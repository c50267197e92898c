/** Little-endian integers and positional reads over byte sequences. */
module Wire {
  import opened Layout

  function Le16(x: nat): (r: Bytes)
    ensures |r| == 2
  {
    [x % 256, x / 256 % 256]
  }

  function Le32(x: nat): (r: Bytes)
    ensures |r| == 4
  {
    [x % 256, x / 256 % 256, x / 0x1_0000 % 256, x / 0x100_0000 % 256]
  }

  function U16At(b: Bytes, o: nat): (r: nat)
    requires o + 2 <= |b|
    ensures r < U16
  {
    b[o] as int + 256 * (b[o + 1] as int)
  }

  function U32At(b: Bytes, o: nat): (r: nat)
    requires o + 4 <= |b|
    ensures r < U32
  {
    b[o] as int + 256 * (b[o + 1] as int) + 0x1_0000 * (b[o + 2] as int) + 0x100_0000 * (b[o + 3] as int)
  }

  /** `r` occurs in `b` at offset `o`. */
  predicate At(b: Bytes, o: nat, r: Bytes) {
    o + |r| <= |b| && b[o..o + |r|] == r
  }

  lemma AtByte(b: Bytes, o: nat, r: Bytes, i: nat)
    requires At(b, o, r) && i < |r|
    ensures b[o + i] == r[i]
  {
    assert b[o..o + |r|][i] == r[i];
  }

  lemma AtPrefix(a: Bytes, b: Bytes, o: nat, r: Bytes)
    requires At(a, o, r)
    ensures At(a + b, o, r)
  {
    assert (a + b)[o..o + |r|] == a[o..o + |r|];
  }

  lemma AtSplit(b: Bytes, o: nat, r: Bytes, s: Bytes)
    ensures At(b, o, r + s) <==> At(b, o, r) && At(b, o + |r|, s)
  {
    if At(b, o, r + s) {
      assert b[o..o + |r|] == (r + s)[..|r|] == r;
      assert b[o + |r|..o + |r| + |s|] == (r + s)[|r|..] == s;
    }
    if At(b, o, r) && At(b, o + |r|, s) {
      assert b[o..o + |r| + |s|] == b[o..o + |r|] + b[o + |r|..o + |r| + |s|];
    }
  }

  lemma Read16(b: Bytes, o: nat, x: nat)
    requires At(b, o, Le16(x)) && x < U16
    ensures U16At(b, o) == x
  {
    AtByte(b, o, Le16(x), 0);
    AtByte(b, o, Le16(x), 1);
  }

  lemma Digits32(x: nat)
    requires x < U32
    ensures x % 256 + 256 * (x / 256 % 256) + 0x1_0000 * (x / 0x1_0000 % 256) + 0x100_0000 * (x / 0x100_0000 % 256) == x
  {
    var y := x / 256;
    var z := y / 256;
    assert z == x / 0x1_0000 && z / 256 == x / 0x100_0000 < 256;
  }

  lemma Read32(b: Bytes, o: nat, x: nat)
    requires At(b, o, Le32(x)) && x < U32
    ensures U32At(b, o) == x
  {
    Digits32(x);
    AtByte(b, o, Le32(x), 0);
    AtByte(b, o, Le32(x), 1);
    AtByte(b, o, Le32(x), 2);
    AtByte(b, o, Le32(x), 3);
  }

  // ---- concatenated records ----

  function Join(rs: seq<Bytes>): Bytes {
    if rs == [] then [] else Join(rs[..|rs| - 1]) + rs[|rs| - 1]
  }

  /** Where each record of a joined list starts, and where the list ends. */
  function Starts(rs: seq<Bytes>): (o: seq<nat>)
    ensures |o| == |rs| + 1
  {
    seq(|rs| + 1, i requires 0 <= i <= |rs| => |Join(rs[..i])|)
  }

  lemma JoinStep(rs: seq<Bytes>, i: nat)
    requires i < |rs|
    ensures Join(rs[..i + 1]) == Join(rs[..i]) + rs[i]
  {
    assert rs[..i + 1][..i] == rs[..i];
  }

  lemma {:induction false} JoinAt(rs: seq<Bytes>, i: nat, n: nat)
    requires i < n <= |rs|
    ensures At(Join(rs[..n]), |Join(rs[..i])|, rs[i])
    decreases n
  {
    JoinStep(rs, n - 1);
    if i < n - 1 {
      JoinAt(rs, i, n - 1);
      AtPrefix(Join(rs[..n - 1]), rs[n - 1], |Join(rs[..i])|, rs[i]);
    } else {
      assert Join(rs[..n])[|Join(rs[..i])|..] == rs[i];
    }
  }

  lemma {:induction false} JoinConcat(a: seq<Bytes>, b: seq<Bytes>)
    ensures Join(a + b) == Join(a) + Join(b)
  {
    if b == [] {
      assert a + b == a;
    } else {
      var n := |b| - 1;
      assert (a + b)[..|a + b| - 1] == a + b[..n];
      JoinConcat(a, b[..n]);
    }
  }

  /** Records lie back to back from 0 to the end. */
  predicate Laid(data: Bytes, offs: seq<nat>, rs: seq<Bytes>) {
    && |offs| == |rs| + 1 && offs[0] == 0 && offs[|rs|] == |data|
    && (forall i :: 0 <= i < |rs| ==> At(data, offs[i], rs[i]))
    && (forall i :: 0 <= i < |rs| ==> offs[i + 1] == offs[i] + |rs[i]|)
  }

  lemma JoinLaid(rs: seq<Bytes>)
    ensures Laid(Join(rs), Starts(rs), rs)
  {
    assert rs[..|rs|] == rs;
    forall i | 0 <= i < |rs| ensures At(Join(rs), Starts(rs)[i], rs[i]) && Starts(rs)[i + 1] == Starts(rs)[i] + |rs[i]| {
      JoinAt(rs, i, |rs|);
      JoinStep(rs, i);
    }
  }
}
