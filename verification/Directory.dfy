/** Directory contents: a list of slots read as a finite map from names to inode numbers. */
module Directory {
  import opened Layout

  type Name = Bytes

  /** What the callers may pass: a byte string that its NUL-terminated slot can hold. */
  predicate ValidName(n: Name) {
    n != [] && 0 !in n
  }

  predicate Visible(s: Slot) {
    s.name != []
  }

  /** First slot showing name `n`, or the number of slots. */
  function Pos(slots: seq<Slot>, n: Name): (p: nat)
    ensures p <= |slots|
    ensures p < |slots| ==> slots[p].name == n
    ensures forall q :: 0 <= q < p ==> slots[q].name != n
  {
    if slots == [] then 0 else if slots[0].name == n then 0 else 1 + Pos(slots[1..], n)
  }

  predicate Shows(slots: seq<Slot>, n: Name) {
    n != [] && Pos(slots, n) < |slots|
  }

  function NameSet(slots: seq<Slot>): (r: set<Name>)
    ensures forall n :: n in r <==> Shows(slots, n)
  {
    var r := set p | 0 <= p < |slots| && Visible(slots[p]) :: slots[p].name;
    assert forall n :: Shows(slots, n) ==> slots[Pos(slots, n)].name in r;
    r
  }

  /** The map a directory stands for. */
  function Entries(slots: seq<Slot>): map<Name, nat> {
    map n | n in NameSet(slots) :: slots[Pos(slots, n)].ino
  }

  /** No name twice, and slots without a name are fully cleared. */
  predicate WellFormed(slots: seq<Slot>) {
    && (forall p :: 0 <= p < |slots| ==> slots[p] == EMPTY_SLOT || ValidName(slots[p].name))
    && (forall p, q :: 0 <= p < q < |slots| && Visible(slots[p]) ==> slots[p].name != slots[q].name)
  }

  function CountVisible(slots: seq<Slot>): nat {
    if slots == [] then 0 else CountVisible(slots[..|slots| - 1]) + (if Visible(slots[|slots| - 1]) then 1 else 0)
  }

  lemma EntriesAre(slots: seq<Slot>, m: map<Name, nat>)
    requires forall n :: n in m <==> Shows(slots, n)
    requires forall n :: n in m ==> Shows(slots, n) && m[n] == slots[Pos(slots, n)].ino
    ensures Entries(slots) == m
  {
  }

  lemma PosIs(slots: seq<Slot>, p: nat)
    requires WellFormed(slots) && p < |slots| && Visible(slots[p])
    ensures Pos(slots, slots[p].name) == p
  {
  }

  lemma {:induction false} CountUpdate(slots: seq<Slot>, p: nat, s: Slot)
    requires p < |slots|
    ensures CountVisible(slots[p := s]) ==
            CountVisible(slots) - (if Visible(slots[p]) then 1 else 0) + (if Visible(s) then 1 else 0)
  {
    var n := |slots| - 1;
    if p == n {
      assert slots[p := s][..n] == slots[..n];
    } else {
      assert slots[p := s][..n] == slots[..n][p := s];
      CountUpdate(slots[..n], p, s);
    }
  }

  lemma {:induction false} CountAppendEmpty(slots: seq<Slot>, k: nat)
    ensures CountVisible(slots + seq(k, _ => EMPTY_SLOT)) == CountVisible(slots)
  {
    var t := slots + seq(k, _ => EMPTY_SLOT);
    if k == 0 {
      assert t == slots;
    } else {
      CountAppendEmpty(slots, k - 1);
      assert t[..|t| - 1] == slots + seq(k - 1, _ => EMPTY_SLOT);
    }
  }

  lemma {:induction false} CountIsSize(slots: seq<Slot>)
    requires WellFormed(slots)
    ensures CountVisible(slots) == |NameSet(slots)|
  {
    if slots == [] {
      assert NameSet(slots) == {};
    } else {
      var n := |slots| - 1;
      var init := slots[..n];
      assert WellFormed(init);
      CountIsSize(init);
      ShowsInit(slots);
      var a, x := NameSet(init), slots[n].name;
      if Visible(slots[n]) {
        assert NameSet(slots) == a + {x};
        assert x !in a;
      } else {
        assert NameSet(slots) == a;
      }
    }
  }

  lemma ShowsInit(slots: seq<Slot>)
    requires WellFormed(slots) && slots != []
    ensures var last := slots[|slots| - 1];
            && !Shows(slots[..|slots| - 1], last.name)
            && forall n :: Shows(slots, n) <==> Shows(slots[..|slots| - 1], n) || (Visible(last) && n == last.name)
  {
    var k := |slots| - 1;
    forall n ensures Shows(slots, n) <==> Shows(slots[..k], n) || (Visible(slots[k]) && n == slots[k].name) {
      var i := Pos(slots[..k], n);
      assert i < k ==> slots[i].name == n;
      var j := Pos(slots, n);
      assert j < k ==> slots[..k][j].name == n;
    }
  }

  // ---- filling and clearing a slot ----

  lemma FillPos(slots: seq<Slot>, p: nat, n: Name, i: nat, x: Name)
    requires p < |slots| && slots[p] == EMPTY_SLOT && ValidName(n) && !Shows(slots, n)
    ensures var t := slots[p := Slot(i, n)];
            && (x == n ==> Pos(t, x) == p)
            && (x != n ==> (Shows(t, x) <==> Shows(slots, x)) && (Shows(slots, x) ==> Pos(t, x) == Pos(slots, x)))
  {
    var t := slots[p := Slot(i, n)];
    var a, b := Pos(slots, x), Pos(t, x);
    assert a < |slots| && x != n && x != [] ==> t[a].name == x;
    assert b < |t| && x != n ==> slots[b].name == x || b == p;
    assert t[p].name == n;
  }

  /** Writing a new entry into an empty slot adds exactly that name. */
  lemma FillIsAdd(slots: seq<Slot>, p: nat, n: Name, i: nat)
    requires WellFormed(slots) && p < |slots| && slots[p] == EMPTY_SLOT && ValidName(n) && !Shows(slots, n)
    ensures WellFormed(slots[p := Slot(i, n)])
    ensures Entries(slots[p := Slot(i, n)]) == Entries(slots)[n := i]
  {
    var t, m := slots[p := Slot(i, n)], Entries(slots)[n := i];
    forall x: Name ensures x in m <==> Shows(t, x) { FillPos(slots, p, n, i, x); }
    forall x | x in m ensures Shows(t, x) && m[x] == t[Pos(t, x)].ino { FillPos(slots, p, n, i, x); }
    EntriesAre(t, m);
    FillWellFormed(slots, p, n, i);
  }

  lemma FillWellFormed(slots: seq<Slot>, p: nat, n: Name, i: nat)
    requires WellFormed(slots) && p < |slots| && slots[p] == EMPTY_SLOT && ValidName(n) && !Shows(slots, n)
    ensures WellFormed(slots[p := Slot(i, n)])
  {
    assert forall q :: 0 <= q < |slots| ==> slots[q].name != n;
  }

  lemma ClearPos(slots: seq<Slot>, p: nat, x: Name)
    requires WellFormed(slots) && p < |slots| && Visible(slots[p])
    ensures var t := slots[p := EMPTY_SLOT];
            && (Shows(t, x) <==> Shows(slots, x) && x != slots[p].name)
            && (Shows(t, x) ==> Pos(t, x) == Pos(slots, x))
  {
    var t := slots[p := EMPTY_SLOT];
    var a, b := Pos(slots, x), Pos(t, x);
    assert a < |slots| && a != p ==> t[a].name == x;
    assert b < |t| && x != [] ==> slots[b].name == x;
    if x == slots[p].name { PosIs(slots, p); }
  }

  /** Clearing a slot removes exactly its name. */
  lemma ClearIsRemove(slots: seq<Slot>, p: nat)
    requires WellFormed(slots) && p < |slots| && Visible(slots[p])
    ensures WellFormed(slots[p := EMPTY_SLOT])
    ensures Entries(slots[p := EMPTY_SLOT]) == Entries(slots) - {slots[p].name}
  {
    var t, m := slots[p := EMPTY_SLOT], Entries(slots) - {slots[p].name};
    forall x: Name ensures x in m <==> Shows(t, x) { ClearPos(slots, p, x); }
    forall x | x in m ensures Shows(t, x) && m[x] == t[Pos(t, x)].ino { ClearPos(slots, p, x); }
    EntriesAre(t, m);
    ClearWellFormed(slots, p);
  }

  lemma ClearWellFormed(slots: seq<Slot>, p: nat)
    requires WellFormed(slots) && p < |slots|
    ensures WellFormed(slots[p := EMPTY_SLOT])
  {
  }

  /** A fresh, zeroed block shows nothing new. */
  lemma AppendEmpty(slots: seq<Slot>, k: nat)
    requires WellFormed(slots)
    ensures WellFormed(slots + seq(k, _ => EMPTY_SLOT))
    ensures Entries(slots + seq(k, _ => EMPTY_SLOT)) == Entries(slots)
    ensures CountVisible(slots + seq(k, _ => EMPTY_SLOT)) == CountVisible(slots)
  {
    CountAppendEmpty(slots, k);
    var t, m := slots + seq(k, _ => EMPTY_SLOT), Entries(slots);
    forall x: Name ensures (x in m <==> Shows(t, x)) && (x in m ==> Pos(t, x) == Pos(slots, x)) {
      var a, b := Pos(slots, x), Pos(t, x);
      assert a < |slots| ==> t[a].name == x;
      assert b < |slots| ==> slots[b].name == x;
      assert |slots| <= b < |t| ==> x == [];
    }
    EntriesAre(t, m);
  }

  // ---- listing ----

  /** The occupied slots in order: what `list_dir` reports. */
  function Listed(slots: seq<Slot>): seq<Slot> {
    if slots == [] then [] else Listed(slots[..|slots| - 1]) + (if Visible(slots[|slots| - 1]) then [slots[|slots| - 1]] else [])
  }

  lemma {:induction false} ListedConcat(a: seq<Slot>, b: seq<Slot>)
    ensures Listed(a + b) == Listed(a) + Listed(b)
  {
    if b == [] {
      assert a + b == a;
    } else {
      assert (a + b)[..|a + b| - 1] == a + b[..|b| - 1];
      ListedConcat(a, b[..|b| - 1]);
    }
  }

  lemma {:induction false} ListedFrom(slots: seq<Slot>)
    ensures forall s :: s in Listed(slots) <==> s in slots && Visible(s)
    ensures |Listed(slots)| == CountVisible(slots)
  {
    if slots != [] {
      ListedFrom(slots[..|slots| - 1]);
      assert slots == slots[..|slots| - 1] + [slots[|slots| - 1]];
    }
  }

  /** The listing is the map: same names, same inode numbers, each once. */
  lemma ListedIsMap(slots: seq<Slot>)
    requires WellFormed(slots)
    ensures forall n, i :: Slot(i, n) in Listed(slots) <==> n in Entries(slots) && Entries(slots)[n] == i
    ensures |Listed(slots)| == |Entries(slots)| == CountVisible(slots)
  {
    ListedFrom(slots);
    CountIsSize(slots);
    assert Entries(slots).Keys == NameSet(slots);
    forall n, i ensures Slot(i, n) in Listed(slots) <==> n in Entries(slots) && Entries(slots)[n] == i {
      if Slot(i, n) in slots && n != [] {
        var p :| 0 <= p < |slots| && slots[p] == Slot(i, n);
        PosIs(slots, p);
      }
      if n in Entries(slots) {
        assert slots[Pos(slots, n)] == Slot(Entries(slots)[n], n);
      }
    }
  }
}
