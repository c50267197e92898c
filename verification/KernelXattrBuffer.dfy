/** In-place editing of the attribute buffer (src/xattr.c): memmove over a record, a record built at the end. */
module KernelXattrBuffer {
  import opened Layout
  import opened Wire
  import opened XattrCodec
  import opened KernelXattrRecords

  /** Close the gap of `len` bytes at `off`, front to back. */
  method CloseGap(a: array<byte>, size: nat, off: nat, len: nat)
    requires off + len <= size <= a.Length
    modifies a
    ensures var s := old(a[..]); a[..size - len] == s[..off] + s[off + len..size]
  {
    for i := 0 to size - off - len
      invariant forall k :: 0 <= k < off ==> a[k] == old(a[k])
      invariant forall k :: off <= k < off + i ==> a[k] == old(a[k + len])
      invariant forall k :: off + i <= k < a.Length ==> a[k] == old(a[k])
    {
      a[off + i] := a[off + len + i];
    }
    assert a[..size - len] == a[..off] + a[off..size - len];
    assert a[off..size - len] == old(a[..])[off + len..size];
  }

  /** Write `bytes` after what has been written so far from `base` on. */
  method Emit(b: array<byte>, base: nat, bytes: Bytes, at: nat, ghost done: Bytes)
    requires At(b[..], base, done) && at == base + |done| && at + |bytes| <= b.Length
    modifies b
    ensures At(b[..], base, done + bytes) && b[..base] == old(b[..base])
  {
    ghost var s := b[..];
    forall i | 0 <= i < |bytes| {
      b[at + i] := bytes[i];
    }
    assert b[..][base..at] == s[base..at] == done;
    assert b[..][at..at + |bytes|] == bytes;
    AtSplit(b[..], base, done, bytes);
    assert b[..base] == s[..base];
  }

  /** Write one record at `base`, field by field. */
  method WriteRecord(b: array<byte>, base: nat, e: Entry)
    requires Sized(e) && base + Aligned(Size(e)) == b.Length
    modifies b
    ensures b[..] == old(b[..base]) + PaddedRecord(e)
  {
    var n, v := |e.key.name|, |e.value|;
    ghost var s := b[..base];
    assert At(b[..], base, []);
    Emit(b, base, [n, NsIndex(e.key.ns)], base, []);
    ghost var acc: Bytes := [n, NsIndex(e.key.ns)];
    Emit(b, base, Le16(v), base + 2, acc);
    acc := acc + Le16(v);
    Emit(b, base, Le32(13 + n), base + 4, acc);
    acc := acc + Le32(13 + n);
    Emit(b, base, [0, 0, 0, 0], base + 8, acc);
    acc := acc + [0, 0, 0, 0];
    assert acc == Header(e);
    WriteTail(b, base, e);
    assert b[..] == b[..base] + b[base..];
  }

  /** Name, NUL, value and padding after the header. */
  method WriteTail(b: array<byte>, base: nat, e: Entry)
    requires Sized(e) && base + Aligned(Size(e)) == b.Length && At(b[..], base, Header(e))
    modifies b
    ensures At(b[..], base, PaddedRecord(e)) && b[..base] == old(b[..base])
  {
    var n, v := |e.key.name|, |e.value|;
    ghost var h := Header(e);
    Emit(b, base, e.key.name, base + 12, h);
    Emit(b, base, [0], base + 12 + n, h + e.key.name);
    Emit(b, base, e.value, base + 13 + n, h + e.key.name + [0]);
    Emit(b, base, Zeros(Aligned(Size(e)) - Size(e)), base + 13 + n + v, h + e.key.name + [0] + e.value);
    assert h + e.key.name + [0] + e.value == Record(e);
  }

  /** A new buffer: the old data and one more record. */
  method AppendRecord(data: array<byte>, size: nat, e: Entry) returns (b: array<byte>)
    requires size <= data.Length && Sized(e)
    ensures fresh(b) && b[..] == data[..size] + PaddedRecord(e)
  {
    b := new byte[size + Aligned(Size(e))];
    forall i | 0 <= i < size {
      b[i] := data[i];
    }
    assert b[..size] == data[..size];
    WriteRecord(b, size, e);
  }

  // ---- what the edits mean for the entries ----

  lemma StoreConcat(a: seq<Entry>, b: seq<Entry>)
    ensures Store(a + b) == Store(a) + Store(b)
  {
    assert PaddedRecords(a + b) == PaddedRecords(a) + PaddedRecords(b);
    JoinConcat(PaddedRecords(a), PaddedRecords(b));
  }

  lemma StoreOne(e: Entry)
    ensures Store([e]) == PaddedRecord(e)
  {
    var rs := [PaddedRecord(e)];
    assert PaddedRecords([e]) == rs && rs[..0] == [];
    assert Join(rs) == Join(rs[..0]) + rs[0];
  }

  /** Appending a record appends an entry. */
  lemma StoreAppend(es: seq<Entry>, e: Entry)
    ensures Store(es + [e]) == Store(es) + PaddedRecord(e)
  {
    StoreConcat(es, [e]);
    StoreOne(e);
  }

  lemma {:induction false} OffsetIsLength(es: seq<Entry>, i: nat)
    requires i <= |es|
    ensures OffsetAt(es, i) == |Store(es[..i])|
  {
    OffsetIsStart(es, i);
    assert PaddedRecords(es[..i]) == PaddedRecords(es)[..i];
  }

  /** Without entry `i`. */
  function Without(es: seq<Entry>, i: nat): seq<Entry>
    requires i < |es|
  {
    es[..i] + es[i + 1..]
  }

  lemma CutMiddle(s: Bytes, a: Bytes, r: Bytes, b: Bytes)
    requires s == a + r + b
    ensures |a| + |r| <= |s| && s[..|a|] == a && s[|a| + |r|..] == b
  {
  }

  /** Closing the gap of record `i` removes exactly entry `i`. */
  lemma StoreWithout(es: seq<Entry>, i: nat)
    requires i < |es|
    ensures var s := Store(es); var o := OffsetAt(es, i); var n := Aligned(Size(es[i]));
      o + n <= |s| && Store(Without(es, i)) == s[..o] + s[o + n..]
  {
    var a, b := es[..i], es[i + 1..];
    StoreConcat(a, b);
    StoreSplit(es, i);
    OffsetIsLength(es, i);
    CutMiddle(Store(es), Store(a), PaddedRecord(es[i]), Store(b));
  }

  lemma StoreSplit(es: seq<Entry>, i: nat)
    requires i < |es|
    ensures Store(es) == Store(es[..i]) + PaddedRecord(es[i]) + Store(es[i + 1..])
  {
    var a, b := es[..i], es[i + 1..];
    assert es == a + [es[i]] + b;
    StoreConcat(a + [es[i]], b);
    StoreAppend(a, es[i]);
  }
}
