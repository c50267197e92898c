/** Moving the attribute store between the buffer and its blocks (src/xattr.c). */
module KernelXattrBlocks {
  import opened Layout
  import opened Wire
  import opened XattrCodec
  import opened KernelXattrRecords
  import D = DiskState
  import C = Content
  import S = RustXattrStore

  predicate Blocks(disk: seq<Bytes>) {
    forall b :: 0 <= b < |disk| ==> |disk[b]| == BLOCK_SIZE
  }

  /** The first `size` bytes of a run of blocks. */
  function StoredBytes(run: seq<Bytes>, size: nat): Bytes {
    D.Truncated(Join(run), size)
  }

  lemma {:induction false} ConcatLength(run: seq<Bytes>)
    requires Blocks(run)
    ensures |Join(run)| == 4096 * |run|
  {
    if run != [] {
      ConcatLength(run[..|run| - 1]);
    }
  }

  lemma {:induction false} ConcatAt(run: seq<Bytes>, k: nat)
    requires Blocks(run) && k <= |run|
    ensures |Join(run[..k])| == 4096 * k && 4096 * k <= |Join(run)|
    ensures Join(run)[..4096 * k] == Join(run[..k])
    decreases |run|
  {
    ConcatLength(run);
    ConcatLength(run[..k]);
    if k < |run| {
      var init := run[..|run| - 1];
      ConcatAt(init, k);
      assert init[..k] == run[..k];
    } else {
      assert run[..k] == run;
    }
  }

  /** Copy the blocks of a run into the buffer, the last one cut to size. */
  method ReadRun(run: seq<Bytes>, size: nat, data: array<byte>)
    requires Blocks(run) && size <= 4096 * |run| && data.Length == size
    modifies data
    ensures data[..] == StoredBytes(run, size)
  {
    ghost var all := Join(run);
    ConcatLength(run);
    var got, bi := 0, 0;
    while bi < |run| && got < size
      invariant bi <= |run| && got == Min(4096 * bi, size)
      invariant data[..got] == all[..got]
    {
      var n := Min(BLOCK_SIZE, size - got);
      CopyBlock(run, bi, got, n, data);
      got := got + n;
      bi := bi + 1;
    }
    assert data[..] == data[..got];
  }

  method CopyBlock(run: seq<Bytes>, bi: nat, got: nat, n: nat, data: array<byte>)
    requires Blocks(run) && bi < |run| && got == 4096 * bi && n <= 4096 && got + n <= data.Length
    requires |Join(run)| == 4096 * |run| && data[..got] == Join(run)[..got]
    modifies data
    ensures data[..got + n] == Join(run)[..got + n]
  {
    ghost var all := Join(run);
    ConcatAt(run, bi);
    ConcatAt(run, bi + 1);
    assert run[..bi + 1][..bi] == run[..bi];
    assert all[..got + 4096] == all[..got] + run[bi];
    ghost var s := data[..got];
    forall i | 0 <= i < n {
      data[got + i] := run[bi][i];
    }
    assert data[..got] == s;
    assert data[got..got + n] == run[bi][..n];
    assert data[..got + n] == s + run[bi][..n];
    assert all[..got + n] == all[..got + 4096][..got + n];
  }

  /** Blocks of a run after `data` is written over its front; the rest of the run is untouched. */
  function Overwritten(run: seq<Bytes>, data: Bytes, n: nat): (r: seq<Bytes>)
    requires n <= NumBlocks(|data|)
    ensures |r| == |run|
    ensures forall k :: 0 <= k < |run| ==> r[k] == if k < n then C.Pad(C.Chunk(data, k)) else run[k]
  {
    seq(|run|, k requires 0 <= k < |run| => if k < n then C.Pad(C.Chunk(data, k)) else run[k])
  }

  lemma OverwrittenReads(run: seq<Bytes>, data: Bytes)
    requires Blocks(run) && NumBlocks(|data|) <= |run|
    ensures Blocks(Overwritten(run, data, NumBlocks(|data|)))
    ensures StoredBytes(Overwritten(run, data, NumBlocks(|data|)), |data|) == data
  {
    var n := NumBlocks(|data|);
    var r := Overwritten(run, data, n);
    S.ConcatPadded(data, r, n);
    ConcatAt(r, n);
    ConcatLength(r);
    assert data[..Min(4096 * n, |data|)] == data;
    assert Join(r)[..|data|] == Join(r)[..4096 * n][..|data|];
  }

  /** Copy the front of the buffer into the blocks of a run, zero-filling the last one. */
  method WriteRun(run: seq<Bytes>, data: array<byte>, size: nat) returns (r: seq<Bytes>)
    requires Blocks(run) && size <= data.Length && size <= 4096 * |run|
    ensures |r| == |run| && Blocks(r) && StoredBytes(r, size) == data[..size]
  {
    r := run;
    ghost var d := data[..size];
    var written, bi := 0, 0;
    assert Overwritten(run, d, 0) == run;
    while bi < |run| && written < size
      invariant bi <= |run| && bi <= NumBlocks(size) && written == Min(4096 * bi, size)
      invariant r == Overwritten(run, d, bi)
    {
      var n := Min(BLOCK_SIZE, size - written);
      assert data[written..written + n] == d[written..written + n] == C.Chunk(d, bi);
      r := r[bi := data[written..written + n] + Zeros(BLOCK_SIZE - n)];
      assert r[bi] == C.Pad(C.Chunk(d, bi));
      written := written + n;
      bi := bi + 1;
    }
    assert bi == NumBlocks(size);
    OverwrittenReads(run, d);
  }

  lemma StoreIsEmpty(es: seq<Entry>)
    requires |Store(es)| == 0
    ensures es == []
  {
    StoreEnds(es);
  }

  /** The value of the record at `o`, through its stored offset and length. */
  method ValueAt(data: array<byte>, o: nat, ghost es: seq<Entry>, ghost j: nat) returns (v: Bytes)
    requires data[..] == Store(es) && AllSized(es) && j < |es| && o == OffsetAt(es, j)
    ensures v == es[j].value
  {
    EntrySeen(es, j);
    var valueOffset, valueLen := U32At(data[..], o + 4), U16At(data[..], o + 2);
    v := data[o + valueOffset..o + valueOffset + valueLen];
    assert v == data[..][o + valueOffset..o + valueOffset + valueLen];
  }

  /** The padded size of the record at `o`, through its stored lengths. */
  method RecordSizeAt(data: array<byte>, o: nat, ghost es: seq<Entry>, ghost j: nat) returns (n: nat)
    requires data[..] == Store(es) && AllSized(es) && j < |es| && o == OffsetAt(es, j)
    ensures n == Aligned(Size(es[j])) && o + n <= data.Length
  {
    EntrySeen(es, j);
    RecordLies(es, j);
    n := Aligned(12 + data[o] + 1 + U16At(data[..], o + 2));
  }
}
