/** The attribute index with its two encoders and decoders, and the compression metadata block (types.rs, xattr.rs). */
module IndexCodecs {
  import opened Layout
  import opened Wire
  import opened Codecs

  // ---- the attribute index ----

  function XattrBytes(ix: XattrIndex): Bytes {
    Block(Le32(ix.totalSize) + Le32(ix.count) + SlotBytes(ix.extents))
  }

  function XattrOf(data: Bytes): XattrIndex
    requires |data| == BLOCK_SIZE
  {
    XattrIndex(U32At(data, 0), U32At(data, 4), SlotsAt(data, 8))
  }

  lemma XattrRoundTrip(ix: XattrIndex)
    requires ix.totalSize < U32 && ix.count < U32 && forall i :: 0 <= i < |ix.extents| ==> ExtentFits(ix.extents[i])
    ensures XattrOf(XattrBytes(ix)) == ix <==> |ix.extents| == MAX_EXTENTS
  {
    var h := Le32(ix.totalSize) + Le32(ix.count);
    var data := h + SlotBytes(ix.extents);
    SlotBytesLength(ix.extents);
    BlockPrefix(data);
    AtSplit(Block(data), 0, h, SlotBytes(ix.extents));
    AtSplit(Block(data), 0, Le32(ix.totalSize), Le32(ix.count));
    Read32(Block(data), 0, ix.totalSize);
    Read32(Block(data), 4, ix.count);
    SlotsRead(Block(data), 8, ix.extents);
  }

  /** `XattrIndex::to_bytes`: append, then pad. */
  method XattrToBytes(ix: XattrIndex) returns (data: Bytes)
    ensures data == XattrBytes(ix)
  {
    data := AppendSlots(Le32(ix.totalSize) + Le32(ix.count), ix.extents);
    data := Block(data);
  }

  /** `XattrIndex::from_bytes`. */
  method XattrFromBytes(data: Bytes) returns (ix: XattrIndex)
    requires |data| == BLOCK_SIZE
    ensures ix == XattrOf(data)
  {
    var exts := ReadSlots(data, 8);
    ix := XattrIndex(U32At(data, 0), U32At(data, 4), exts);
  }

  /** `read_xattr_index`: a moving offset over the same bytes. */
  method ReadXattrIndex(data: Bytes) returns (ix: XattrIndex)
    requires |data| == BLOCK_SIZE
    ensures ix == XattrOf(data)
  {
    var exts: seq<Extent> := [];
    var offset, i := 8, 0;
    while i < MAX_EXTENTS
      invariant 0 <= i <= MAX_EXTENTS && offset == 8 + 24 * i && exts == SlotsAt(data, 8)[..i]
    {
      if offset + 20 > |data| {
        break;
      }
      exts := exts + [ExtentAt(data, offset)];
      offset := offset + 24;
      i := i + 1;
    }
    ix := XattrIndex(U32At(data, 0), U32At(data, 4), exts);
  }

  lemma EmptyRecord()
    ensures ExtentBytes(EMPTY_EXTENT) == Zeros(24)
  {
  }

  lemma ZerosConcat(a: nat, b: nat)
    ensures Zeros(a) + Zeros(b) == Zeros(a + b)
  {
  }

  lemma {:induction false} JoinZeros(rs: seq<Bytes>, i: nat, n: nat)
    requires i <= n <= |rs| && forall j :: i <= j < n ==> rs[j] == Zeros(24)
    ensures Join(rs[..n]) == Join(rs[..i]) + Zeros(24 * (n - i))
  {
    if i < n {
      JoinZeros(rs, i, n - 1);
      JoinStep(rs, n - 1);
      ZerosConcat(24 * (n - 1 - i), 24);
    }
  }

  /** Records past the end of the list are zeros. */
  lemma TailIsZero(exts: seq<Extent>, i: nat, n: nat)
    requires |exts| <= i <= n
    ensures Join(SlotRecords(exts, n)) == Join(SlotRecords(exts, i)) + Zeros(24 * (n - i))
  {
    var rs := SlotRecords(exts, n);
    EmptyRecord();
    JoinZeros(rs, i, n);
    assert rs[..n] == rs;
    assert rs[..i] == SlotRecords(exts, i);
  }

  /** A zeroed block with `front` written at its start. */
  function Front(front: Bytes): (r: Bytes)
    requires |front| <= BLOCK_SIZE
    ensures |r| == BLOCK_SIZE
  {
    front + Zeros(BLOCK_SIZE - |front|)
  }

  method Patch(b: array<byte>, o: nat, bytes: Bytes, ghost front: Bytes)
    requires b.Length == BLOCK_SIZE && o == |front| && |front| + |bytes| <= BLOCK_SIZE && b[..] == Front(front)
    modifies b
    ensures b[..] == Front(front + bytes)
  {
    ghost var s := b[..];
    forall i | 0 <= i < |bytes| {
      b[o + i] := bytes[i];
    }
    assert b[..][..o] == s[..o] == front;
    assert b[..][o..o + |bytes|] == bytes;
    assert b[..][o + |bytes|..] == s[o + |bytes|..] == Zeros(BLOCK_SIZE - |front + bytes|);
    assert b[..] == b[..][..o] + b[..][o..o + |bytes|] + b[..][o + |bytes|..];
  }

  /** One extent, field by field. */
  method PatchExtent(b: array<byte>, o: nat, e: Extent, ghost front: Bytes)
    requires b.Length == BLOCK_SIZE && o == |front| && |front| + 24 <= BLOCK_SIZE && b[..] == Front(front)
    requires e.enc < 256 && e.reserved < 256
    modifies b
    ensures b[..] == Front(front + ExtentBytes(e))
  {
    ghost var f := front;
    Patch(b, o, Le32(e.block), f);
    f := f + Le32(e.block);
    Patch(b, o + 4, Le32(e.len), f);
    f := f + Le32(e.len);
    Patch(b, o + 8, Le32(e.start), f);
    f := f + Le32(e.start);
    Patch(b, o + 12, Le16(e.comp), f);
    f := f + Le16(e.comp);
    Patch(b, o + 14, [e.enc, e.reserved], f);
    f := f + [e.enc, e.reserved];
    PatchRest(b, o + 16, e, f);
    assert f + Le16(e.flags) + Le16(e.reserved2) + Le32(e.meta) == front + ExtentBytes(e);
  }

  method PatchRest(b: array<byte>, o: nat, e: Extent, ghost front: Bytes)
    requires b.Length == BLOCK_SIZE && o == |front| && |front| + 8 <= BLOCK_SIZE && b[..] == Front(front)
    modifies b
    ensures b[..] == Front(front + Le16(e.flags) + Le16(e.reserved2) + Le32(e.meta))
  {
    Patch(b, o, Le16(e.flags), front);
    Patch(b, o + 2, Le16(e.reserved2), front + Le16(e.flags));
    Patch(b, o + 4, Le32(e.meta), front + Le16(e.flags) + Le16(e.reserved2));
  }

  /** `write_xattr_index`: patches a zeroed block, and writes the very bytes of `to_bytes`. */
  method WriteXattrIndex(ix: XattrIndex) returns (b: array<byte>)
    requires forall i :: 0 <= i < |ix.extents| ==> ix.extents[i].enc < 256 && ix.extents[i].reserved < 256
    ensures fresh(b) && b[..] == XattrBytes(ix)
  {
    b := new byte[BLOCK_SIZE](_ => 0);
    assert b[..] == Front([]);
    Patch(b, 0, Le32(ix.totalSize), []);
    assert [] + Le32(ix.totalSize) == Le32(ix.totalSize);
    Patch(b, 4, Le32(ix.count), Le32(ix.totalSize));
    ghost var h := Le32(ix.totalSize) + Le32(ix.count);
    var n := WriteSlots(b, ix.extents, h);
    SameBytes(ix.extents, h, n);
  }

  /** The loop over the extents; it stops when the next one would leave the block. */
  method WriteSlots(b: array<byte>, exts: seq<Extent>, ghost h: Bytes) returns (n: nat)
    requires b.Length == BLOCK_SIZE && |h| == 8 && b[..] == Front(h)
    requires forall i :: 0 <= i < |exts| ==> exts[i].enc < 256 && exts[i].reserved < 256
    modifies b
    ensures n == (if |exts| <= MAX_EXTENTS then |exts| else MAX_EXTENTS)
    ensures 8 + 24 * n <= BLOCK_SIZE && |Join(SlotRecords(exts, n))| == 24 * n && b[..] == Front(h + Join(SlotRecords(exts, n)))
  {
    n := 0;
    var offset := 8;
    assert SlotRecords(exts, 0) == [] && h + [] == h;
    while n < |exts|
      invariant n <= |exts| && n <= MAX_EXTENTS && offset == 8 + 24 * n
      invariant |Join(SlotRecords(exts, n))| == 24 * n && b[..] == Front(h + Join(SlotRecords(exts, n)))
    {
      if offset + 24 > BLOCK_SIZE {
        break;
      }
      SlotRecordsStep(exts, n, h);
      PatchExtent(b, offset, exts[n], h + Join(SlotRecords(exts, n)));
      offset := offset + 24;
      n := n + 1;
    }
  }

  lemma SlotRecordsStep(exts: seq<Extent>, n: nat, h: Bytes)
    requires n < |exts|
    ensures Join(SlotRecords(exts, n + 1)) == Join(SlotRecords(exts, n)) + ExtentBytes(exts[n])
    ensures h + Join(SlotRecords(exts, n)) + ExtentBytes(exts[n]) == h + Join(SlotRecords(exts, n + 1))
  {
    var rs := SlotRecords(exts, n + 1);
    assert rs[..n] == SlotRecords(exts, n) && rs[..n + 1] == rs;
    JoinStep(rs, n);
  }

  lemma SameBytes(exts: seq<Extent>, h: Bytes, n: nat)
    requires |h| == 8 && n == (if |exts| <= MAX_EXTENTS then |exts| else MAX_EXTENTS)
    requires |Join(SlotRecords(exts, n))| == 24 * n
    ensures Front(h + Join(SlotRecords(exts, n))) == Block(h + SlotBytes(exts))
  {
    SlotBytesLength(exts);
    if n < MAX_EXTENTS {
      TailIsZero(exts, n, MAX_EXTENTS);
    }
  }

  // ---- compression metadata ----

  const META_MAGIC: nat := 0xC04F_FEE5
  const MAX_META: nat := 2040

  datatype BlockMeta = BlockMeta(size: nat, algo: nat, flags: nat)

  function MetaBytes(m: BlockMeta): (r: Bytes)
    ensures |r| == 4
  {
    Le16(m.size) + [m.algo % 256, m.flags % 256]
  }

  function MetaRecords(ms: seq<BlockMeta>): (rs: seq<Bytes>)
    ensures |rs| == |ms| && forall j :: 0 <= j < |rs| ==> |rs[j]| == 4
  {
    seq(|ms|, i requires 0 <= i < |ms| => MetaBytes(ms[i]))
  }

  /** `CompressionMetadata::to_bytes`: cut or padded to one block. */
  function MetaBlock(ms: seq<BlockMeta>): Bytes {
    Block(Le32(META_MAGIC) + Le32(|ms|) + Join(MetaRecords(ms)))
  }

  /** The entries from `o` on; None when the data ends too early. */
  function MetasAt(data: Bytes, o: nat, n: nat): Option<seq<BlockMeta>> {
    if n == 0 then Some([])
    else
      match MetasAt(data, o, n - 1)
      case None => None
      case Some(ms) =>
        var p := o + 4 * (n - 1);
        if p + 4 > |data| then None else Some(ms + [MetaAt(data, p)])
  }

  /** `CompressionMetadata::from_bytes`. */
  function MetaOf(data: Bytes): Option<seq<BlockMeta>> {
    if |data| < BLOCK_SIZE then None
    else if U32At(data, 0) != META_MAGIC then None
    else if U32At(data, 4) > MAX_META then None
    else MetasAt(data, 8, U32At(data, 4))
  }

  predicate MetaFits(m: BlockMeta) { m.size < U16 && m.algo < 256 && m.flags < 256 }

  lemma MetaHead(ms: seq<BlockMeta>)
    requires |ms| < U32
    ensures |MetaBlock(ms)| == BLOCK_SIZE && U32At(MetaBlock(ms), 0) == META_MAGIC && U32At(MetaBlock(ms), 4) == |ms|
  {
    var h, d := Le32(META_MAGIC) + Le32(|ms|), MetaBlock(ms);
    assert d[0..8] == h;
    AtSplit(d, 0, Le32(META_MAGIC), Le32(|ms|));
    Read32(d, 0, META_MAGIC);
    Read32(d, 4, |ms|);
  }

  lemma MetaRecordReads(data: Bytes, ms: seq<BlockMeta>, i: nat)
    requires At(data, 8, Join(MetaRecords(ms))) && i < |ms| && MetaFits(ms[i])
    ensures 8 + 4 * i + 4 <= |data| && MetaAt(data, 8 + 4 * i) == ms[i]
  {
    var rs := MetaRecords(ms);
    FixedAt(rs, 4, i);
    AtInside(data, 8, Join(rs), 4 * i, rs[i]);
    MetaReads(data, 8 + 4 * i, ms[i]);
  }

  lemma {:induction false} MetasRead(data: Bytes, ms: seq<BlockMeta>, n: nat)
    requires At(data, 8, Join(MetaRecords(ms))) && n <= |ms| && forall i :: 0 <= i < |ms| ==> MetaFits(ms[i])
    ensures MetasAt(data, 8, n) == Some(ms[..n])
  {
    if n > 0 {
      MetasRead(data, ms, n - 1);
      MetaRecordReads(data, ms, n - 1);
      assert ms[..n] == ms[..n - 1] + [ms[n - 1]];
    }
  }

  function MetaAt(data: Bytes, p: nat): BlockMeta
    requires p + 4 <= |data|
  {
    BlockMeta(U16At(data, p), data[p + 2], data[p + 3])
  }

  lemma MetaReads(data: Bytes, p: nat, m: BlockMeta)
    requires At(data, p, MetaBytes(m)) && MetaFits(m)
    ensures MetaAt(data, p) == m
  {
    var b: Bytes := [m.algo % 256, m.flags % 256];
    AtSplit(data, p, Le16(m.size), b);
    Read16(data, p, m.size);
    AtByte(data, p + 2, b, 0);
    AtByte(data, p + 2, b, 1);
  }

  lemma {:induction false} MetasShort(data: Bytes, n: nat)
    requires |data| == BLOCK_SIZE && n > 1022
    ensures MetasAt(data, 8, n) == None
  {
    if n > 1023 { MetasShort(data, n - 1); }
  }

  /**
   * Compression metadata reads back exactly up to 1022 entries, although the format admits 2040: from
   * 1023 on the block cuts off the tail and nothing can be read.
   */
  lemma MetaRoundTrip(ms: seq<BlockMeta>)
    requires |ms| < U32 && forall i :: 0 <= i < |ms| ==> MetaFits(ms[i])
    ensures |ms| <= 1022 ==> MetaOf(MetaBlock(ms)) == Some(ms)
    ensures |ms| >= 1023 ==> MetaOf(MetaBlock(ms)) == None
  {
    MetaHead(ms);
    if |ms| <= 1022 {
      var h, body := Le32(META_MAGIC) + Le32(|ms|), Join(MetaRecords(ms));
      JoinFixed(MetaRecords(ms), 4, |ms|);
      assert MetaRecords(ms)[..|ms|] == MetaRecords(ms);
      BlockPrefix(h + body);
      AtSplit(MetaBlock(ms), 0, h, body);
      MetasRead(MetaBlock(ms), ms, |ms|);
      assert ms[..|ms|] == ms;
    } else if |ms| <= MAX_META {
      MetasShort(MetaBlock(ms), |ms|);
    }
  }
}
