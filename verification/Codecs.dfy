/** On-disk records of the Rust library (lolelffs-tools/src/types.rs, fs.rs, xattr.rs) and their readers. */
module Codecs {
  import opened Layout
  import opened Wire

  // ---- fixed-size records and words ----

  /** `Vec::resize` to a whole block. */
  function Block(data: Bytes): (r: Bytes)
    ensures |r| == BLOCK_SIZE
  {
    if |data| <= BLOCK_SIZE then data + Zeros(BLOCK_SIZE - |data|) else data[..BLOCK_SIZE]
  }

  lemma {:induction false} JoinFixed(rs: seq<Bytes>, n: nat, i: nat)
    requires forall j :: 0 <= j < |rs| ==> |rs[j]| == n
    requires i <= |rs|
    ensures |Join(rs[..i])| == i * n
  {
    if i > 0 {
      JoinStep(rs, i - 1);
      JoinFixed(rs, n, i - 1);
      assert i * n == (i - 1) * n + n;
    } else {
      assert rs[..0] == [];
    }
  }

  /** Record `i` of a list of records of length `n` starts at `i * n`. */
  lemma FixedAt(rs: seq<Bytes>, n: nat, i: nat)
    requires forall j :: 0 <= j < |rs| ==> |rs[j]| == n
    requires i < |rs|
    ensures At(Join(rs), i * n, rs[i]) && |Join(rs)| == |rs| * n
  {
    JoinFixed(rs, n, i);
    JoinFixed(rs, n, |rs|);
    assert rs[..|rs|] == rs;
    JoinAt(rs, i, |rs|);
  }

  function WordRecords(ws: seq<nat>): (rs: seq<Bytes>)
    ensures |rs| == |ws| && forall j :: 0 <= j < |rs| ==> |rs[j]| == 4
  {
    seq(|ws|, i requires 0 <= i < |ws| => Le32(ws[i]))
  }

  /** Little-endian 32-bit words in a row. */
  function Words(ws: seq<nat>): Bytes {
    Join(WordRecords(ws))
  }

  predicate Fit32(ws: seq<nat>) {
    forall i :: 0 <= i < |ws| ==> ws[i] < U32
  }

  lemma AtInside(data: Bytes, o: nat, r: Bytes, p: nat, s: Bytes)
    requires At(data, o, r) && At(r, p, s)
    ensures At(data, o + p, s)
  {
    var x := data[o + p..o + p + |s|];
    forall k | 0 <= k < |s| ensures x[k] == s[k] {
      assert data[o..o + |r|][p + k] == r[p + k];
      assert r[p..p + |s|][k] == s[k];
    }
  }

  lemma WordsRead(data: Bytes, o: nat, ws: seq<nat>, i: nat)
    requires At(data, o, Words(ws)) && Fit32(ws) && i < |ws|
    ensures o + 4 * i + 4 <= |data| && U32At(data, o + 4 * i) == ws[i]
  {
    FixedAt(WordRecords(ws), 4, i);
    AtInside(data, o, Words(ws), 4 * i, Le32(ws[i]));
    Read32(data, o + 4 * i, ws[i]);
  }

  lemma WordsLength(ws: seq<nat>)
    ensures |Words(ws)| == 4 * |ws|
  {
    JoinFixed(WordRecords(ws), 4, |ws|);
    assert WordRecords(ws)[..|ws|] == WordRecords(ws);
  }

  // ---- extents ----

  predicate ExtentFits(e: Extent) {
    && e.block < U32 && e.len < U32 && e.start < U32 && e.comp < U16 && e.enc < 256 && e.reserved < 256
    && e.flags < U16 && e.reserved2 < U16 && e.meta < U32
  }

  function ExtentBytes(e: Extent): (r: Bytes)
    ensures |r| == 24
  {
    Le32(e.block) + Le32(e.len) + Le32(e.start) + Le16(e.comp) + [e.enc % 256, e.reserved % 256]
    + Le16(e.flags) + Le16(e.reserved2) + Le32(e.meta)
  }

  function ExtentAt(data: Bytes, o: nat): Extent
    requires o + 24 <= |data|
  {
    Extent(U32At(data, o), U32At(data, o + 4), U32At(data, o + 8), U16At(data, o + 12), data[o + 14], data[o + 15],
           U16At(data, o + 16), U16At(data, o + 18), U32At(data, o + 20))
  }

  lemma ExtentFront(data: Bytes, o: nat, e: Extent)
    requires At(data, o, Le32(e.block) + Le32(e.len) + Le32(e.start)) && ExtentFits(e)
    ensures U32At(data, o) == e.block && U32At(data, o + 4) == e.len && U32At(data, o + 8) == e.start
  {
    var a, b, c := Le32(e.block), Le32(e.len), Le32(e.start);
    AtSplit(data, o, a + b, c);
    AtSplit(data, o, a, b);
    Read32(data, o, e.block);
    Read32(data, o + 4, e.len);
    Read32(data, o + 8, e.start);
  }

  lemma ExtentBack(data: Bytes, o: nat, e: Extent)
    requires At(data, o, Le16(e.comp) + [e.enc % 256, e.reserved % 256] + Le16(e.flags) + Le16(e.reserved2) + Le32(e.meta)) && ExtentFits(e)
    ensures U16At(data, o) == e.comp && data[o + 2] == e.enc && data[o + 3] == e.reserved
    ensures U16At(data, o + 4) == e.flags && U16At(data, o + 6) == e.reserved2 && U32At(data, o + 8) == e.meta
  {
    var a, c, d, f := Le16(e.comp), Le16(e.flags), Le16(e.reserved2), Le32(e.meta);
    var b: Bytes := [e.enc % 256, e.reserved % 256];
    AtSplit(data, o, a + b + c + d, f);
    AtSplit(data, o, a + b + c, d);
    AtSplit(data, o, a + b, c);
    AtSplit(data, o, a, b);
    Read16(data, o, e.comp);
    AtByte(data, o + 2, b, 0);
    AtByte(data, o + 2, b, 1);
    Read16(data, o + 4, e.flags);
    Read16(data, o + 6, e.reserved2);
    Read32(data, o + 8, e.meta);
  }

  lemma ExtentReads(data: Bytes, o: nat, e: Extent)
    requires At(data, o, ExtentBytes(e)) && ExtentFits(e)
    ensures ExtentAt(data, o) == e
  {
    var a := Le32(e.block) + Le32(e.len) + Le32(e.start);
    var b := Le16(e.comp) + [e.enc % 256, e.reserved % 256] + Le16(e.flags) + Le16(e.reserved2) + Le32(e.meta);
    assert ExtentBytes(e) == a + b;
    AtSplit(data, o, a, b);
    ExtentFront(data, o, e);
    ExtentBack(data, o + 12, e);
  }

  // ---- extent lists ----

  /** Slot `i` of the list, the default extent past its end. */
  function SlotOr(exts: seq<Extent>, i: nat): Extent {
    if i < |exts| then exts[i] else EMPTY_EXTENT
  }

  function SlotRecords(exts: seq<Extent>, n: nat): (rs: seq<Bytes>)
    ensures |rs| == n && forall j :: 0 <= j < n ==> |rs[j]| == 24
  {
    seq(n, i requires 0 <= i < n => ExtentBytes(SlotOr(exts, i)))
  }

  /** 170 records. */
  function SlotBytes(exts: seq<Extent>): Bytes {
    Join(SlotRecords(exts, MAX_EXTENTS))
  }

  function SlotsAt(data: Bytes, o: nat): (exts: seq<Extent>)
    requires o + 4080 <= |data|
    ensures |exts| == MAX_EXTENTS
  {
    seq(MAX_EXTENTS, i requires 0 <= i < MAX_EXTENTS => ExtentAt(data, o + 24 * i))
  }

  lemma SlotReads(data: Bytes, o: nat, exts: seq<Extent>, i: nat)
    requires At(data, o, SlotBytes(exts)) && i < MAX_EXTENTS && ExtentFits(SlotOr(exts, i))
    ensures o + 24 * i + 24 <= o + 4080 <= |data| && ExtentAt(data, o + 24 * i) == SlotOr(exts, i)
  {
    var rs := SlotRecords(exts, MAX_EXTENTS);
    FixedAt(rs, 24, i);
    AtInside(data, o, Join(rs), 24 * i, rs[i]);
    ExtentReads(data, o + 24 * i, SlotOr(exts, i));
  }

  lemma SlotsRead(data: Bytes, o: nat, exts: seq<Extent>)
    requires At(data, o, SlotBytes(exts)) && forall i :: 0 <= i < |exts| ==> ExtentFits(exts[i])
    ensures o + 4080 <= |data|
    ensures SlotsAt(data, o) == seq(MAX_EXTENTS, i requires 0 <= i < MAX_EXTENTS => SlotOr(exts, i))
  {
    SlotBytesLength(exts);
    forall i | 0 <= i < MAX_EXTENTS ensures ExtentAt(data, o + 24 * i) == SlotOr(exts, i) {
      SlotReads(data, o, exts, i);
    }
  }

  lemma SlotBytesLength(exts: seq<Extent>)
    ensures |SlotBytes(exts)| == 4080
  {
    FixedAt(SlotRecords(exts, MAX_EXTENTS), 24, 0);
  }

  lemma JoinAppended(head: Bytes, rs: seq<Bytes>, i: nat)
    requires i < |rs|
    ensures head + Join(rs[..i]) + rs[i] == head + Join(rs[..i + 1])
  {
    JoinStep(rs, i);
  }

  /** The appending loops of `to_bytes`. */
  method AppendSlots(head: Bytes, exts: seq<Extent>) returns (data: Bytes)
    ensures data == head + SlotBytes(exts)
  {
    data := head;
    ghost var rs := SlotRecords(exts, MAX_EXTENTS);
    assert rs[..0] == [];
    for i := 0 to MAX_EXTENTS
      invariant data == head + Join(rs[..i])
    {
      JoinAppended(head, rs, i);
      data := data + ExtentBytes(SlotOr(exts, i));
    }
    assert rs[..MAX_EXTENTS] == rs;
  }

  /** The reading loops of `from_bytes`. */
  method ReadSlots(data: Bytes, o: nat) returns (exts: seq<Extent>)
    requires o + 4080 <= |data|
    ensures exts == SlotsAt(data, o)
  {
    exts := [];
    for i := 0 to MAX_EXTENTS
      invariant exts == SlotsAt(data, o)[..i]
    {
      exts := exts + [ExtentAt(data, o + 24 * i)];
    }
  }

  lemma BlockPrefix(data: Bytes)
    requires |data| <= BLOCK_SIZE
    ensures At(Block(data), 0, data)
  {
  }

  // ---- the extent index ----

  function IndexBytes(ix: ExtentIndex): Bytes {
    Block(Le32(ix.nrFiles) + SlotBytes(ix.extents))
  }

  function IndexOf(data: Bytes): ExtentIndex
    requires |data| == BLOCK_SIZE
  {
    ExtentIndex(U32At(data, 0), SlotsAt(data, 4))
  }

  predicate IndexFits(ix: ExtentIndex) {
    ix.nrFiles < U32 && forall i :: 0 <= i < |ix.extents| ==> ExtentFits(ix.extents[i])
  }

  /** Reading back an index gives its first 170 slots, padded with empty ones: itself exactly when it has 170. */
  lemma IndexRoundTrip(ix: ExtentIndex)
    requires IndexFits(ix)
    ensures IndexOf(IndexBytes(ix)) == ix <==> |ix.extents| == MAX_EXTENTS
  {
    var data := Le32(ix.nrFiles) + SlotBytes(ix.extents);
    SlotBytesLength(ix.extents);
    BlockPrefix(data);
    AtSplit(Block(data), 0, Le32(ix.nrFiles), SlotBytes(ix.extents));
    Read32(Block(data), 0, ix.nrFiles);
    SlotsRead(Block(data), 4, ix.extents);
  }

  method IndexToBytes(ix: ExtentIndex) returns (data: Bytes)
    ensures data == IndexBytes(ix)
  {
    data := AppendSlots(Le32(ix.nrFiles), ix.extents);
    data := Block(data);
  }

  method IndexFromBytes(data: Bytes) returns (ix: ExtentIndex)
    requires |data| == BLOCK_SIZE
    ensures ix == IndexOf(data)
  {
    var exts := ReadSlots(data, 4);
    ix := ExtentIndex(U32At(data, 0), exts);
  }
}
