/** Block mapping of files in the kernel module (src/file.c): `get_block` and the undo of its extents. */
module KernelFile {
  import opened Layout
  import opened Bits
  import opened Extents
  import opened Content
  import opened KernelAlloc
  import opened KernelExtent

  // ---- the index and the blocks it owns ----

  predicate Apart(a: Extent, b: Extent) {
    a.start + a.len <= b.start || b.start + b.len <= a.start
  }

  /** Slots after the used ones are zeroed. */
  predicate ZeroTail(exts: seq<Extent>) {
    forall j :: InUse(exts) <= j < |exts| ==> exts[j] == EMPTY_EXTENT
  }

  /** The ranges of a table are taken, and no block is in two of them. */
  predicate Owns(s: seq<bool>, tab: seq<Extent>) {
    && (forall j :: 0 <= j < |tab| ==> Taken(s, tab[j].start, tab[j].len))
    && (forall i, j :: 0 <= i < j < |tab| ==> Apart(tab[i], tab[j]))
  }

  /** A sound index: 170 slots, accepted by validation, zeroed past its end. */
  predicate IndexOk(exts: seq<Extent>) {
    |exts| == MAX_EXTENTS && Validated(exts) && ZeroTail(exts)
  }

  lemma InUseIs(exts: seq<Extent>, n: nat)
    requires n <= |exts| && (forall j :: 0 <= j < n ==> exts[j].start != 0) && (n < |exts| ==> exts[n].start == 0)
    ensures InUse(exts) == n
  {
  }

  lemma TableGrows(exts: seq<Extent>, e: Extent)
    requires ZeroTail(exts) && InUse(exts) < |exts| && e.start != 0
    ensures var exts' := exts[InUse(exts) := e];
      InUse(exts') == InUse(exts) + 1 && TableOf(exts') == TableOf(exts) + [e] && ZeroTail(exts')
  {
    var n := InUse(exts);
    var exts' := exts[n := e];
    InUseIs(exts', n + 1);
    assert exts'[..n + 1] == exts[..n] + [e];
  }

  /** Storing an extent in the first unused slot, where the table ends. */
  lemma IndexGrows(exts: seq<Extent>, e: Extent)
    requires IndexOk(exts) && InUse(exts) < MAX_EXTENTS
    requires e.start != 0 && LengthOk(e) && e.block == |Phys(TableOf(exts))|
    ensures var exts' := exts[InUse(exts) := e];
      IndexOk(exts') && TableOf(exts') == TableOf(exts) + [e]
  {
    TableGrows(exts, e);
    TilesAppend(TableOf(exts), e);
  }

  /** Zeroing every slot from `n` on. */
  function Cut(exts: seq<Extent>, n: nat): (r: seq<Extent>)
    ensures |r| == |exts|
    ensures forall j :: 0 <= j < |r| ==> r[j] == if j < n then exts[j] else EMPTY_EXTENT
  {
    seq(|exts|, j requires 0 <= j < |exts| => if j < n then exts[j] else EMPTY_EXTENT)
  }

  lemma IndexShrinks(exts: seq<Extent>, n: nat)
    requires IndexOk(exts) && n <= InUse(exts)
    ensures IndexOk(Cut(exts, n)) && TableOf(Cut(exts, n)) == TableOf(exts)[..n]
  {
    var c, tab := Cut(exts, n), TableOf(exts);
    InUseIs(c, n);
    assert c[..n] == tab[..n];
    forall j | 0 <= j < n ensures tab[..n][j].block == Offset(tab[..n], j) && tab[..n][j].len > 0 {
      assert tab[..n][..j] == tab[..j];
    }
  }

  // ---- get_block ----

  const MAX_IBLOCK: nat := 348160

  datatype Outcome = Mapped(bno: nat) | Hole | FileTooBig | OutOfSpace

  /** The shared state a file operation works on. */
  datatype FileState = FileState(bits: seq<bool>, free: nat, exts: seq<Extent>)

  predicate StateOk(f: FileState, size: nat) {
    && 0 < size <= |f.bits| && !f.bits[0]
    && f.free == Count(f.bits[..size])
    && IndexOk(f.exts) && Owns(f.bits[..size], TableOf(f.exts))
  }

  /** The size `calc_optimal_extent_size` picks: the schedule, at most the free count, at least 1. */
  function AllocSize(current: nat, maxLarge: nat, free: nat): (n: nat)
    ensures 1 <= n <= MAX_EXTENT_BLOCKS_LARGE
  {
    var n := Min(Scheduled(current, EffectiveMax(maxLarge)), free);
    if n == 0 then 1 else n
  }

  /** The extent that an allocation at `start` stores. */
  function NewExtent(tab: seq<Extent>, start: nat, len: nat): Extent {
    EMPTY_EXTENT.(start := start, len := len, block := |Phys(tab)|)
  }

  /** The table gained one extent, taken from the bitmap. */
  predicate Extended(f: FileState, f': FileState, size: nat, e: Extent) {
    && size <= |f.bits| && InUse(f.exts) < |f.exts|
    && f'.exts == f.exts[InUse(f.exts) := e]
    && Run(f.bits[..size], e.start, e.len)
    && f'.bits == SetRange(f.bits, e.start, e.len, false)
    && f'.free + e.len == f.free
  }

  lemma ExtendKeeps(f: FileState, f': FileState, size: nat, e: Extent)
    requires StateOk(f, size) && Extended(f, f', size, e) && LengthOk(e) && e.block == |Phys(TableOf(f.exts))|
    ensures StateOk(f', size) && TableOf(f'.exts) == TableOf(f.exts) + [e]
  {
    var tab := TableOf(f.exts);
    assert f.bits[..size][e.start];
    IndexGrows(f.exts, e);
    CountSetRange(f.bits[..size], e.start, e.len, false);
    assert f'.bits[..size] == SetRange(f.bits[..size], e.start, e.len, false);
    OwnsGrows(f.bits[..size], f'.bits[..size], tab, e);
  }

  lemma OwnsGrows(s: seq<bool>, s': seq<bool>, tab: seq<Extent>, e: Extent)
    requires Owns(s, tab) && Run(s, e.start, e.len) && e.len > 0 && s' == SetRange(s, e.start, e.len, false)
    requires forall j :: 0 <= j < |tab| ==> tab[j].len > 0
    ensures Owns(s', tab + [e])
  {
    forall j | 0 <= j < |tab| ensures Apart(tab[j], e) {
      assert s[e.start] && !s[tab[j].start];
    }
  }

  function Now(sbi: SbInfo, index: array<Extent>): FileState
    reads sbi, sbi.bfree, index
  {
    FileState(sbi.bfree[..], sbi.nrFreeBlocks, index[..])
  }

  /** What one call of `get_block` does. */
  ghost predicate GotBlock(f: FileState, f': FileState, size: nat, current: nat, maxLarge: nat, iblock: nat, create: bool, r: Outcome)
    requires StateOk(f, size)
  {
    var tab := TableOf(f.exts);
    var len := AllocSize(current, maxLarge, f.free);
    if iblock >= MAX_IBLOCK then r == FileTooBig && f' == f
    else if iblock < |Phys(tab)| then r == Mapped(Phys(tab)[iblock]) && f' == f
    else if |tab| == MAX_EXTENTS then r == FileTooBig && f' == f
    else if !create then r == Hole && f' == f
    else if !RunFrom(f.bits[..size], 0, len) then r == OutOfSpace && f' == f
    else
      && r.Mapped? && FirstFit(f.bits[..size], 0, r.bno, len)
      && Extended(f, f', size, NewExtent(tab, r.bno, len))
  }

  lemma GotKeeps(f: FileState, f': FileState, size: nat, current: nat, maxLarge: nat, iblock: nat, create: bool, r: Outcome)
    requires StateOk(f, size) && GotBlock(f, f', size, current, maxLarge, iblock, create, r)
    ensures StateOk(f', size)
    ensures TableOf(f.exts) <= TableOf(f'.exts)
  {
    if f' != f {
      ExtendKeeps(f, f', size, NewExtent(TableOf(f.exts), r.bno, AllocSize(current, maxLarge, f.free)));
    }
  }

  /** Whether a call that may allocate maps `iblock`. */
  ghost predicate CanMap(f: FileState, size: nat, current: nat, maxLarge: nat, iblock: nat)
    requires StateOk(f, size)
  {
    && iblock < MAX_IBLOCK
    && (|| iblock < |Phys(TableOf(f.exts))|
        || (|TableOf(f.exts)| < MAX_EXTENTS && RunFrom(f.bits[..size], 0, AllocSize(current, maxLarge, f.free))))
  }

  /** The state in which a call leaves the file: unchanged, or with one more extent. */
  ghost function After(f: FileState, size: nat, current: nat, maxLarge: nat, iblock: nat): (f': FileState)
    requires StateOk(f, size)
    ensures StateOk(f', size)
  {
    var tab, len := TableOf(f.exts), AllocSize(current, maxLarge, f.free);
    if iblock < |Phys(tab)| || !CanMap(f, size, current, maxLarge, iblock) then f
    else
      var b := FitAt(f.bits[..size], 0, len);
      var e := NewExtent(tab, b, len);
      FitCounted(f, size, b, len);
      var f' := FileState(SetRange(f.bits, b, len, false), f.free - len, f.exts[InUse(f.exts) := e]);
      ExtendKeeps(f, f', size, e);
      f'
  }

  lemma FitCounted(f: FileState, size: nat, b: nat, len: nat)
    requires StateOk(f, size) && Run(f.bits[..size], b, len)
    ensures len <= f.free
  {
    CountSetRange(f.bits[..size], b, len, false);
  }

  /** A call that may allocate maps the block exactly when it can, and leaves the one state it can leave. */
  lemma GotIsAfter(f: FileState, f': FileState, size: nat, current: nat, maxLarge: nat, iblock: nat, r: Outcome)
    requires StateOk(f, size) && GotBlock(f, f', size, current, maxLarge, iblock, true, r)
    ensures r.Mapped? <==> CanMap(f, size, current, maxLarge, iblock)
    ensures f' == After(f, size, current, maxLarge, iblock)
  {
    if f' != f {
      var len := AllocSize(current, maxLarge, f.free);
      FirstFitUnique(f.bits[..size], 0, r.bno, FitAt(f.bits[..size], 0, len), len);
    }
  }

  /** What the search found, in terms of the block map. */
  lemma SearchMeans(exts: seq<Extent>, k: nat)
    requires IndexOk(exts)
    ensures var tab := TableOf(exts); var j := Lookup(exts, k);
      if k < |Phys(tab)| then j < |tab| && tab[j].block <= k && Phys(tab)[k] == tab[j].start + (k - tab[j].block)
      else j == if |tab| < MAX_EXTENTS then |tab| else FULL
  {
    FindMapped(TableOf(exts), k);
  }

  /** Where `iblock` is, or where the next extent goes. */
  method Locate(index: array<Extent>, iblock: nat) returns (slot: nat, r: Outcome)
    requires index.Length == MAX_EXTENTS && IndexOk(index[..])
    ensures var tab := TableOf(index[..]);
      if iblock < |Phys(tab)| then r == Mapped(Phys(tab)[iblock])
      else if |tab| == MAX_EXTENTS then r == FileTooBig
      else r == Hole && slot == InUse(index[..]) < MAX_EXTENTS
  {
    SearchMeans(index[..], iblock);
    slot := ExtSearch(index, iblock);
    if slot == FULL {
      return slot, FileTooBig;
    }
    if index[slot].start != 0 {
      return slot, Mapped(index[slot].start + (iblock - index[slot].block));
    }
    return slot, Hole;
  }

  /** `lolelffs_file_get_block`. */
  method GetBlock(sbi: SbInfo, index: array<Extent>, current: nat, maxLarge: nat, iblock: nat, create: bool) returns (r: Outcome)
    requires sbi.Valid() && index.Length == MAX_EXTENTS && StateOk(Now(sbi, index), sbi.nrBlocks)
    modifies sbi`nrFreeBlocks, sbi.bfree, index
    ensures sbi.Valid() && StateOk(Now(sbi, index), sbi.nrBlocks)
    ensures old(StateOk(Now(sbi, index), sbi.nrBlocks)) &&
            GotBlock(old(Now(sbi, index)), Now(sbi, index), sbi.nrBlocks, current, maxLarge, iblock, create, r)
  {
    if iblock >= MAX_IBLOCK {
      return FileTooBig;
    }
    var slot;
    slot, r := Locate(index, iblock);
    if !r.Hole? || !create {
      return;
    }
    ghost var f := Now(sbi, index);
    var bno := AllocExtent(sbi, index, slot, AllocSize(current, maxLarge, sbi.nrFreeBlocks));
    r := if bno == 0 then OutOfSpace else Mapped(bno);
    ghost var f' := Now(sbi, index);
    GotKeeps(f, f', sbi.nrBlocks, current, maxLarge, iblock, create, r);
  }

  /** Allocate a run and record it as the next extent. */
  method AllocExtent(sbi: SbInfo, index: array<Extent>, extent: nat, size: nat) returns (bno: nat)
    requires sbi.Valid() && sbi.nrBlocks > 0 && !sbi.bfree[0] && size > 0
    requires index.Length == MAX_EXTENTS && IndexOk(index[..]) && extent == InUse(index[..]) < MAX_EXTENTS
    modifies sbi`nrFreeBlocks, sbi.bfree, index
    ensures sbi.Valid()
    ensures var f := old(Now(sbi, index)); var bits := f.bits[..sbi.nrBlocks];
      if bno == 0 then !RunFrom(bits, 0, size) && Now(sbi, index) == f
      else
        && RunFrom(bits, 0, size) && FirstFit(bits, 0, bno, size)
        && Extended(f, Now(sbi, index), sbi.nrBlocks, NewExtent(TableOf(f.exts), bno, size))
  {
    ghost var s := sbi.bfree[..];
    assert sbi.bfree[..sbi.nrBlocks] == s[..sbi.nrBlocks];
    bno := sbi.GetFreeBlocks(size);
    AllocatedCount(s, sbi.nrBlocks, size, bno, sbi.bfree[..]);
    assert sbi.bfree[..][..sbi.nrBlocks] == sbi.bfree[..sbi.nrBlocks];
    if bno != 0 {
      StoreExtent(index, extent, bno, size);
    }
  }

  /** Record a new extent in the first unused slot. */
  method StoreExtent(index: array<Extent>, extent: nat, bno: nat, size: nat)
    requires index.Length == MAX_EXTENTS && IndexOk(index[..]) && extent == InUse(index[..]) < MAX_EXTENTS
    modifies index
    ensures index[..] == old(index[..])[extent := NewExtent(TableOf(old(index[..])), bno, size)]
  {
    ghost var tab := TableOf(index[..]);
    OffsetEnds(tab);
    var block := 0;
    if extent > 0 {
      OffsetStep(tab, extent - 1);
      assert tab[extent - 1] == index[extent - 1];
      block := index[extent - 1].block + index[extent - 1].len;
    }
    assert index[extent] == EMPTY_EXTENT;
    index[extent] := index[extent].(start := bno, len := size, block := block);
  }

  /** A newly mapped block is where a later search finds it exactly when the write appends. */
  lemma MapsWhereFoundIffAppend(f: FileState, f': FileState, size: nat, current: nat, maxLarge: nat, iblock: nat, r: Outcome)
    requires StateOk(f, size) && GotBlock(f, f', size, current, maxLarge, iblock, true, r) && f' != f
    ensures var m' := Phys(TableOf(f'.exts));
      iblock < |m'| && m'[iblock] == r.bno <==> iblock == |Phys(TableOf(f.exts))|
  {
    var tab, len := TableOf(f.exts), AllocSize(current, maxLarge, f.free);
    var e := NewExtent(tab, r.bno, len);
    ExtendKeeps(f, f', size, e);
    TilesAppend(tab, e);
  }

  /** A concrete gap: in an empty file on a device of eight blocks, block 5 is mapped to where block 0 is found. */
  lemma GapIsMisplaced() returns (f: FileState, f': FileState)
    ensures StateOk(f, 8) && GotBlock(f, f', 8, 1, 0, 5, true, Mapped(1))
    ensures Phys(TableOf(f'.exts)) == [1, 2]
  {
    var bits := [false, true, true, true, true, true, true, true];
    var exts := seq(MAX_EXTENTS, _ => EMPTY_EXTENT);
    f := FileState(bits, 7, exts);
    InUseIs(exts, 0);
    assert bits[..8] == bits;
    CountWindow(bits, 1, 8);
    assert StateOk(f, 8);
    var e := NewExtent([], 1, 2);
    assert Run(bits, 1, 2) && !bits[0];
    assert !Run(bits, 0, 2);
    f' := FileState(SetRange(bits, 1, 2, false), 5, exts[0 := e]);
    ExtendKeeps(f, f', 8, e);
    assert TableOf(f'.exts) == [e];
    TilesAppend([], e);
    assert [] + [e] == [e];
    assert Range(1, 2) == [1, 2];
  }
}
