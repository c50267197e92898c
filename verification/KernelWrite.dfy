/** `write_begin` and the trimming after a shrinking write (src/file.c). */
module KernelWrite {
  import opened Layout
  import opened Bits
  import opened Extents
  import opened Content
  import opened KernelAlloc
  import opened KernelExtent
  import opened KernelFile

  predicate Covers(es: seq<Extent>, b: nat) {
    exists j :: 0 <= j < |es| && es[j].start <= b < es[j].start + es[j].len
  }

  /** The bitmap with every block of some extents given back. */
  function Freed(s: seq<bool>, es: seq<Extent>): (r: seq<bool>)
    ensures |r| == |s|
    ensures forall b {:trigger r[b]} :: 0 <= b < |s| ==> r[b] == (s[b] || Covers(es, b))
  {
    seq(|s|, b requires 0 <= b < |s| => s[b] || Covers(es, b))
  }

  lemma FreedStep(s: seq<bool>, es: seq<Extent>, e: Extent)
    ensures Freed(s, es + [e]) == SetRange(Freed(s, es), e.start, e.len, true)
  {
    forall b: nat ensures Covers(es + [e], b) <==> Covers(es, b) || e.start <= b < e.start + e.len {
      if Covers(es, b) {
        var j :| 0 <= j < |es| && es[j].start <= b < es[j].start + es[j].len;
        assert (es + [e])[j] == es[j];
      }
      assert (es + [e])[|es|] == e;
    }
  }

  lemma FreedNext(s: seq<bool>, tab: seq<Extent>, from: nat, i: nat)
    requires from <= i < |tab|
    ensures Freed(s, tab[from..i + 1]) == SetRange(Freed(s, tab[from..i]), tab[i].start, tab[i].len, true)
  {
    FreedStep(s, tab[from..i], tab[i]);
    assert tab[from..i] + [tab[i]] == tab[from..i + 1];
  }

  /** The next extent is still taken after the ones before it are freed. */
  lemma StillTaken(s: seq<bool>, size: nat, tab: seq<Extent>, from: nat, i: nat)
    requires size <= |s| && Owns(s[..size], tab) && from <= i < |tab|
    ensures Taken(Freed(s, tab[from..i])[..size], tab[i].start, tab[i].len)
  {
    var es, e := tab[from..i], tab[i];
    forall b | e.start <= b < e.start + e.len ensures !Freed(s, es)[..size][b] {
      assert !s[..size][b];
      forall j | 0 <= j < |es| ensures !(es[j].start <= b < es[j].start + es[j].len) {
        assert es[j] == tab[from + j] && Apart(tab[from + j], e);
      }
    }
  }

  /** Slots [from, i) zeroed. */
  function Wiped(exts: seq<Extent>, from: nat, i: nat): (r: seq<Extent>)
    ensures |r| == |exts|
    ensures forall j :: 0 <= j < |r| ==> r[j] == if from <= j < i then EMPTY_EXTENT else exts[j]
  {
    seq(|exts|, j requires 0 <= j < |exts| => if from <= j < i then EMPTY_EXTENT else exts[j])
  }

  /** Extents [from, i) of the starting state are freed and zeroed. */
  ghost predicate Reclaimed(sbi: SbInfo, index: array<Extent>, s: seq<bool>, exts: seq<Extent>, from: nat, i: nat)
    requires from <= i <= InUse(exts)
    reads sbi, sbi.bfree, sbi.ifree, index
  {
    && sbi.Valid() && index[..] == Wiped(exts, from, i) && sbi.bfree[..] == Freed(s, TableOf(exts)[from..i])
  }

  /** One turn of the loop. */
  method FreeSlot(sbi: SbInfo, index: array<Extent>, ghost from: nat, i: nat, ghost s: seq<bool>, ghost exts: seq<Extent>)
    requires index.Length == |exts| == MAX_EXTENTS && from <= i < InUse(exts) && exts[i].len > 0
    requires Reclaimed(sbi, index, s, exts, from, i)
    requires sbi.nrBlocks <= |s| && Owns(s[..sbi.nrBlocks], TableOf(exts))
    modifies sbi`nrFreeBlocks, sbi.bfree, index
    ensures Reclaimed(sbi, index, s, exts, from, i + 1)
  {
    ghost var tab := TableOf(exts);
    assert index[i] == exts[i] == tab[i];
    StillTaken(s, sbi.nrBlocks, tab, from, i);
    FreedNext(s, tab, from, i);
    assert sbi.bfree[..][..sbi.nrBlocks] == sbi.bfree[..sbi.nrBlocks];
    sbi.PutBlocks(index[i].start, index[i].len);
    index[i] := EMPTY_EXTENT;
    assert index[..] == Wiped(exts, from, i + 1);
  }

  /** The loop that both callers share: free and zero every extent from slot `from` on. */
  method Reclaim(sbi: SbInfo, index: array<Extent>, from: nat)
    requires sbi.Valid() && index.Length == MAX_EXTENTS && StateOk(Now(sbi, index), sbi.nrBlocks)
    requires from <= InUse(index[..])
    modifies sbi`nrFreeBlocks, sbi.bfree, index
    ensures sbi.Valid()
    ensures index[..] == Cut(old(index[..]), from)
    ensures sbi.bfree[..] == Freed(old(sbi.bfree[..]), TableOf(old(index[..]))[from..])
  {
    ghost var s, exts := sbi.bfree[..], index[..];
    ghost var tab := TableOf(exts);
    assert Freed(s, []) == s && Wiped(exts, from, from) == exts;
    var i := from;
    while i < MAX_EXTENTS && index[i].start != 0
      invariant from <= i <= |tab| && Reclaimed(sbi, index, s, exts, from, i)
    {
      assert index[i] == exts[i] == tab[i];
      FreeSlot(sbi, index, from, i, s, exts);
      i := i + 1;
    }
    assert i == |tab|;
    assert Wiped(exts, from, |tab|) == Cut(exts, from);
    assert tab[from..i] == tab[from..];
  }

  // ---- undoing a failed write ----

  /** Since `f0` the file only gained extents, all of them free before. */
  ghost predicate Grew(f0: FileState, f: FileState, size: nat) {
    && |f.bits| == |f0.bits| && size <= |f0.bits| && |f.exts| == |f0.exts|
    && TableOf(f0.exts) <= TableOf(f.exts)
    && var news := TableOf(f.exts)[|TableOf(f0.exts)|..];
       && (forall b {:trigger f.bits[b]} :: 0 <= b < |f.bits| ==> f.bits[b] == (f0.bits[b] && !Covers(news, b)))
       && (forall b: nat :: Covers(news, b) ==> b < size && f0.bits[b])
  }

  lemma GrewRefl(f: FileState, size: nat)
    requires size <= |f.bits|
    ensures Grew(f, f, size)
  {
    var tab := TableOf(f.exts);
    assert tab[|tab|..] == [];
  }

  lemma CoversAppend(es: seq<Extent>, e: Extent, b: nat)
    ensures Covers(es + [e], b) <==> Covers(es, b) || e.start <= b < e.start + e.len
  {
    if Covers(es, b) {
      var j :| 0 <= j < |es| && es[j].start <= b < es[j].start + es[j].len;
      assert (es + [e])[j] == es[j];
    }
    assert (es + [e])[|es|] == e;
  }

  lemma GrewStep(f0: FileState, f: FileState, f': FileState, size: nat, e: Extent)
    requires Grew(f0, f, size) && StateOk(f, size) && Extended(f, f', size, e)
    requires TableOf(f'.exts) == TableOf(f.exts) + [e]
    ensures Grew(f0, f', size)
  {
    var n := |TableOf(f0.exts)|;
    var news, news' := TableOf(f.exts)[n..], TableOf(f'.exts)[n..];
    assert news' == news + [e];
    forall b: nat ensures Covers(news', b) <==> Covers(news, b) || e.start <= b < e.start + e.len {
      CoversAppend(news, e, b);
    }
    forall b: nat | Covers(news', b) ensures b < size && f0.bits[b] {
      if !Covers(news, b) {
        assert f.bits[..size][b];
      }
    }
  }

  lemma GotGrows(f0: FileState, f: FileState, f': FileState, size: nat, current: nat, maxLarge: nat, iblock: nat, r: Outcome)
    requires Grew(f0, f, size) && StateOk(f, size) && GotBlock(f, f', size, current, maxLarge, iblock, true, r)
    ensures Grew(f0, f', size)
  {
    if f' != f {
      var e := NewExtent(TableOf(f.exts), r.bno, AllocSize(current, maxLarge, f.free));
      ExtendKeeps(f, f', size, e);
      GrewStep(f0, f, f', size, e);
    }
  }

  /** Reclaiming everything gained since `f0` gives exactly `f0` back. */
  lemma ReclaimRestores(f0: FileState, f: FileState, size: nat)
    requires StateOk(f0, size) && StateOk(f, size) && Grew(f0, f, size)
    ensures var n := |TableOf(f0.exts)|;
      Cut(f.exts, n) == f0.exts && Freed(f.bits, TableOf(f.exts)[n..]) == f0.bits
  {
    var n := |TableOf(f0.exts)|;
    forall j | 0 <= j < n ensures f.exts[j] == f0.exts[j] {
      assert TableOf(f.exts)[j] == TableOf(f0.exts)[j];
    }
    assert Cut(f.exts, n) == f0.exts;
  }

  /** Every block of the write can be mapped, each in the state that the ones before it leave. */
  ghost predicate MapsAll(f: FileState, size: nat, current: nat, maxLarge: nat, blocks: seq<nat>)
    requires StateOk(f, size)
    decreases |blocks|
  {
    blocks == [] ||
    (&& CanMap(f, size, current, maxLarge, blocks[0])
     && MapsAll(After(f, size, current, maxLarge, blocks[0]), size, current, maxLarge, blocks[1..]))
  }

  const MAX_FILESIZE: nat := 524288 * 4096 * 170

  /** The blocks a write asks for beyond those the inode counts. */
  function Wanted(end: nat, iSize: nat, iBlocks: nat): nat {
    var n := (if end > iSize then end else iSize) / BLOCK_SIZE;
    if iBlocks > 0 && n > iBlocks - 1 then n - (iBlocks - 1) else 0
  }

  /** The tests before anything is allocated. */
  predicate Refused(end: nat, iSize: nat, iBlocks: nat, free: nat) {
    end > MAX_FILESIZE || Wanted(end, iSize, iBlocks) > free
  }

  /** Each block is in the mapped range, just past it, or follows one asked for before. */
  predicate Gapless(blocks: seq<nat>, mapped: nat) {
    forall i :: 0 <= i < |blocks| ==> blocks[i] <= mapped || exists j :: 0 <= j < i && blocks[j] + 1 == blocks[i]
  }

  /** All of `blocks` are in the block map. */
  predicate AllMapped(f: FileState, blocks: seq<nat>) {
    forall i :: 0 <= i < |blocks| ==> blocks[i] < |Phys(TableOf(f.exts))|
  }

  lemma GrewMaps(f0: FileState, f: FileState, size: nat)
    requires Grew(f0, f, size)
    ensures |Phys(TableOf(f0.exts))| <= |Phys(TableOf(f.exts))|
  {
    PhysPrefix(TableOf(f.exts), |TableOf(f0.exts)|);
    assert TableOf(f.exts)[..|TableOf(f0.exts)|] == TableOf(f0.exts);
  }

  /**
   * `lolelffs_write_begin` for a write up to byte `end`, for which the page cache asks for `blocks`;
   * `prepared` is false when the page cache gives up after them. When anything fails, the extents
   * gained so far are reclaimed, and bitmap, counter and index are exactly what they were. When it
   * succeeds without leaving a gap, every block asked for is mapped.
   */
  method WriteBegin(sbi: SbInfo, index: array<Extent>, end: nat, iSize: nat, current: nat, maxLarge: nat, blocks: seq<nat>, prepared: bool)
    returns (ok: bool)
    requires sbi.Valid() && index.Length == MAX_EXTENTS && StateOk(Now(sbi, index), sbi.nrBlocks)
    modifies sbi`nrFreeBlocks, sbi.bfree, index
    ensures sbi.Valid() && StateOk(Now(sbi, index), sbi.nrBlocks)
    ensures !ok ==> Now(sbi, index) == old(Now(sbi, index))
    ensures ok <==>
      && !Refused(end, iSize, current, old(sbi.nrFreeBlocks)) && prepared
      && old(MapsAll(Now(sbi, index), sbi.nrBlocks, current, maxLarge, blocks))
    ensures ok ==> Grew(old(Now(sbi, index)), Now(sbi, index), sbi.nrBlocks)
    ensures ok && Gapless(blocks, |Phys(TableOf(old(index[..])))|) ==> AllMapped(Now(sbi, index), blocks)
  {
    if end > MAX_FILESIZE || Wanted(end, iSize, current) > sbi.nrFreeBlocks {
      return false;
    }
    ghost var f0 := Now(sbi, index);
    var before := CountExtents(index);
    GrewRefl(f0, sbi.nrBlocks);
    ok := MapBlocks(sbi, index, current, maxLarge, blocks, f0);
    ok := ok && prepared;
    if !ok {
      Undo(sbi, index, before, f0);
    }
  }

  /** `block_write_begin`: get a block for every block asked for, until one cannot be had. */
  method MapBlocks(sbi: SbInfo, index: array<Extent>, current: nat, maxLarge: nat, blocks: seq<nat>, ghost f0: FileState) returns (ok: bool)
    requires sbi.Valid() && index.Length == MAX_EXTENTS && StateOk(Now(sbi, index), sbi.nrBlocks)
    requires f0 == Now(sbi, index) && Grew(f0, f0, sbi.nrBlocks)
    modifies sbi`nrFreeBlocks, sbi.bfree, index
    ensures sbi.Valid() && StateOk(Now(sbi, index), sbi.nrBlocks) && Grew(f0, Now(sbi, index), sbi.nrBlocks)
    ensures ok <==> MapsAll(f0, sbi.nrBlocks, current, maxLarge, blocks)
    ensures ok && Gapless(blocks, |Phys(TableOf(f0.exts))|) ==> AllMapped(Now(sbi, index), blocks)
  {
    ghost var mapped := |Phys(TableOf(f0.exts))|;
    assert blocks[0..] == blocks;
    for i := 0 to |blocks|
      invariant sbi.Valid() && StateOk(Now(sbi, index), sbi.nrBlocks) && Grew(f0, Now(sbi, index), sbi.nrBlocks)
      invariant Progress(Now(sbi, index), blocks, mapped, i)
      invariant MapsAll(f0, sbi.nrBlocks, current, maxLarge, blocks)
           <==> MapsAll(Now(sbi, index), sbi.nrBlocks, current, maxLarge, blocks[i..])
    {
      ghost var f := Now(sbi, index);
      GrewMaps(f0, f, sbi.nrBlocks);
      MapsNext(f, sbi.nrBlocks, current, maxLarge, blocks, i);
      ok := MapOne(sbi, index, current, maxLarge, blocks[i], f0);
      if !ok {
        return;
      }
      ProgressStep(f, Now(sbi, index), blocks, mapped, i);
    }
    assert blocks[..|blocks|] == blocks && blocks[|blocks|..] == [];
    return true;
  }

  /** The first `i` blocks of a write without gaps are mapped. */
  predicate Progress(f: FileState, blocks: seq<nat>, mapped: nat, i: nat)
    requires i <= |blocks|
  {
    Gapless(blocks, mapped) ==> AllMapped(f, blocks[..i])
  }

  lemma MapsNext(f: FileState, size: nat, current: nat, maxLarge: nat, blocks: seq<nat>, i: nat)
    requires StateOk(f, size) && i < |blocks|
    ensures MapsAll(f, size, current, maxLarge, blocks[i..]) <==>
      && CanMap(f, size, current, maxLarge, blocks[i])
      && MapsAll(After(f, size, current, maxLarge, blocks[i]), size, current, maxLarge, blocks[i + 1..])
  {
    assert blocks[i..][1..] == blocks[i + 1..];
  }

  lemma ProgressStep(f: FileState, f': FileState, blocks: seq<nat>, mapped: nat, i: nat)
    requires i < |blocks| && Progress(f, blocks, mapped, i) && mapped <= |Phys(TableOf(f.exts))| <= |Phys(TableOf(f'.exts))|
    requires blocks[i] <= |Phys(TableOf(f.exts))| ==> blocks[i] < |Phys(TableOf(f'.exts))|
    ensures Progress(f', blocks, mapped, i + 1)
  {
    NextIsNear(f, blocks, mapped, i);
    assert forall j :: 0 <= j < i ==> blocks[..i][j] == blocks[..i + 1][j];
  }

  /** Without gaps the next block asked for is at most the first past the mapped range. */
  lemma NextIsNear(f: FileState, blocks: seq<nat>, mapped: nat, i: nat)
    requires i < |blocks| && mapped <= |Phys(TableOf(f.exts))|
    ensures Gapless(blocks, mapped) && AllMapped(f, blocks[..i]) ==> blocks[i] <= |Phys(TableOf(f.exts))|
  {
    if Gapless(blocks, mapped) && AllMapped(f, blocks[..i]) && blocks[i] > mapped {
      var j :| 0 <= j < i && blocks[j] + 1 == blocks[i];
      assert blocks[..i][j] == blocks[j];
    }
  }

  /** A block that could be mapped is in the map afterwards, if it was not beyond the first free place. */
  lemma GotMaps(f: FileState, f': FileState, size: nat, current: nat, maxLarge: nat, iblock: nat, r: Outcome)
    requires StateOk(f, size) && GotBlock(f, f', size, current, maxLarge, iblock, true, r)
    ensures |Phys(TableOf(f.exts))| <= |Phys(TableOf(f'.exts))|
    ensures r.Mapped? && iblock <= |Phys(TableOf(f.exts))| ==> iblock < |Phys(TableOf(f'.exts))|
  {
    if f' != f {
      var tab := TableOf(f.exts);
      var e := NewExtent(tab, r.bno, AllocSize(current, maxLarge, f.free));
      ExtendKeeps(f, f', size, e);
      TilesAppend(tab, e);
    }
  }

  method MapOne(sbi: SbInfo, index: array<Extent>, current: nat, maxLarge: nat, iblock: nat, ghost f0: FileState) returns (ok: bool)
    requires sbi.Valid() && index.Length == MAX_EXTENTS && StateOk(Now(sbi, index), sbi.nrBlocks)
    requires Grew(f0, Now(sbi, index), sbi.nrBlocks)
    modifies sbi`nrFreeBlocks, sbi.bfree, index
    ensures sbi.Valid() && StateOk(Now(sbi, index), sbi.nrBlocks) && Grew(f0, Now(sbi, index), sbi.nrBlocks)
    ensures ok <==> old(CanMap(Now(sbi, index), sbi.nrBlocks, current, maxLarge, iblock))
    ensures Now(sbi, index) == old(After(Now(sbi, index), sbi.nrBlocks, current, maxLarge, iblock))
    ensures |Phys(TableOf(old(index[..])))| <= |Phys(TableOf(index[..]))|
    ensures ok && iblock <= |Phys(TableOf(old(index[..])))| ==> iblock < |Phys(TableOf(index[..]))|
  {
    ghost var f := Now(sbi, index);
    var r := GetBlock(sbi, index, current, maxLarge, iblock, true);
    ghost var f' := Now(sbi, index);
    GotGrows(f0, f, f', sbi.nrBlocks, current, maxLarge, iblock, r);
    GotMaps(f, f', sbi.nrBlocks, current, maxLarge, iblock, r);
    GotIsAfter(f, f', sbi.nrBlocks, current, maxLarge, iblock, r);
    return r.Mapped?;
  }

  method Undo(sbi: SbInfo, index: array<Extent>, before: nat, ghost f0: FileState)
    requires sbi.Valid() && index.Length == MAX_EXTENTS && StateOk(Now(sbi, index), sbi.nrBlocks)
    requires StateOk(f0, sbi.nrBlocks) && Grew(f0, Now(sbi, index), sbi.nrBlocks) && before == InUse(f0.exts)
    modifies sbi`nrFreeBlocks, sbi.bfree, index
    ensures sbi.Valid() && Now(sbi, index) == f0
  {
    ReclaimRestores(f0, Now(sbi, index), sbi.nrBlocks);
    Reclaim(sbi, index, before);
    assert sbi.bfree[..][..sbi.nrBlocks] == sbi.bfree[..sbi.nrBlocks];
  }

  // ---- trimming ----

  /** Extents that begin at or after logical block `k`, as the first of their slots. */
  function KeepCount(tab: seq<Extent>, k: nat): nat {
    var j := Find(tab, k);
    if j == |tab| then |tab| else if tab[j].block == k then j else j + 1
  }

  /** Exactly the extents that begin below `k` are kept, and with them every block below `k`. */
  lemma KeptBlocks(tab: seq<Extent>, k: nat)
    requires Tiles(tab)
    ensures var c := KeepCount(tab, k); var m, m' := Phys(tab), Phys(tab[..c]);
      && c <= |tab|
      && (forall j :: 0 <= j < |tab| ==> (j < c <==> tab[j].block < k))
      && m' <= m && (k <= |m'| || c == |tab|)
  {
    var c, j := KeepCount(tab, k), Find(tab, k);
    PhysPrefix(tab, c);
    if j < |tab| {
      forall i | 0 <= i < |tab| ensures i < c <==> tab[i].block < k {
        if i < j { TilesOrdered(tab, i, j); }
        if j < i { TilesOrdered(tab, j, i); }
      }
      OffsetStep(tab, j);
    } else {
      FindMapped(tab, k);
      forall i | 0 <= i < |tab| ensures tab[i].block < k {
        MappedEnd(tab, i);
      }
    }
  }

  lemma MappedEnd(tab: seq<Extent>, i: nat)
    requires Tiles(tab) && i < |tab|
    ensures tab[i].block + tab[i].len <= |Phys(tab)|
  {
    OffsetStep(tab, i);
    PhysPrefix(tab, i + 1);
  }

  lemma OwnsPrefix(s: seq<bool>, size: nat, tab: seq<Extent>, c: nat)
    requires size <= |s| && Owns(s[..size], tab) && c <= |tab|
    ensures Owns(Freed(s, tab[c..])[..size], tab[..c])
  {
    var s' := Freed(s, tab[c..]);
    forall j | 0 <= j < c ensures Taken(s'[..size], tab[j].start, tab[j].len) {
      forall b | tab[j].start <= b < tab[j].start + tab[j].len ensures !s'[..size][b] {
        assert !s[..size][b];
        forall i | 0 <= i < |tab[c..]| ensures !(tab[c..][i].start <= b < tab[c..][i].start + tab[c..][i].len) {
          assert Apart(tab[j], tab[c + i]);
        }
      }
    }
  }

  lemma BootBlockKept(s: seq<bool>, size: nat, tab: seq<Extent>, c: nat)
    requires 0 < size <= |s| && !s[0] && c <= |tab| && forall j :: 0 <= j < |tab| ==> tab[j].start != 0
    ensures !Freed(s, tab[c..])[0]
  {
    forall i | 0 <= i < |tab[c..]| ensures !(tab[c..][i].start <= 0) { assert tab[c..][i] == tab[c + i]; }
  }

  /** State after the extents from slot `c` on are reclaimed. */
  lemma TrimKeeps(f: FileState, f': FileState, size: nat, c: nat)
    requires StateOk(f, size) && c <= InUse(f.exts)
    requires f'.exts == Cut(f.exts, c) && f'.bits == Freed(f.bits, TableOf(f.exts)[c..])
    requires f'.free == Count(f'.bits[..size])
    ensures StateOk(f', size) && TableOf(f'.exts) == TableOf(f.exts)[..c]
  {
    IndexShrinks(f.exts, c);
    OwnsPrefix(f.bits, size, TableOf(f.exts), c);
    BootBlockKept(f.bits, size, TableOf(f.exts), c);
  }

  /** The first slot to free: the one `KeepCount` names, or one past the table. */
  method FirstToFree(index: array<Extent>, k: nat) returns (first: nat)
    requires index.Length == MAX_EXTENTS && IndexOk(index[..]) && k > 0 && KernelExtent.Lookup(index[..], k) != FULL
    ensures var tab := TableOf(index[..]);
      if KeepCount(tab, k) < |tab| then first == KeepCount(tab, k) else first >= |tab| == KeepCount(tab, k)
  {
    ghost var tab := TableOf(index[..]);
    first := ExtSearch(index, k);
    assert first < |tab| ==> index[first] == tab[first];
    assert first >= |tab| ==> first == |tab| && index[first] == EMPTY_EXTENT;
    if k != index[first].block {
      first := first + 1;
    }
  }

  /**
   * The trim of `lolelffs_write_end` for a new size: every block below the end of the file keeps its
   * place, exactly the extents that begin past the reserved block are given back, and the index stays
   * valid.
   */
  method Trim(sbi: SbInfo, index: array<Extent>, iSize: nat)
    requires sbi.Valid() && index.Length == MAX_EXTENTS && StateOk(Now(sbi, index), sbi.nrBlocks)
    requires KernelExtent.Lookup(index[..], iSize / BLOCK_SIZE + 1) != FULL
    modifies sbi`nrFreeBlocks, sbi.bfree, index
    ensures sbi.Valid() && StateOk(Now(sbi, index), sbi.nrBlocks)
    ensures var tab := TableOf(old(index[..])); var c := KeepCount(tab, iSize / BLOCK_SIZE + 1);
      && c <= |tab| && TableOf(index[..]) == tab[..c]
      && sbi.bfree[..] == Freed(old(sbi.bfree[..]), tab[c..])
  {
    ghost var f := Now(sbi, index);
    ghost var tab := TableOf(f.exts);
    var iBlocks := iSize / BLOCK_SIZE + 2;
    ghost var c := KeepCount(tab, iBlocks - 1);
    var first := FirstToFree(index, iBlocks - 1);
    if first < MAX_EXTENTS && index[first].start != 0 {
      assert index[first] == f.exts[first];
      Reclaim(sbi, index, first);
    } else {
      NothingToFree(f.bits, f.exts);
    }
    ghost var f' := Now(sbi, index);
    assert f'.bits[..sbi.nrBlocks] == sbi.bfree[..sbi.nrBlocks];
    TrimKeeps(f, f', sbi.nrBlocks, c);
  }

  lemma NothingToFree(s: seq<bool>, exts: seq<Extent>)
    requires ZeroTail(exts)
    ensures Freed(s, TableOf(exts)[InUse(exts)..]) == s && Cut(exts, InUse(exts)) == exts
  {
    assert TableOf(exts)[InUse(exts)..] == [];
  }

  /** After the trim every block of the file still maps to the same place. */
  lemma TrimKeepsContent(tab: seq<Extent>, iSize: nat, k: nat)
    requires Tiles(tab) && k < NumBlocks(iSize) && k < |Phys(tab)|
    ensures var m' := Phys(tab[..KeepCount(tab, iSize / BLOCK_SIZE + 1)]); k < |m'| && m'[k] == Phys(tab)[k]
  {
    var c := KeepCount(tab, iSize / BLOCK_SIZE + 1);
    KeptBlocks(tab, iSize / BLOCK_SIZE + 1);
    assert c == |tab| ==> tab[..c] == tab;
  }
}
