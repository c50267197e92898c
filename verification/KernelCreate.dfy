/** Creating a regular file or directory in the kernel module (src/inode.c): allocations and their undo paths. */
module KernelCreate {
  import opened Layout
  import opened Bits
  import opened KernelAlloc

  const MAX_SUBFILES: nat := 5222400
  const FILES_PER_EXTENT: nat := 30720
  const DIR_EXTENT: nat := 8

  datatype Outcome = Created(ino: nat, block: nat) | LongName | TooManyLinks | NoRoom | Unreadable

  /** Both bitmaps, both counters and the parent's index. */
  datatype State = State(ifree: seq<bool>, bfree: seq<bool>, freeInodes: nat, freeBlocks: nat, exts: seq<Extent>)

  function Now(sbi: SbInfo, index: array<Extent>): State
    reads sbi, sbi.ifree, sbi.bfree, index
  {
    State(sbi.ifree[..], sbi.bfree[..], sbi.nrFreeInodes, sbi.nrFreeBlocks, index[..])
  }

  /** Taking a run and giving it back is no change. */
  lemma TakeThenGive(s: seq<bool>, size: nat, r: nat, len: nat)
    requires size <= |s| && Run(s[..size], r, len)
    ensures SetRange(SetRange(s, r, len, false), r, len, true) == s
    ensures Taken(SetRange(s, r, len, false)[..size], r, len)
  {
    forall b | r <= b < r + len ensures s[b] { assert s[..size][b]; }
  }

  ghost predicate Ready(sbi: SbInfo)
    reads sbi, sbi.ifree, sbi.bfree
  {
    sbi.Valid() && 0 < sbi.nrInodes && 0 < sbi.nrBlocks && !sbi.ifree[0] && !sbi.bfree[0]
  }

  /** An inode and an index block, each the first free one. */
  ghost predicate TookBoth(s: State, s': State, nrInodes: nat, nrBlocks: nat, ino: nat, b: nat) {
    && nrInodes <= |s.ifree| && nrBlocks <= |s.bfree|
    && 0 < ino && FirstFit(s.ifree[..nrInodes], 0, ino, 1) && s'.ifree == SetRange(s.ifree, ino, 1, false)
    && 0 < b && FirstFit(s.bfree[..nrBlocks], 0, b, 1) && s'.bfree == SetRange(s.bfree, b, 1, false)
    && s'.exts == s.exts
  }

  /**
   * `lolelffs_new_inode` for a file or directory. The counters are tested first, so the two
   * allocations that follow cannot fail; a failure leaves both bitmaps and counters as they were.
   */
  method NewInode(sbi: SbInfo, index: array<Extent>) returns (r: Option<(nat, nat)>)
    requires Ready(sbi)
    modifies sbi`nrFreeInodes, sbi`nrFreeBlocks, sbi.ifree, sbi.bfree
    ensures Ready(sbi)
    ensures r.None? ==> Now(sbi, index) == old(Now(sbi, index))
    ensures r.None? <==> old(sbi.nrFreeInodes) == 0 || old(sbi.nrFreeBlocks) == 0
    ensures r.Some? ==> TookBoth(old(Now(sbi, index)), Now(sbi, index), sbi.nrInodes, sbi.nrBlocks, r.value.0, r.value.1)
  {
    if sbi.nrFreeInodes == 0 || sbi.nrFreeBlocks == 0 {
      return None;
    }
    ghost var si, sb := sbi.ifree[..], sbi.bfree[..];
    ghost var ni, nb := sbi.nrInodes, sbi.nrBlocks;
    assert sbi.ifree[..ni] == si[..ni] && sbi.bfree[..nb] == sb[..nb];
    SomeFree(si[..ni]);
    SomeFree(sb[..nb]);
    var ino := sbi.GetFreeInode();
    assert sbi.bfree[..nb] == sb[..nb];
    var b := sbi.GetFreeBlocks(1);
    return Some((ino, b));
  }

  lemma SomeFree(bits: seq<bool>)
    ensures Count(bits) > 0 ==> RunFrom(bits, 0, 1)
  {
    CountPositive(bits);
    if Count(bits) > 0 {
      var p :| 0 <= p < |bits| && bits[p];
      assert Run(bits, p, 1);
    }
  }

  /** Give back inode and index block. */
  method Undo(sbi: SbInfo, index: array<Extent>, ino: nat, b: nat, ghost s: State)
    requires Ready(sbi) && TookBoth(s, Now(sbi, index), sbi.nrInodes, sbi.nrBlocks, ino, b)
    requires s.freeInodes == Count(s.ifree[..sbi.nrInodes]) && s.freeBlocks == Count(s.bfree[..sbi.nrBlocks])
    modifies sbi`nrFreeInodes, sbi`nrFreeBlocks, sbi.ifree, sbi.bfree
    ensures Ready(sbi) && Now(sbi, index) == s
  {
    ghost var ni, nb := sbi.nrInodes, sbi.nrBlocks;
    TakeThenGive(s.bfree, nb, b, 1);
    TakeThenGive(s.ifree, ni, ino, 1);
    assert sbi.bfree[..nb] == SetRange(s.bfree, b, 1, false)[..nb] && sbi.ifree[..ni] == SetRange(s.ifree, ino, 1, false)[..ni];
    sbi.PutBlocks(b, 1);
    sbi.PutInode(ino);
    assert sbi.bfree[..nb] == s.bfree[..nb] && sbi.ifree[..ni] == s.ifree[..ni];
    assert s.bfree[..nb][b] && s.ifree[..ni][ino];
  }

  /** The new extent of a directory in slot `ei`. */
  function DirExtent(exts: seq<Extent>, ei: nat, start: nat): Extent
    requires ei < |exts|
  {
    EMPTY_EXTENT.(start := start, len := DIR_EXTENT, block := if ei == 0 then 0 else exts[ei - 1].block + exts[ei - 1].len)
  }

  /** What the directory slot needs: nothing, or eight blocks in a row. */
  ghost predicate Claimed(s: State, s': State, nrBlocks: nat, ei: nat, claimed: bool) {
    && ei < |s.exts| && nrBlocks <= |s.bfree| && s'.ifree == s.ifree && s'.freeInodes == s.freeInodes
    && if !claimed then s' == s
       else
         && s.exts[ei].start == 0 && |s'.exts| == |s.exts| && var start := s'.exts[ei].start;
         && start > 0 && FirstFit(s.bfree[..nrBlocks], 0, start, DIR_EXTENT)
         && s'.bfree == SetRange(s.bfree, start, DIR_EXTENT, false) && s'.exts == s.exts[ei := DirExtent(s.exts, ei, start)]
  }

  /** Make sure slot `ei` of the parent's index has an extent. */
  method ClaimExtent(sbi: SbInfo, index: array<Extent>, ei: nat) returns (ok: bool, claimed: bool)
    requires Ready(sbi) && ei < index.Length && (index[ei].start == 0 ==> index[ei] == EMPTY_EXTENT)
    modifies sbi`nrFreeBlocks, sbi.bfree, index
    ensures Ready(sbi)
    ensures Claimed(old(Now(sbi, index)), Now(sbi, index), sbi.nrBlocks, ei, claimed)
    ensures claimed <==> ok && old(index[ei].start) == 0
    ensures !ok <==> old(index[ei].start) == 0 && !RunFrom(old(sbi.bfree[..sbi.nrBlocks]), 0, DIR_EXTENT)
  {
    if index[ei].start != 0 {
      return true, false;
    }
    ghost var s := Now(sbi, index);
    assert sbi.bfree[..sbi.nrBlocks] == s.bfree[..sbi.nrBlocks];
    var bno := sbi.GetFreeBlocks(DIR_EXTENT);
    if bno == 0 {
      assert sbi.bfree[..] == s.bfree && sbi.bfree[..sbi.nrBlocks] == s.bfree[..sbi.nrBlocks];
      return false, false;
    }
    var block := if ei == 0 then 0 else index[ei - 1].block + index[ei - 1].len;
    index[ei] := index[ei].(start := bno, len := DIR_EXTENT, block := block);
    assert index[..] == s.exts[ei := DirExtent(s.exts, ei, bno)];
    return true, true;
  }

  /** Give the extent of slot `ei` back if this call claimed it. */
  method Unclaim(sbi: SbInfo, index: array<Extent>, ei: nat, claimed: bool, ghost s: State)
    requires Ready(sbi) && ei < index.Length && Claimed(s, Now(sbi, index), sbi.nrBlocks, ei, claimed)
    requires s.freeBlocks == Count(s.bfree[..sbi.nrBlocks]) && (s.exts[ei].start == 0 ==> s.exts[ei] == EMPTY_EXTENT)
    modifies sbi`nrFreeBlocks, sbi.bfree, index
    ensures Ready(sbi) && Now(sbi, index) == s
  {
    if claimed {
      ghost var nb, start := sbi.nrBlocks, index[ei].start;
      TakeThenGive(s.bfree, nb, start, DIR_EXTENT);
      assert sbi.bfree[..nb] == SetRange(s.bfree, start, DIR_EXTENT, false)[..nb];
      sbi.PutBlocks(index[ei].start, index[ei].len);
      assert sbi.bfree[..nb] == s.bfree[..nb];
      index[ei] := EMPTY_EXTENT;
      assert index[..] == s.exts;
    }
  }

  /** The directory needs an extent, and once the index block is taken there is no run of eight blocks. */
  ghost predicate NoDirRun(bits: seq<bool>, start: nat) {
    start == 0 && RunFrom(bits, 0, 1) && !RunFrom(SetRange(bits, FitAt(bits, 0, 1), 1, false), 0, DIR_EXTENT)
  }

  lemma TookFirst(s: State, s': State, nrInodes: nat, nrBlocks: nat, ino: nat, b: nat, start: nat)
    requires TookBoth(s, s', nrInodes, nrBlocks, ino, b)
    ensures nrBlocks <= |s'.bfree|
    ensures NoDirRun(s.bfree[..nrBlocks], start) <==> start == 0 && !RunFrom(s'.bfree[..nrBlocks], 0, DIR_EXTENT)
  {
    var bits := s.bfree[..nrBlocks];
    assert Run(bits, b, 1);
    FirstFitUnique(bits, 0, b, FitAt(bits, 0, 1), 1);
    assert s'.bfree[..nrBlocks] == SetRange(bits, b, 1, false);
  }

  /** The slot for a new entry: block within the extent, and slot within the block. */
  function SlotFor(nrFiles: nat): (nat, nat) {
    (nrFiles % FILES_PER_EXTENT / FILES_PER_BLOCK, nrFiles % FILES_PER_BLOCK)
  }

  /** The index arithmetic leaves the eight blocks of the extent exactly from the 121st entry of an extent on. */
  lemma SlotInsideIff(nrFiles: nat)
    ensures SlotFor(nrFiles).0 < DIR_EXTENT <==> nrFiles % FILES_PER_EXTENT < DIR_EXTENT * FILES_PER_BLOCK
    ensures !(SlotFor(120).0 < DIR_EXTENT)
  {
  }

  /** Counting up fills the slots of the extent in order, without leaving one out, as long as it stays inside. */
  lemma SlotsInOrder(nrFiles: nat)
    requires nrFiles % FILES_PER_EXTENT < DIR_EXTENT * FILES_PER_BLOCK
    ensures SlotFor(nrFiles).0 * FILES_PER_BLOCK + SlotFor(nrFiles).1 == nrFiles % FILES_PER_EXTENT
  {
  }

  /**
   * `lolelffs_create`: every failure gives back all it took; bitmaps, counters, index and entry count
   * are exactly as before. `scrubbed` tells whether the new index block can be read, `readable`
   * whether the directory block can.
   */
  method Create(sbi: SbInfo, index: array<Extent>, nameLength: nat, nrFiles: nat, scrubbed: bool, readable: bool)
    returns (r: Outcome, nr: nat)
    requires Ready(sbi) && index.Length == MAX_EXTENTS && nrFiles <= MAX_SUBFILES
    requires forall j :: 0 <= j < MAX_EXTENTS && index[j].start == 0 ==> index[j] == EMPTY_EXTENT
    modifies sbi`nrFreeInodes, sbi`nrFreeBlocks, sbi.ifree, sbi.bfree, index
    ensures Ready(sbi)
    ensures !r.Created? ==> Now(sbi, index) == old(Now(sbi, index)) && nr == nrFiles
    ensures r.Created? ==> nr == nrFiles + 1 && scrubbed && readable && nrFiles < MAX_SUBFILES
    ensures r == LongName <==> nameLength > MAX_FILENAME
    ensures r == TooManyLinks <==> nameLength <= MAX_FILENAME && nrFiles == MAX_SUBFILES
    ensures nameLength <= MAX_FILENAME && nrFiles < MAX_SUBFILES ==>
      var none := old(sbi.nrFreeInodes == 0 || sbi.nrFreeBlocks == 0);
      var noRun := old(NoDirRun(sbi.bfree[..sbi.nrBlocks], index[nrFiles / FILES_PER_EXTENT].start));
      && (r == NoRoom <==> none || (scrubbed && noRun))
      && (r == Unreadable <==> !none && (!scrubbed || (!noRun && !readable)))
    ensures r.Created? ==> exists s1: State, claimed ::
      && TookBoth(old(Now(sbi, index)), s1, sbi.nrInodes, sbi.nrBlocks, r.ino, r.block)
      && Claimed(s1, Now(sbi, index), sbi.nrBlocks, nrFiles / FILES_PER_EXTENT, claimed)
  {
    nr := nrFiles;
    if nameLength > MAX_FILENAME {
      return LongName, nr;
    }
    if nrFiles == MAX_SUBFILES {
      return TooManyLinks, nr;
    }
    ghost var s := Now(sbi, index);
    assert s.bfree[..sbi.nrBlocks] == sbi.bfree[..sbi.nrBlocks] && s.ifree[..sbi.nrInodes] == sbi.ifree[..sbi.nrInodes];
    var n := NewInode(sbi, index);
    if n.None? {
      return NoRoom, nr;
    }
    ghost var s1 := Now(sbi, index);
    assert s1.bfree[..sbi.nrBlocks] == sbi.bfree[..sbi.nrBlocks];
    if !scrubbed {
      Undo(sbi, index, n.value.0, n.value.1, s);
      return Unreadable, nr;
    }
    var ei := nrFiles / FILES_PER_EXTENT;
    TookFirst(s, s1, sbi.nrInodes, sbi.nrBlocks, n.value.0, n.value.1, index[ei].start);
    var ok, claimed := ClaimExtent(sbi, index, ei);
    if !ok {
      assert TookBoth(s, s1, sbi.nrInodes, sbi.nrBlocks, n.value.0, n.value.1);
      Undo(sbi, index, n.value.0, n.value.1, s);
      return NoRoom, nr;
    }
    if !readable {
      Unclaim(sbi, index, ei, claimed, s1);
      Undo(sbi, index, n.value.0, n.value.1, s);
      return Unreadable, nr;
    }
    assert TookBoth(s, s1, sbi.nrInodes, sbi.nrBlocks, n.value.0, n.value.1);
    return Created(n.value.0, n.value.1), nrFiles + 1;
  }
}
