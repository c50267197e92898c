/** Entering a new name in a directory of the kernel module (src/inode.c): `lolelffs_create` with the slot it fills. */
module KernelEntry {
  import opened Layout
  import opened KernelAlloc
  import opened KernelCreate
  import opened KernelDir

  /** Writing one slot of one block. */
  lemma {:induction false} FlatUpdate(bs: seq<DirBlock>, i: nat, f: nat, slot: Slot)
    requires BlocksOk(bs) && i < |bs| && f < 15
    ensures BlocksOk(bs[i := bs[i][f := slot]]) && 15 * i + f < |Flat(bs)|
    ensures Flat(bs[i := bs[i][f := slot]]) == Flat(bs)[15 * i + f := slot]
  {
    FlatLength(bs);
    var r := bs[i := bs[i][f := slot]];
    if i == 0 {
      assert r[1..] == bs[1..];
    } else {
      assert r[1..] == bs[1..][i - 1 := bs[1..][i - 1][f := slot]];
      FlatUpdate(bs[1..], i - 1, f, slot);
    }
  }

  /** The slots of a directory with one extent after the entry is written; a slot past the extent is another block's. */
  function Entered(s: seq<Slot>, nrFiles: nat, slot: Slot): seq<Slot> {
    if nrFiles < |s| then s[nrFiles := slot] else s
  }

  lemma SlotIndex(nrFiles: nat)
    requires nrFiles < FILES_PER_EXTENT
    ensures var (bi, fi) := SlotFor(nrFiles); fi < 15 && 15 * bi + fi == nrFiles && (bi < DIR_EXTENT <==> nrFiles < 15 * DIR_EXTENT)
  {
    SlotInsideIff(nrFiles);
    if nrFiles < 15 * DIR_EXTENT { SlotsInOrder(nrFiles); }
    assert nrFiles % FILES_PER_EXTENT == nrFiles;
    assert nrFiles == 15 * (nrFiles / 15) + nrFiles % 15;
  }

  /** The entry goes to the computed block and slot of the extent. */
  method WriteSlot(blocks: array<DirBlock>, nrFiles: nat, ino: nat, name: Bytes)
    requires blocks.Length == DIR_EXTENT && BlocksOk(blocks[..]) && nrFiles < FILES_PER_EXTENT
    modifies blocks
    ensures BlocksOk(blocks[..]) && Flat(blocks[..]) == Entered(Flat(old(blocks[..])), nrFiles, Slot(ino, name))
  {
    var (bi, fi) := SlotFor(nrFiles);
    SlotIndex(nrFiles);
    FlatLength(blocks[..]);
    if bi < DIR_EXTENT {
      FlatUpdate(blocks[..], bi, fi, Slot(ino, name));
      blocks[bi] := blocks[bi][fi := Slot(ino, name)];
      assert blocks[..] == old(blocks[..])[bi := old(blocks[..])[bi][fi := Slot(ino, name)]];
    }
  }

  lemma UsedBound(s: seq<Slot>)
    ensures UsedSlots(s) <= |s|
  {
  }

  /**
   * `lolelffs_create` of a name that is not there, in a directory of one extent whose blocks are dense:
   * a failure changes nothing. Success adds exactly this name for every later lookup if and only if
   * fewer than 120 entries were there; the 121st entry is lost and only counted.
   */
  method CreateEntry(sbi: SbInfo, index: array<Extent>, blocks: array<DirBlock>, name: Bytes, nrFiles: nat, scrubbed: bool, readable: bool)
    returns (r: Outcome, nr: nat)
    requires Ready(sbi) && index.Length == MAX_EXTENTS
    requires forall j :: 0 <= j < MAX_EXTENTS && index[j].start == 0 ==> index[j] == EMPTY_EXTENT
    requires blocks.Length == DIR_EXTENT && BlocksOk(blocks[..]) && Dense(blocks[..]) && UsedSlots(Flat(blocks[..])) == nrFiles
    requires FullScan(Flat(blocks[..]), name) == None
    modifies sbi`nrFreeInodes, sbi`nrFreeBlocks, sbi.ifree, sbi.bfree, index, blocks
    ensures Ready(sbi) && BlocksOk(blocks[..]) && Dense(blocks[..])
    ensures !r.Created? ==> Now(sbi, index) == old(Now(sbi, index)) && blocks[..] == old(blocks[..]) && nr == nrFiles
    ensures r.Created? ==> nr == nrFiles + 1 && (UsedSlots(Flat(blocks[..])) == nr <==> nrFiles < DIR_EXTENT * FILES_PER_BLOCK)
    ensures r.Created? ==> forall other ::
      FullScan(Flat(blocks[..]), other) ==
      if other == name && nrFiles < DIR_EXTENT * FILES_PER_BLOCK then Some(r.ino) else FullScan(Flat(old(blocks[..])), other)
  {
    ghost var s := Flat(blocks[..]);
    FlatLength(blocks[..]);
    UsedBound(s);
    r, nr := Create(sbi, index, |name|, nrFiles, scrubbed, readable);
    if r.Created? {
      WriteSlot(blocks, nrFiles, r.ino, name);
      if nrFiles < |s| {
        DenseCount(s, nrFiles);
        FillKeepsDense(s, r.ino, name);
        forall other ensures FullScan(Flat(blocks[..]), other) == if other == name then Some(r.ino) else FullScan(s, other) {
          LookupAfterFill(s, nrFiles, r.ino, name, other);
        }
      }
    }
  }
}
