/** Allocation of inodes and blocks in the kernel module (src/bitmap.h): bitmap and counter together. */
module KernelAlloc {
  import opened Bits
  import opened KernelBitmap

  /** The bound `put_free_bits` tests: one position too wide. */
  predicate PutAccepts(size: nat, i: nat, len: nat) {
    i + len - 1 <= size
  }

  /**
   * `put_blocks` adds the length of every range that passes the bound test. The counter stays the
   * population count exactly when the whole range was in the map and taken: a second free and a
   * range one bit too long are both let through.
   */
  lemma PutKeepsCountIff(s: seq<bool>, size: nat, i: nat, len: nat)
    requires size <= |s| && PutAccepts(size, i, len) && 0 < len
    ensures Count(SetRange(s, i, len, true)[..size]) == Count(s[..size]) + len <==> Taken(s[..size], i, len)
  {
    assert SetRange(s, i, len, true)[..size] == SetRange(s[..size], i, len, true);
    GainsAtMost(s[..size], i, len);
  }

  /** Two accepted ranges that break the counter: block 1 freed twice, and a range past the end. */
  lemma PutMiscounts()
    ensures var s := [false, true, false];
      && PutAccepts(2, 1, 1) && Count(SetRange(s, 1, 1, true)[..2]) != Count(s[..2]) + 1
      && PutAccepts(2, 0, 3) && Count(SetRange(s, 0, 3, true)[..2]) != Count(s[..2]) + 3
  {
    var s := [false, true, false];
    assert s[..2][1];
    PutKeepsCountIff(s, 2, 1, 1);
    PutKeepsCountIff(s, 2, 0, 3);
  }

  /** `put_free_bits`. */
  method PutFreeBits(freemap: array<bool>, size: nat, i: nat, len: nat) returns (ok: bool)
    requires PutAccepts(size, i, len) ==> i + len <= freemap.Length
    modifies freemap
    ensures ok <==> PutAccepts(size, i, len)
    ensures freemap[..] == if ok then SetRange(old(freemap[..]), i, len, true) else old(freemap[..])
  {
    if i + len - 1 > size {
      return false;
    }
    Fill(freemap, i, len, true);
    return true;
  }

  /** The first fit is at bit 0, whose number is the answer for failure. */
  predicate AtZero(s: seq<bool>, len: nat) {
    len > 0 && Run(s, 0, len)
  }

  lemma NotAtZero(s: seq<bool>, size: nat, len: nat)
    requires size <= |s| && (|s| > 0 ==> !s[0])
    ensures !AtZero(s[..size], len)
  {
  }

  /** The in-memory superblock: two bitmaps and their counters, changed only under its lock. */
  class SbInfo {
    const nrInodes: nat
    const nrBlocks: nat
    const ifree: array<bool>
    const bfree: array<bool>
    var nrFreeInodes: nat
    var nrFreeBlocks: nat

    constructor (inodes: nat, blocks: nat, inodeMap: array<bool>, blockMap: array<bool>)
      requires inodeMap != blockMap && inodes <= inodeMap.Length && blocks <= blockMap.Length
      ensures nrInodes == inodes && nrBlocks == blocks && ifree == inodeMap && bfree == blockMap
      ensures Valid()
    {
      nrInodes, nrBlocks, ifree, bfree := inodes, blocks, inodeMap, blockMap;
      new;
      nrFreeInodes := Count(inodeMap[..inodes]);
      nrFreeBlocks := Count(blockMap[..blocks]);
    }

    /** Each counter is the population count of its bitmap. */
    ghost predicate Valid()
      reads this, ifree, bfree
    {
      && ifree != bfree
      && nrInodes <= ifree.Length && nrBlocks <= bfree.Length
      && nrFreeInodes == Count(ifree[..nrInodes])
      && nrFreeBlocks == Count(bfree[..nrBlocks])
    }

    /** `get_free_inode`: the answer 0 means failure, so the counter stays right exactly when inode 0 is not free. */
    method GetFreeInode() returns (r: nat)
      requires Valid()
      modifies this`nrFreeInodes, ifree
      ensures Allocates(old(ifree[..]), 0, nrInodes, 1, r, ifree[..])
      ensures Valid() <==> !AtZero(old(ifree[..])[..nrInodes], 1)
      ensures r == 0 <==> !RunFrom(old(ifree[..])[..nrInodes], 0, 1) || AtZero(old(ifree[..])[..nrInodes], 1)
      ensures nrFreeInodes == old(nrFreeInodes) - if r == 0 then 0 else 1
    {
      ghost var s := ifree[..];
      assert ifree[..nrInodes] == s[..nrInodes];
      r := GetFirstFreeBits(ifree, nrInodes, 1);
      AllocatedCount(s, nrInodes, 1, r, ifree[..]);
      if r != 0 {
        nrFreeInodes := nrFreeInodes - 1;
      }
      assert ifree[..][..nrInodes] == ifree[..nrInodes];
    }

    /** `get_free_blocks`, with the same restriction. */
    method GetFreeBlocks(len: nat) returns (r: nat)
      requires Valid()
      modifies this`nrFreeBlocks, bfree
      ensures Allocates(old(bfree[..]), 0, nrBlocks, len, r, bfree[..])
      ensures Valid() <==> !AtZero(old(bfree[..])[..nrBlocks], len)
      ensures r == 0 <==> len == 0 || !RunFrom(old(bfree[..])[..nrBlocks], 0, len) || AtZero(old(bfree[..])[..nrBlocks], len)
      ensures nrFreeBlocks == old(nrFreeBlocks) - if r == 0 then 0 else len
    {
      ghost var s := bfree[..];
      assert bfree[..nrBlocks] == s[..nrBlocks];
      r := GetFirstFreeBits(bfree, nrBlocks, len);
      AllocatedCount(s, nrBlocks, len, r, bfree[..]);
      if r != 0 {
        nrFreeBlocks := nrFreeBlocks - len;
      }
      assert bfree[..][..nrBlocks] == bfree[..nrBlocks];
    }

    /** `put_inode`: the counter stays right exactly for an inode in use. */
    method PutInode(ino: nat)
      requires Valid() && (PutAccepts(nrInodes, ino, 1) ==> ino < ifree.Length)
      modifies this`nrFreeInodes, ifree
      ensures var ok := PutAccepts(nrInodes, ino, 1);
        && ifree[..] == (if ok then SetRange(old(ifree[..]), ino, 1, true) else old(ifree[..]))
        && nrFreeInodes == old(nrFreeInodes) + (if ok then 1 else 0)
        && (Valid() <==> !ok || Taken(old(ifree[..nrInodes]), ino, 1))
    {
      ghost var s := ifree[..];
      assert ifree[..nrInodes] == s[..nrInodes];
      var ok := PutFreeBits(ifree, nrInodes, ino, 1);
      assert ifree[..][..nrInodes] == ifree[..nrInodes];
      if ok {
        PutKeepsCountIff(s, nrInodes, ino, 1);
        nrFreeInodes := nrFreeInodes + 1;
      }
    }

    /** `put_blocks`: the counter stays right exactly for a run in use. */
    method PutBlocks(bno: nat, len: nat)
      requires Valid() && 0 < len && (PutAccepts(nrBlocks, bno, len) ==> bno + len <= bfree.Length)
      modifies this`nrFreeBlocks, bfree
      ensures var ok := PutAccepts(nrBlocks, bno, len);
        && bfree[..] == (if ok then SetRange(old(bfree[..]), bno, len, true) else old(bfree[..]))
        && nrFreeBlocks == old(nrFreeBlocks) + (if ok then len else 0)
        && (Valid() <==> !ok || Taken(old(bfree[..nrBlocks]), bno, len))
    {
      ghost var s := bfree[..];
      assert bfree[..nrBlocks] == s[..nrBlocks];
      var ok := PutFreeBits(bfree, nrBlocks, bno, len);
      assert bfree[..][..nrBlocks] == bfree[..nrBlocks];
      if ok {
        PutKeepsCountIff(s, nrBlocks, bno, len);
        nrFreeBlocks := nrFreeBlocks + len;
      }
    }
  }

  /** What an allocation does to the count: without an allocation at 0 the answer tells. */
  lemma AllocatedCount(s: seq<bool>, size: nat, len: nat, r: nat, s': seq<bool>)
    requires size <= |s| && Allocates(s, 0, size, len, r, s')
    ensures r == 0 <==> len == 0 || !RunFrom(s[..size], 0, len) || AtZero(s[..size], len)
    ensures |s'| == |s|
    ensures r != 0 || AtZero(s[..size], len) ==> len <= Count(s[..size]) && Count(s'[..size]) == Count(s[..size]) - len
    ensures r == 0 && !AtZero(s[..size], len) ==> s' == s
  {
    if len > 0 && RunFrom(s[..size], 0, len) {
      assert s[..size][r];
      CountSetRange(s[..size], r, len, false);
      assert s'[..size] == SetRange(s[..size], r, len, false);
    }
  }

  lemma ReleasedCount(s: seq<bool>, size: nat, start: nat, len: nat)
    requires size <= |s| && Taken(s[..size], start, len)
    ensures Count(SetRange(s, start, len, true)[..size]) == Count(s[..size]) + len
  {
    CountSetRange(s[..size], start, len, true);
    assert SetRange(s, start, len, true)[..size] == SetRange(s[..size], start, len, true);
  }

  // ---- the end of unlinking a symbolic link ----

  /**
   * `lolelffs_unlink` of a symbolic link puts block 0, which it takes for the index block: the put is
   * accepted, and bitmap and counter agree, but the superblock is now free.
   */
  method UnlinkSymlink(sbi: SbInfo, ino: nat)
    requires sbi.Valid() && sbi.nrBlocks > 0 && !sbi.bfree[0] && ino < sbi.nrInodes && !sbi.ifree[ino]
    modifies sbi`nrFreeBlocks, sbi.bfree, sbi`nrFreeInodes, sbi.ifree
    ensures sbi.Valid() && sbi.bfree[..] == old(sbi.bfree[..])[0 := true] && sbi.ifree[..] == old(sbi.ifree[..])[ino := true]
  {
    ghost var s := sbi.bfree[..];
    assert Taken(sbi.bfree[..sbi.nrBlocks], 0, 1);
    sbi.PutBlocks(0, 1);
    assert Taken(sbi.ifree[..sbi.nrInodes], ino, 1);
    sbi.PutInode(ino);
  }

  /** The next request for one block fails, whatever is free: it takes block 0 and forgets to count it. */
  method GetAfterUnlink(sbi: SbInfo) returns (r: nat)
    requires sbi.Valid() && sbi.nrBlocks > 0 && sbi.bfree[0]
    modifies sbi`nrFreeBlocks, sbi.bfree
    ensures r == 0 && !sbi.Valid()
    ensures sbi.bfree[..] == old(sbi.bfree[..])[0 := false] && sbi.nrFreeBlocks == old(sbi.nrFreeBlocks)
  {
    ghost var s := sbi.bfree[..];
    assert AtZero(s[..sbi.nrBlocks], 1);
    r := sbi.GetFreeBlocks(1);
    assert FirstFit(s[..sbi.nrBlocks], 0, 0, 1);
  }
}
