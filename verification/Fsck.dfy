/** The checker (src/fsck.lolelffs.c): it counts errors and warnings. */
module Fsck {
  import opened Layout
  import opened Bits
  import opened MkfsBitmap
  import opened Mkfs

  function One(c: bool): nat { if c then 1 else 0 }

  /** The superblock tests that stop the whole check. */
  predicate Fatal(sb: Super) {
    || sb.magic != MAGIC || sb.nrBlocks < 100 || sb.nrInodes == 0 || sb.version != VERSION
    || sb.compAlgo > 3 || sb.encAlgo > 2 || sb.kdfAlgo > 2
  }

  /** What is wrong with the layout numbers, in 32-bit arithmetic. */
  function LayoutErrors(sb: Super): nat {
    var used := (sb.nrBlocks + U32 - sb.nrFreeBlocks % U32) % U32;
    var metadata := (1 + sb.nrIstore + sb.nrIfree + sb.nrBfree) % U32;
    One(sb.nrIstore != sb.nrInodes / INODES_PER_BLOCK) + One(sb.nrFreeInodes > sb.nrInodes)
    + One(sb.nrFreeBlocks > sb.nrBlocks) + One(used < metadata)
  }

  function KdfWarnings(sb: Super): nat {
    if sb.kdfAlgo == 0 then 0
    else
      One(sb.kdfIterations == 0) + One(sb.kdfIterations > 1000000)
      + if sb.kdfAlgo != 1 then 0
        else One(sb.kdfMemory < 1024) + One(sb.kdfMemory > 4194304) + One(sb.kdfParallelism == 0 || sb.kdfParallelism > 256)
  }

  /** Errors of the superblock check, with the one that stops it. */
  function SuperErrors(sb: Super): nat {
    if sb.magic != MAGIC || sb.nrBlocks < 100 || sb.nrInodes == 0 || sb.version != VERSION || sb.compAlgo > 3 then 1
    else 2 * One(sb.maxExtentLarge > MAX_EXTENT_BLOCKS_LARGE) + if Fatal(sb) then 1 else LayoutErrors(sb)
  }

  function SuperWarnings(sb: Super): nat {
    if sb.magic != MAGIC || sb.nrBlocks < 100 || sb.nrInodes == 0 then 0
    else
      One(sb.nrInodes % INODES_PER_BLOCK != 0)
      + if sb.version != VERSION || sb.compAlgo > 3 then 0
        else One(sb.maxExtent != MAX_EXTENT_BLOCKS) + if Fatal(sb) then 0 else KdfWarnings(sb)
  }

  predicate Readable(mode: nat) { mode / 0x100 % 2 == 1 }

  predicate Searchable(mode: nat) { mode / 0x40 % 2 == 1 }

  /** The end of the metadata region, in 32-bit arithmetic. */
  function MetadataEnd(sb: Super): nat {
    (1 + sb.nrIstore + sb.nrIfree + sb.nrBfree) % U32
  }

  predicate InDataArea(sb: Super, b: nat) {
    MetadataEnd(sb) <= b < sb.nrBlocks
  }

  function RootErrors(sb: Super, n: Inode): nat {
    if !IsDir(n) then 1
    else
      One(n.nlink < 2) + One(n.blocks == 0)
      + if !InDataArea(sb, n.ei) then 1 else One(n.xattr != 0 && !InDataArea(sb, n.xattr))
  }

  function RootWarnings(n: Inode): nat {
    if !IsDir(n) then 0 else One(!Readable(n.mode)) + One(!Searchable(n.mode)) + One(n.size != BLOCK_SIZE)
  }

  const MAX_SUBFILES: nat := 15 * 2048 * 170

  function ExtentErrors(sb: Super, e: Extent): nat {
    var max := if e.flags / 4 % 2 == 1 then MAX_EXTENT_BLOCKS else if sb.maxExtentLarge != 0 then sb.maxExtentLarge else MAX_EXTENT_BLOCKS;
    One(e.len == 0) + One(e.len > max) + One((e.start + e.len) % U32 > sb.nrBlocks) + One(e.comp > 3) + One(e.enc > 2)
  }

  function ExtentWarnings(e: Extent): nat {
    One(e.flags % 2 == 1 && e.comp == 0) + One(e.flags / 2 % 2 == 1 && e.enc == 0)
  }

  /** The extents before the first one that starts at block 0. */
  function Started(exts: seq<Extent>): (n: nat)
    ensures n <= |exts|
  {
    if exts == [] || exts[0].start == 0 then 0 else 1 + Started(exts[1..])
  }

  function ExtentsErrors(sb: Super, exts: seq<Extent>): nat {
    if exts == [] || exts[0].start == 0 then 0 else ExtentErrors(sb, exts[0]) + ExtentsErrors(sb, exts[1..])
  }

  function ExtentsWarnings(exts: seq<Extent>): nat {
    if exts == [] || exts[0].start == 0 then 0 else ExtentWarnings(exts[0]) + ExtentsWarnings(exts[1..])
  }

  function IndexErrors(sb: Super, index: ExtentIndex): nat {
    One(index.nrFiles > MAX_SUBFILES) + if index.nrFiles == 0 then 0 else ExtentsErrors(sb, index.extents)
  }

  function IndexWarnings(index: ExtentIndex): nat {
    if index.nrFiles == 0 then 0 else ExtentsWarnings(index.extents)
  }

  /** Length and place are in range, the algorithms are known, and the flags agree with them. */
  predicate CleanExtent(sb: Super, e: Extent) {
    var short := e.flags / 4 % 2 == 1 || sb.maxExtentLarge == 0;
    && 0 < e.len <= (if short then MAX_EXTENT_BLOCKS else sb.maxExtentLarge) && (e.start + e.len) % U32 <= sb.nrBlocks
    && e.comp <= 3 && e.enc <= 2 && (e.flags % 2 == 1 ==> e.comp != 0) && (e.flags / 2 % 2 == 1 ==> e.enc != 0)
  }

  lemma ExtentSilentIff(sb: Super, e: Extent)
    ensures ExtentErrors(sb, e) == 0 && ExtentWarnings(e) == 0 <==> CleanExtent(sb, e)
  {
  }

  lemma {:induction false} CleanIffAllClean(sb: Super, exts: seq<Extent>)
    ensures ExtentsErrors(sb, exts) == 0 && ExtentsWarnings(exts) == 0 <==>
      forall i :: 0 <= i < Started(exts) ==> CleanExtent(sb, exts[i])
  {
    if exts != [] && exts[0].start != 0 {
      CleanIffAllClean(sb, exts[1..]);
      ExtentSilentIff(sb, exts[0]);
      assert forall i :: 0 < i < Started(exts) ==> exts[i] == exts[1..][i - 1];
      assert forall i :: 0 <= i < Started(exts[1..]) ==> exts[1..][i] == exts[i + 1];
    }
  }

  predicate BitmapOk(words: seq<Word>, nr: nat, expected: nat)
    requires |words| > 0
  {
    Count(BitsOf(words)[..Min(nr, 64 * |words|)]) == expected && !BitsOf(words)[0]
  }

  function BitmapErrors(words: seq<Word>, nr: nat, expected: nat): (n: nat)
    requires |words| > 0
    ensures n == 0 <==> BitmapOk(words, nr, expected)
  {
    One(Count(BitsOf(words)[..Min(nr, 64 * |words|)]) != expected) + One(BitsOf(words)[0])
  }

  /** An image that passes the superblock has the bitmap blocks it names, at least one and at most one bit per 32-bit number. */
  predicate Covered(img: Image) {
    Fatal(img.sb) || (HasBlocks(img.ifree, img.sb.nrIfree) && HasBlocks(img.bfree, img.sb.nrBfree))
  }

  predicate HasBlocks(words: seq<Word>, nrBitmapBlocks: nat) {
    |words| == 512 * nrBitmapBlocks && 0 < nrBitmapBlocks <= U32 / BITS_PER_BLOCK
  }

  function ImageErrors(img: Image): nat
    requires Covered(img)
  {
    SuperErrors(img.sb)
    + if Fatal(img.sb) then 0
      else
        RootErrors(img.sb, img.root) + IndexErrors(img.sb, img.index)
        + BitmapErrors(img.ifree, img.sb.nrInodes, img.sb.nrFreeInodes) + BitmapErrors(img.bfree, img.sb.nrBlocks, img.sb.nrFreeBlocks)
  }

  function ImageWarnings(img: Image): nat {
    SuperWarnings(img.sb) + if Fatal(img.sb) then 0 else RootWarnings(img.root) + IndexWarnings(img.index)
  }

  /** Iteration count, memory and parallelism of the key derivation, where there is one, are in range. */
  predicate KdfSane(sb: Super) {
    sb.kdfAlgo == 0 ||
    (&& 1 <= sb.kdfIterations <= 1000000
     && (sb.kdfAlgo == 1 ==> 1024 <= sb.kdfMemory <= 4194304 && 1 <= sb.kdfParallelism <= 256))
  }

  /** The inode store holds the inodes exactly, and what is not free holds at least the metadata, in 32-bit arithmetic. */
  predicate LayoutSane(sb: Super) {
    && sb.nrInodes == sb.nrIstore * INODES_PER_BLOCK
    && sb.nrFreeInodes <= sb.nrInodes && sb.nrFreeBlocks <= sb.nrBlocks
    && MetadataEnd(sb) <= (sb.nrBlocks - sb.nrFreeBlocks) % U32
  }

  predicate SuperClean(sb: Super) {
    && sb.magic == MAGIC && sb.version == VERSION && sb.nrBlocks >= 100 && sb.nrInodes > 0
    && sb.compAlgo <= 3 && sb.encAlgo <= 2 && sb.kdfAlgo <= 2
    && sb.maxExtent == MAX_EXTENT_BLOCKS && sb.maxExtentLarge <= MAX_EXTENT_BLOCKS_LARGE
    && LayoutSane(sb) && KdfSane(sb)
  }

  lemma UsedIs(nr: nat, free: nat)
    requires free <= nr
    ensures (nr + U32 - free % U32) % U32 == (nr - free) % U32
  {
    var q := free / U32;
    assert nr + U32 - free % U32 == (nr - free) + U32 * (q + 1);
    ModShift(nr - free, q + 1);
  }

  lemma {:induction false} ModShift(a: nat, k: nat)
    ensures (a + U32 * k) % U32 == a % U32
  {
    if k > 0 {
      ModShift(a, k - 1);
      assert a + U32 * k == (a + U32 * (k - 1)) + U32;
    }
  }

  lemma LayoutSilentIff(sb: Super)
    ensures LayoutErrors(sb) == 0 && sb.nrInodes % INODES_PER_BLOCK == 0 <==> LayoutSane(sb)
  {
    if sb.nrFreeBlocks <= sb.nrBlocks { UsedIs(sb.nrBlocks, sb.nrFreeBlocks); }
  }

  lemma SuperSilentIff(sb: Super)
    ensures SuperErrors(sb) == 0 && SuperWarnings(sb) == 0 <==> SuperClean(sb)
  {
    LayoutSilentIff(sb);
  }

  /** A readable, searchable directory of one block whose index and attribute blocks lie in the data area. */
  predicate RootClean(sb: Super, n: Inode) {
    && IsDir(n) && Readable(n.mode) && Searchable(n.mode)
    && n.nlink >= 2 && n.size == BLOCK_SIZE && n.blocks > 0
    && InDataArea(sb, n.ei) && (n.xattr == 0 || InDataArea(sb, n.xattr))
  }

  predicate IndexClean(sb: Super, index: ExtentIndex) {
    && index.nrFiles <= MAX_SUBFILES
    && (index.nrFiles > 0 ==> forall i :: 0 <= i < Started(index.extents) ==> CleanExtent(sb, index.extents[i]))
  }

  /** The fields are sane, the counters equal the bits, and inode 0 and block 0 are taken. */
  predicate Clean(img: Image)
    requires Covered(img)
  {
    && SuperClean(img.sb) && RootClean(img.sb, img.root) && IndexClean(img.sb, img.index)
    && BitmapOk(img.ifree, img.sb.nrInodes, img.sb.nrFreeInodes) && BitmapOk(img.bfree, img.sb.nrBlocks, img.sb.nrFreeBlocks)
  }

  lemma SilentIffClean(img: Image)
    requires Covered(img)
    ensures ImageErrors(img) == 0 && ImageWarnings(img) == 0 <==> Clean(img)
  {
    SuperSilentIff(img.sb);
    CleanIffAllClean(img.sb, img.index.extents);
  }

  /** The tally of a run. */
  class Checker {
    var errors: nat
    var warnings: nat

    constructor ()
      ensures errors == 0 && warnings == 0
    {
      errors, warnings := 0, 0;
    }

    /** `check_superblock`: false when the rest of the check makes no sense. */
    method CheckSuperblock(sb: Super) returns (ok: bool)
      modifies this
      ensures ok <==> !Fatal(sb)
      ensures errors == old(errors) + SuperErrors(sb) && warnings == old(warnings) + SuperWarnings(sb)
    {
      if sb.magic != MAGIC || sb.nrBlocks < 100 || sb.nrInodes == 0 {
        errors := errors + 1;
        return false;
      }
      if sb.nrInodes % INODES_PER_BLOCK != 0 {
        warnings := warnings + 1;
      }
      if sb.version != VERSION || sb.compAlgo > 3 {
        errors := errors + 1;
        return false;
      }
      if sb.maxExtent != MAX_EXTENT_BLOCKS {
        warnings := warnings + 1;
      }
      if sb.maxExtentLarge > MAX_EXTENT_BLOCKS_LARGE {
        errors := errors + 1;
        errors := errors + 1;
      }
      if sb.encAlgo > 2 || sb.kdfAlgo > 2 {
        errors := errors + 1;
        return false;
      }
      CheckKdf(sb);
      CheckLayout(sb);
      return true;
    }

    method CheckKdf(sb: Super)
      modifies this`warnings
      ensures warnings == old(warnings) + KdfWarnings(sb)
    {
      if sb.kdfAlgo != 0 {
        if sb.kdfIterations == 0 { warnings := warnings + 1; }
        if sb.kdfIterations > 1000000 { warnings := warnings + 1; }
        if sb.kdfAlgo == 1 {
          if sb.kdfMemory < 1024 { warnings := warnings + 1; }
          if sb.kdfMemory > 4194304 { warnings := warnings + 1; }
          if sb.kdfParallelism == 0 || sb.kdfParallelism > 256 { warnings := warnings + 1; }
        }
      }
    }

    method CheckLayout(sb: Super)
      modifies this`errors
      ensures errors == old(errors) + LayoutErrors(sb)
    {
      if sb.nrIstore != sb.nrInodes / INODES_PER_BLOCK { errors := errors + 1; }
      if sb.nrFreeInodes > sb.nrInodes { errors := errors + 1; }
      if sb.nrFreeBlocks > sb.nrBlocks { errors := errors + 1; }
      var metadata := (1 + sb.nrIstore + sb.nrIfree + sb.nrBfree) % U32;
      var used := (sb.nrBlocks + U32 - sb.nrFreeBlocks % U32) % U32;
      if used < metadata { errors := errors + 1; }
    }

    /** `check_root_inode`. */
    method CheckRootInode(sb: Super, n: Inode)
      modifies this
      ensures errors == old(errors) + RootErrors(sb, n) && warnings == old(warnings) + RootWarnings(n)
    {
      if !IsDir(n) {
        errors := errors + 1;
        return;
      }
      if !Readable(n.mode) { warnings := warnings + 1; }
      if !Searchable(n.mode) { warnings := warnings + 1; }
      if n.nlink < 2 { errors := errors + 1; }
      if n.size != BLOCK_SIZE { warnings := warnings + 1; }
      if n.blocks == 0 { errors := errors + 1; }
      var end := MetadataEnd(sb);
      if n.ei < end || n.ei >= sb.nrBlocks {
        errors := errors + 1;
        return;
      }
      if n.xattr != 0 && (n.xattr < end || n.xattr >= sb.nrBlocks) {
        errors := errors + 1;
      }
    }

    /** `check_root_extent_block`. */
    method CheckRootExtents(sb: Super, index: ExtentIndex)
      modifies this
      ensures errors == old(errors) + IndexErrors(sb, index) && warnings == old(warnings) + IndexWarnings(index)
    {
      if index.nrFiles > MAX_SUBFILES {
        errors := errors + 1;
      }
      if index.nrFiles == 0 {
        return;
      }
      ghost var e0, w0 := errors, warnings;
      var i := 0;
      while i < |index.extents| && index.extents[i].start != 0
        invariant 0 <= i <= |index.extents|
        invariant errors + ExtentsErrors(sb, index.extents[i..]) == e0 + ExtentsErrors(sb, index.extents)
        invariant warnings + ExtentsWarnings(index.extents[i..]) == w0 + ExtentsWarnings(index.extents)
      {
        assert index.extents[i..][1..] == index.extents[i + 1..];
        errors := errors + ExtentErrors(sb, index.extents[i]);
        warnings := warnings + ExtentWarnings(index.extents[i]);
        i := i + 1;
      }
    }

    /** `check_inode_bitmap` and `check_block_bitmap`: the counted bits against the counter, and bit 0. */
    method CheckBitmap(words: seq<Word>, nrBitmapBlocks: nat, nr: nat, expected: nat)
      requires |words| == 512 * nrBitmapBlocks > 0
      modifies this`errors
      ensures errors == old(errors) + BitmapErrors(words, nr, expected)
    {
      var free := CountFree(words, nrBitmapBlocks, nr);
      if free != expected { errors := errors + 1; }
      ByteBits(words, 0, 0);
      if ByteOf(words, 0)[0] { errors := errors + 1; }
    }

    /** The whole check: nothing is reported exactly for a clean image. */
    method Run(img: Image)
      requires Covered(img)
      modifies this
      ensures errors == old(errors) + ImageErrors(img) && warnings == old(warnings) + ImageWarnings(img)
      ensures errors == old(errors) && warnings == old(warnings) <==> Clean(img)
    {
      SilentIffClean(img);
      var ok := CheckSuperblock(img.sb);
      if !ok {
        return;
      }
      CheckRootInode(img.sb, img.root);
      CheckRootExtents(img.sb, img.index);
      CheckBitmap(img.ifree, img.sb.nrIfree, img.sb.nrInodes, img.sb.nrFreeInodes);
      CheckBitmap(img.bfree, img.sb.nrBfree, img.sb.nrBlocks, img.sb.nrFreeBlocks);
    }
  }

  // ---- what a clean superblock means ----

  predicate Fits32(sb: Super) {
    sb.nrBlocks < U32 && sb.nrInodes < U32 && sb.nrIstore < U32 && sb.nrIfree < U32 && sb.nrBfree < U32 && sb.nrFreeBlocks < U32
  }

  /** The regions and the free blocks fit on the device together. */
  predicate RegionsInside(sb: Super) {
    1 + sb.nrIstore + sb.nrIfree + sb.nrBfree + sb.nrFreeBlocks <= sb.nrBlocks
  }

  /** A superblock without errors lays its regions out on the device exactly when the 32-bit sum of their sizes does not wrap. */
  lemma LayoutInsideIff(sb: Super)
    requires Fits32(sb) && SuperErrors(sb) == 0
    ensures RegionsInside(sb) <==> 1 + sb.nrIstore + sb.nrIfree + sb.nrBfree < U32
  {
    var used := sb.nrBlocks - sb.nrFreeBlocks;
    assert (sb.nrBlocks + U32 - sb.nrFreeBlocks % U32) % U32 == used;
  }

  /** A superblock that names far more bitmap blocks than the device has, and still passes. */
  lemma WrappedLayoutPasses() returns (sb: Super)
    ensures Fits32(sb) && SuperClean(sb) && !RegionsInside(sb)
  {
    sb := Super(MAGIC, 200, 224, 4, U32 - 4, 1, 223, 193, VERSION, 1, 1, 128, 1, MAX_EXTENT_BLOCKS, MAX_EXTENT_BLOCKS_LARGE,
                0, 0, 1, 3, 65536, 4, [], [], 0, []);
    assert (1 + 4 + (U32 - 4) + 1) % U32 == 2;
  }

  // ---- mkfs ----

  /** What mkfs writes passes every check exactly when the block count, cut to 32 bits, is at least 100. */
  lemma MkfsPasses(img: Image, size: nat)
    requires UsedPrefix(SuperFor(size)) <= BITS_PER_BLOCK && Written(img, size)
    ensures Covered(img) && (Clean(img) <==> size / BLOCK_SIZE % U32 >= 100)
  {
    if size / BLOCK_SIZE % U32 >= 100 {
      LargePasses(img, size);
    }
  }

  lemma LargePasses(img: Image, size: nat)
    requires UsedPrefix(SuperFor(size)) <= BITS_PER_BLOCK && Written(img, size) && size / BLOCK_SIZE % U32 >= 100
    ensures Covered(img) && Clean(img)
  {
    var sb := SuperFor(size);
    LayoutOk(size);
    PrefixBound(size);
    SuperPasses(size);
    RootPasses(sb);
    BitmapPasses(img.ifree, 1, sb.nrInodes, sb.nrIfree);
    BitmapPasses(img.bfree, UsedPrefix(sb), sb.nrBlocks, sb.nrBfree);
  }

  lemma BitmapPasses(words: seq<Word>, n: nat, nr: nat, nrBitmapBlocks: nat)
    requires ClearedUpTo(words, n) && |words| == 512 * nrBitmapBlocks && 0 < n <= nr <= nrBitmapBlocks * BITS_PER_BLOCK
    ensures |words| > 0 && BitmapOk(words, nr, nr - n)
  {
    ClearedCount(words, n, nr);
    ClearedBits(words, n);
  }

  lemma RootPasses(sb: Super)
    requires UsedPrefix(sb) <= sb.nrBlocks < U32
    ensures RootClean(sb, RootInode(sb))
  {
    assert Readable(S_IFDIR + 0x1FD) && Searchable(S_IFDIR + 0x1FD);
  }

  lemma SuperPasses(size: nat)
    requires 100 <= size / BLOCK_SIZE % U32 <= 4294967264
    ensures SuperClean(SuperFor(size))
  {
    LayoutOk(size);
  }
}
