/** A disk of the Rust library as the checker reads it, and what the checker says about it. */
module RustImage {
  import opened Layout
  import opened Bits
  import opened Extents
  import opened DiskState
  import opened MkfsBitmap
  import opened Mkfs
  import opened Fsck
  import opened RustDir
  import RustFormat
  import RustLife
  import A = AbstractFs
  import D = Directory

  // ---- the image ----

  /** The encryption choice of `create_with_encryption`. */
  datatype Encryption = Plain | Password(algo: byte, iterations: nat, salt: Bytes, masterKey: Bytes)

  /** The superblock that `create_with_encryption` writes, with the current counters. */
  function SuperOf(g: Geometry, freeInodes: nat, freeBlocks: nat, enc: Encryption): Super {
    var on := enc.Password?;
    Super(MAGIC, g.nrBlocks, g.nrInodes, g.nrIstore, g.nrIfree, g.nrBfree, freeInodes, freeBlocks,
          VERSION, 1, 1, 128, 1, MAX_EXTENT_BLOCKS, MAX_EXTENT_BLOCKS_LARGE,
          One(on), if on then enc.algo else 0, if on then 2 else 1, if on then enc.iterations else 3, 65536, 4,
          if on then enc.salt else Zeros(32), if on then enc.masterKey else Zeros(32), 0, [0, 0, 0])
  }

  /** A bitmap as little-endian words. */
  function WordsOf(bits: seq<bool>): (words: seq<Word>)
    ensures |words| == |bits| / 64
  {
    seq(|bits| / 64, i requires 0 <= i < |bits| / 64 => bits[64 * i..64 * i + 64])
  }

  lemma WordsInvert(bits: seq<bool>)
    requires |bits| % 64 == 0
    ensures BitsOf(WordsOf(bits)) == bits
  {
    forall p | 0 <= p < |bits| ensures BitsOf(WordsOf(bits))[p] == bits[p] {
      assert WordsOf(bits)[p / 64] == bits[64 * (p / 64)..64 * (p / 64) + 64];
    }
  }

  function IndexIn(b: Block): ExtentIndex { if b.Index? then b.ei else EmptyIndex() }

  function ImageOf(g: Geometry, d: Disk, enc: Encryption): Image
    requires |d.inodes| > 0
  {
    Image(SuperOf(g, d.freeInodes, d.freeBlocks, enc), d.inodes[0], IndexIn(BlockAt(d, d.inodes[0].ei)),
          WordsOf(d.ifree), WordsOf(d.bfree))
  }

  // ---- the root ----

  lemma RootLives(e: Env, d: Disk, r: Roles)
    requires Good(e, d, r)
    ensures Live(d, 0) && IsDir(d.inodes[0]) && d.inodes[0].nlink >= 2
  {
    ViewAt(e, d, 0);
    assert A.Counted(ViewOf(e, d), A.ROOT);
  }

  lemma RootPlaces(e: Env, d: Disk, r: Roles)
    requires Good(e, d, r) && Live(d, 0)
    ensures d.inodes[0].ei != 0 ==> e.geo.DataStart() <= d.inodes[0].ei < e.geo.nrBlocks
    ensures d.inodes[0].xattr != 0 ==> e.geo.DataStart() <= d.inodes[0].xattr < e.geo.nrBlocks
  {
    NodeSound(e, d, r, 0);
    RustLife.PartHead(e, d, r, 0, false);
    RustLife.PartHead(e, d, r, 0, true);
  }

  /** No number of 259-byte entries fills one block exactly. */
  lemma NeverOneBlock(k: nat)
    ensures FILE_ENTRY_SIZE * k != BLOCK_SIZE
  {
    if k <= 15 {
      assert 259 * k <= 3885;
    } else {
      assert 259 * k >= 4144;
    }
  }

  /**
   * The root of every sound disk: an error exactly while it has no block, always the size warning,
   * a warning for each missing owner permission, and nothing else.
   */
  lemma RootReport(e: Env, d: Disk, r: Roles, sb: Super)
    requires Good(e, d, r)
    requires Geometry(sb.nrBlocks, sb.nrInodes, sb.nrIstore, sb.nrIfree, sb.nrBfree) == e.geo
    ensures |d.inodes| > 0 && var n := d.inodes[0];
      && RootErrors(sb, n) == One(n.blocks == 0)
      && RootWarnings(n) == 1 + One(!Readable(n.mode)) + One(!Searchable(n.mode))
  {
    RootLives(e, d, r);
    RootPlaces(e, d, r);
    RootSize(e, d, r);
    RootTally(sb, d.inodes[0]);
  }

  lemma RootSize(e: Env, d: Disk, r: Roles)
    requires Inv(e, d, r) && Live(d, 0) && IsDir(d.inodes[0])
    ensures d.inodes[0].ei != 0 && d.inodes[0].size != BLOCK_SIZE
  {
    DirShape(e, d, r, 0);
    NeverOneBlock(d.blocks[d.inodes[0].ei].ei.nrFiles);
  }

  lemma RootTally(sb: Super, n: Inode)
    requires IsDir(n) && n.nlink >= 2 && n.size != BLOCK_SIZE && InDataArea(sb, n.ei) && (n.xattr == 0 || InDataArea(sb, n.xattr))
    ensures RootErrors(sb, n) == One(n.blocks == 0)
    ensures RootWarnings(n) == 1 + One(!Readable(n.mode)) + One(!Searchable(n.mode))
  {
  }

  // ---- the root's index block ----

  lemma {:induction false} VisibleBound(slots: seq<Slot>)
    ensures D.CountVisible(slots) <= |slots|
  {
    if slots != [] { VisibleBound(slots[..|slots| - 1]); }
  }

  /** A directory of one-block extents holds at most 15 entries in each of its 170 extents. */
  lemma FewFiles(e: Env, d: Disk, r: Roles, i: nat)
    requires Inv(e, d, r) && Live(d, i) && IsDir(d.inodes[i])
    ensures var h := d.inodes[i].ei;
      h < |d.blocks| && d.blocks[h].Index? && d.blocks[h].ei.nrFiles <= FILES_PER_BLOCK * MAX_EXTENTS
  {
    DirShape(e, d, r, i);
    var tab := Used(d.blocks[d.inodes[i].ei].ei.extents);
    PlainPhys(tab);
    VisibleBound(DirSlots(d, i));
  }

  lemma {:induction false} StartedAt(exts: seq<Extent>, i: nat)
    requires i < Started(exts)
    ensures exts[i].start != 0
  {
    if i > 0 { StartedAt(exts[1..], i - 1); }
  }

  lemma CleanPlain(sb: Super, x: Extent)
    requires x == PlainExtent(x.block, 1, x.start) && x.start < sb.nrBlocks < U32 && sb.maxExtentLarge > 0
    ensures CleanExtent(sb, x)
  {
  }

  /** The extents of a sound directory are plain blocks of the device. */
  lemma DirExtentPlain(e: Env, d: Disk, r: Roles, i: nat, exts: seq<Extent>, j: nat)
    requires Inv(e, d, r) && Live(d, i) && IsDir(d.inodes[i])
    requires exts == IndexIn(BlockAt(d, d.inodes[i].ei)).extents && j < |exts| && exts[j].start != 0
    ensures exts[j] == PlainExtent(exts[j].block, 1, exts[j].start) && exts[j].start < e.geo.nrBlocks
  {
    DirShape(e, d, r, i);
    var tab, m := Used(exts), MapOf(d, i, false);
    assert j < UsedCount(exts) && tab[j] == exts[j];
    PhysAt(tab, j, 0);
    assert m[Offset(tab, j)] == exts[j].start;
  }

  /** Every extent of a sound directory passes the checks. */
  lemma CleanDirExtent(e: Env, d: Disk, r: Roles, i: nat, sb: Super, j: nat)
    requires Inv(e, d, r) && Live(d, i) && IsDir(d.inodes[i]) && sb.nrBlocks == e.geo.nrBlocks && sb.maxExtentLarge > 0
    requires var b := BlockAt(d, d.inodes[i].ei); j < |IndexIn(b).extents| && IndexIn(b).extents[j].start != 0
    ensures CleanExtent(sb, IndexIn(BlockAt(d, d.inodes[i].ei)).extents[j])
  {
    var exts := IndexIn(BlockAt(d, d.inodes[i].ei)).extents;
    DirExtentPlain(e, d, r, i, exts, j);
    CleanPlain(sb, exts[j]);
  }

  lemma IndexReport(e: Env, d: Disk, r: Roles, sb: Super)
    requires Good(e, d, r) && sb.nrBlocks == e.geo.nrBlocks && sb.maxExtentLarge > 0
    ensures |d.inodes| > 0
    ensures var index := IndexIn(BlockAt(d, d.inodes[0].ei)); IndexErrors(sb, index) == 0 && IndexWarnings(index) == 0
  {
    RootLives(e, d, r);
    FewFiles(e, d, r, 0);
    var index := IndexIn(BlockAt(d, d.inodes[0].ei));
    forall j | 0 <= j < Started(index.extents) ensures CleanExtent(sb, index.extents[j]) {
      StartedAt(index.extents, j);
      CleanDirExtent(e, d, r, 0, sb, j);
    }
    CleanIffAllClean(sb, index.extents);
  }

  // ---- the bitmaps ----

  lemma {:induction false} CountBound(s: seq<bool>, k: nat)
    requires k <= |s| && forall i :: 0 <= i < k ==> !s[i]
    ensures Count(s) <= |s| - k
  {
    if |s| > k {
      CountBound(s[..|s| - 1], k);
    } else {
      CountUniform(s, false);
    }
  }

  lemma WordsReport(bits: seq<bool>, nrBitmapBlocks: nat, nr: nat)
    requires |bits| == nrBitmapBlocks * BITS_PER_BLOCK && 0 < nr <= |bits| && nrBitmapBlocks <= U32 / BITS_PER_BLOCK && !bits[0]
    ensures HasBlocks(WordsOf(bits), nrBitmapBlocks) && BitmapErrors(WordsOf(bits), nr, Count(bits[..nr])) == 0
  {
    WordsInvert(bits);
  }

  // ---- the whole image ----

  /** A geometry that `create` makes. */
  predicate Created(g: Geometry) {
    MIN_BLOCKS <= g.nrBlocks < 4294967264 && g == RustFormat.GeometryFor(g.nrBlocks)
  }

  lemma BitmapBlocks(g: Geometry)
    requires Created(g)
    ensures g.nrIfree <= U32 / BITS_PER_BLOCK && g.nrBfree <= U32 / BITS_PER_BLOCK
  {
    RustFormat.InodeCountFits(g.nrBlocks);
  }

  lemma SuperReport(e: Env, d: Disk, r: Roles, enc: Encryption)
    requires Good(e, d, r) && Created(e.geo)
    ensures var sb := SuperOf(e.geo, d.freeInodes, d.freeBlocks, enc);
      && (Fatal(sb) <==> enc.Password? && enc.algo > 2)
      && (!Fatal(sb) ==> SuperErrors(sb) == 0)
      && (!Fatal(sb) ==> SuperWarnings(sb) == One(enc.Password? && enc.iterations == 0) + One(enc.Password? && enc.iterations > 1000000))
  {
    RustFormat.LayoutFits(e.geo.nrBlocks);
    var free := d.bfree[..e.geo.nrBlocks];
    forall b | 0 <= b < e.geo.DataStart() ensures !free[b] { assert r[b].Meta?; }
    CountBound(free, e.geo.DataStart());
    CountBound(d.ifree[..e.geo.nrInodes], 0);
    LayoutSilent(SuperOf(e.geo, d.freeInodes, d.freeBlocks, enc));
  }

  lemma LayoutSilent(sb: Super)
    requires sb.nrBlocks < U32 && sb.nrInodes == sb.nrIstore * INODES_PER_BLOCK && sb.nrFreeInodes <= sb.nrInodes
    requires RegionsInside(sb)
    ensures LayoutErrors(sb) == 0 && sb.nrInodes % INODES_PER_BLOCK == 0
  {
  }

  lemma BitmapsReport(e: Env, d: Disk, r: Roles)
    requires Good(e, d, r) && Created(e.geo)
    ensures HasBlocks(WordsOf(d.ifree), e.geo.nrIfree) && HasBlocks(WordsOf(d.bfree), e.geo.nrBfree)
    ensures BitmapErrors(WordsOf(d.ifree), e.geo.nrInodes, d.freeInodes) == 0
    ensures BitmapErrors(WordsOf(d.bfree), e.geo.nrBlocks, d.freeBlocks) == 0
  {
    BitmapBlocks(e.geo);
    RootLives(e, d, r);
    assert r[0].Meta?;
    WordsReport(d.ifree, e.geo.nrIfree, e.geo.nrInodes);
    WordsReport(d.bfree, e.geo.nrBfree, e.geo.nrBlocks);
  }

  /** Warnings of the checker on a sound disk: the root's size, its owner permissions, a strange iteration count. */
  function KnownWarnings(n: Inode, enc: Encryption): nat {
    1 + One(!Readable(n.mode)) + One(!Searchable(n.mode))
    + One(enc.Password? && enc.iterations == 0) + One(enc.Password? && enc.iterations > 1000000)
  }

  /**
   * The checker on every sound disk: superblock, index block and both bitmaps pass, so that the only
   * possible error is a root without blocks. An unknown cipher number stops it at the superblock.
   */
  lemma SoundDiskReport(e: Env, d: Disk, r: Roles, enc: Encryption)
    requires Good(e, d, r) && Created(e.geo)
    ensures |d.inodes| > 0 && var img := ImageOf(e.geo, d, enc);
      && Fsck.Covered(img)
      && (enc.Password? && enc.algo > 2 ==> ImageErrors(img) == 1)
      && (enc.Plain? || enc.algo <= 2 ==>
            ImageErrors(img) == One(d.inodes[0].blocks == 0) && ImageWarnings(img) == KnownWarnings(d.inodes[0], enc))
  {
    var sb := SuperOf(e.geo, d.freeInodes, d.freeBlocks, enc);
    SuperReport(e, d, r, enc);
    RootReport(e, d, r, sb);
    IndexReport(e, d, r, sb);
    BitmapsReport(e, d, r);
  }

  /** The root that `init_filesystem` writes: no blocks, size 0, mode 0755. */
  lemma NewRootKnown(g: Geometry, d: Disk)
    requires g.nrInodes > 0 && d == RustFormat.NewDisk(g, d.freeBlocks)
    ensures |d.inodes| > 0 && d.inodes[0].blocks == 0 && KnownWarnings(d.inodes[0], Plain) == 1
  {
    assert d.inodes[0] == RustLife.Template(S_IFDIR + 0x1ED, 2, g.DataStart());
    assert Readable(S_IFDIR + 0x1ED) && Searchable(S_IFDIR + 0x1ED);
  }
}
