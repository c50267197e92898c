/** mkfs (src/mkfs.c): layout arithmetic and the image it writes. */
module Mkfs {
  import opened Layout
  import opened MkfsBitmap

  const MAGIC: nat := 0x101E_1FF5
  const VERSION: nat := 1

  /** The superblock fields. */
  datatype Super = Super(
    magic: nat, nrBlocks: nat, nrInodes: nat, nrIstore: nat, nrIfree: nat, nrBfree: nat, nrFreeInodes: nat, nrFreeBlocks: nat,
    version: nat, compAlgo: nat, compEnabled: nat, compMin: nat, compFeatures: nat, maxExtent: nat, maxExtentLarge: nat,
    encEnabled: nat, encAlgo: nat, kdfAlgo: nat, kdfIterations: nat, kdfMemory: nat, kdfParallelism: nat,
    salt: Bytes, masterKey: Bytes, encFeatures: nat, reserved: seq<nat>)

  /** What the checker reads: superblock, root inode, root index block and both bitmaps. */
  datatype Image = Image(sb: Super, root: Inode, index: ExtentIndex, ifree: seq<Word>, bfree: seq<Word>)

  /** `idiv_ceil`: the least number of units of `b` that hold `a`. */
  function IdivCeil(a: nat, b: nat): (r: nat)
    requires b > 0
    ensures r * b >= a && (r > 0 ==> (r - 1) * b < a)
  {
    var q := a / b;
    if a % b != 0 then q + 1 else q
  }

  function RoundedInodes(nr: nat): (r: nat)
    ensures r % INODES_PER_BLOCK == 0 && nr <= r < nr + INODES_PER_BLOCK
  {
    var m := nr % INODES_PER_BLOCK;
    if m != 0 then nr + (INODES_PER_BLOCK - m) else nr
  }

  /** Blocks before the data area, plus the root directory's index block. */
  function UsedPrefix(sb: Super): nat {
    sb.nrIstore + sb.nrIfree + sb.nrBfree + 2
  }

  /** `write_superblock`: every field is cut to 32 bits. */
  function SuperFor(size: nat): (sb: Super) {
    var nr := size / BLOCK_SIZE % U32;
    var inodes := RoundedInodes(nr) % U32;
    var istore, ifree, bfree := IdivCeil(inodes, INODES_PER_BLOCK), IdivCeil(inodes, BITS_PER_BLOCK), IdivCeil(nr, BITS_PER_BLOCK);
    Super(MAGIC, nr, inodes, istore, ifree, bfree, (inodes - 1) % U32, (nr - 1 - istore - ifree - bfree - 1) % U32,
          VERSION, 1, 1, 128, 1, MAX_EXTENT_BLOCKS, MAX_EXTENT_BLOCKS_LARGE,
          0, 0, 1, 3, 65536, 4, seq(32, _ => 0), seq(32, _ => 0), 0, [0, 0, 0])
  }

  /** The regions follow each other from block 0, leave room for data, and cover what they must. */
  predicate LaidOut(sb: Super) {
    var g := Geometry(sb.nrBlocks, sb.nrInodes, sb.nrIstore, sb.nrIfree, sb.nrBfree);
    && 0 < 1 < g.IfreeStart() < g.BfreeStart() < g.DataStart() < UsedPrefix(sb) < sb.nrBlocks
    && g.DataStart() + 1 == UsedPrefix(sb)
    && sb.nrInodes == sb.nrIstore * INODES_PER_BLOCK
    && sb.nrInodes <= sb.nrIfree * BITS_PER_BLOCK && sb.nrBlocks <= sb.nrBfree * BITS_PER_BLOCK
    && sb.nrFreeBlocks == sb.nrBlocks - UsedPrefix(sb) && sb.nrFreeInodes == sb.nrInodes - 1
  }

  lemma RegionsFit(nr: nat)
    requires nr >= 6
    ensures var i := RoundedInodes(nr);
      IdivCeil(i, INODES_PER_BLOCK) + IdivCeil(i, BITS_PER_BLOCK) + IdivCeil(nr, BITS_PER_BLOCK) + 2 < nr
    ensures IdivCeil(RoundedInodes(nr), INODES_PER_BLOCK) == RoundedInodes(nr) / INODES_PER_BLOCK
  {
  }

  /** The layout is sound exactly for these block counts; the size is not the block count once it is cut to 32 bits. */
  lemma LayoutOk(size: nat)
    ensures LaidOut(SuperFor(size)) <==> 6 <= size / BLOCK_SIZE % U32 <= 4294967264
  {
    var nr := size / BLOCK_SIZE % U32;
    if nr >= 6 {
      RegionsFit(nr);
    }
    if nr > 4294967264 {
      assert RoundedInodes(nr) == 4294967320;
    } else {
      assert RoundedInodes(nr) <= 4294967264;
    }
  }

  /** A used prefix that fits the first bitmap block keeps the rounded inode count within 32 bits. */
  lemma PrefixBound(size: nat)
    requires UsedPrefix(SuperFor(size)) <= BITS_PER_BLOCK
    ensures size / BLOCK_SIZE % U32 <= 4294967264
  {
  }

  /** The root inode of `write_inode_store`. */
  function RootInode(sb: Super): Inode {
    Inode(S_IFDIR + 0x1FD, 0, 0, BLOCK_SIZE, 0, 0, 0, 1, 2, 1 + sb.nrBfree + sb.nrIfree + sb.nrIstore, 0, seq(28, _ => 0))
  }

  /** The first bitmap block is written even when the superblock names none. */
  function AtLeastOne(n: nat): nat { if n == 0 then 1 else n }

  /** `write_ifree_blocks`: only inode 0 is taken. */
  method InodeBitmap(sb: Super) returns (words: seq<Word>)
    ensures |words| == 512 * AtLeastOne(sb.nrIfree) && ClearedUpTo(words, 1)
  {
    words := [And(Ones(), Not(OneHot(0)))] + seq(511, _ => Ones());
    assert ClearedUpTo(words, 1);
    for i := 1 to AtLeastOne(sb.nrIfree)
      invariant |words| == 512 * i && ClearedUpTo(words, 1)
    {
      words := AddOnes(words, 1);
    }
  }

  /** One more bitmap block of ones. */
  method AddOnes(words: seq<Word>, ghost n: nat) returns (r: seq<Word>)
    requires ClearedUpTo(words, n) && n <= 64 * |words|
    ensures |r| == |words| + 512 && ClearedUpTo(r, n)
  {
    r := words + seq(512, _ => Ones());
    forall i | 0 <= i < |r| ensures r[i] == Cleared(if n > 64 * i then n - 64 * i else 0) {
      if i >= |words| { assert r[i] == Ones() == Cleared(0); }
    }
  }

  /** `write_bfree_blocks`. */
  method BlockBitmap(sb: Super) returns (words: seq<Word>)
    requires UsedPrefix(sb) <= BITS_PER_BLOCK
    ensures |words| == 512 * AtLeastOne(sb.nrBfree) && ClearedUpTo(words, UsedPrefix(sb))
  {
    var first := FirstBlock(UsedPrefix(sb));
    words := first[..];
    for i := 1 to AtLeastOne(sb.nrBfree)
      invariant |words| == 512 * i && ClearedUpTo(words, UsedPrefix(sb))
    {
      words := AddOnes(words, UsedPrefix(sb));
    }
  }

  /** An image as mkfs writes it for a device of `size` bytes. */
  predicate Written(img: Image, size: nat) {
    var sb := SuperFor(size);
    && img.sb == sb && img.root == RootInode(sb) && img.index == EmptyIndex()
    && |img.ifree| == 512 * AtLeastOne(sb.nrIfree) && ClearedUpTo(img.ifree, 1)
    && |img.bfree| == 512 * AtLeastOne(sb.nrBfree) && ClearedUpTo(img.bfree, UsedPrefix(sb))
  }

  /** mkfs: refuses devices of at most 100 blocks. */
  method Make(size: nat) returns (r: Result<Image>)
    requires UsedPrefix(SuperFor(size)) <= BITS_PER_BLOCK
    ensures r.Err? <==> size <= 100 * BLOCK_SIZE
    ensures r.Ok? ==> Written(r.value, size)
  {
    if size <= 100 * BLOCK_SIZE {
      return Err(TooSmall);
    }
    var sb := SuperFor(size);
    var ifree := InodeBitmap(sb);
    var bfree := BlockBitmap(sb);
    return Ok(Image(sb, RootInode(sb), EmptyIndex(), ifree, bfree));
  }
}
