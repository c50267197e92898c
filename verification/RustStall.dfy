/** Writes that stop for want of room: what they leave, when it is sound, and a concrete one. */
module RustStall {
  import opened Layout
  import opened Bits
  import opened Extents
  import opened Content
  import opened DiskState
  import opened RustFs
  import opened RustPlan
  import opened RustPart
  import opened RustFile
  import opened RustNode
  import opened RustLife
  import opened RustDirGrow
  import opened RustFull
  import opened RustFormat
  import opened Ownership
  import opened RustTheorem
  import A = AbstractFs
  import D = Directory
  import R = RustRun
  import RustXattr

  // ---- what a stop leaves ----

  /** A block that is free and still referred to: no assignment of uses makes the disk sound. */
  lemma FreeAndReferredIsBad(e: Env, d: Disk, r: Roles, i: nat, p: Ref, b: nat)
    requires Refers(d, i, p, b) && b < |d.bfree| && d.bfree[b]
    ensures !Inv(e, d, r)
  {
    if Inv(e, d, r) {
      NoBlockSharedTwice(e, d, r, i, p, i, p, b);
    }
  }

  /** References do not look at the block bitmap. */
  lemma SameReferred(d: Disk, d': Disk, b: nat)
    requires d' == d.(bfree := d'.bfree, freeBlocks := d'.freeBlocks)
    ensures Referred(d', b) <==> Referred(d, b)
  {
    forall i: nat, p: Ref ensures Refers(d', i, p, b) <==> Refers(d, i, p, b) {}
  }

  /** Two sound disks that differ only in the bitmap have the same bitmap. */
  lemma BitmapDetermined(e: Env, d: Disk, r: Roles, d': Disk, r': Roles)
    requires Inv(e, d, r) && Inv(e, d', r') && d' == d.(bfree := d'.bfree, freeBlocks := d'.freeBlocks)
    ensures d'.bfree[..e.geo.nrBlocks] == d.bfree[..e.geo.nrBlocks]
  {
    forall b | 0 <= b < e.geo.nrBlocks ensures d'.bfree[b] == d.bfree[b] {
      FreeIffUnreferred(e, d, r, b);
      FreeIffUnreferred(e, d', r', b);
      SameReferred(d, d', b);
    }
  }

  /** Only the bitmap past the last block and the counter may differ. */
  predicate SameBits(e: Env, d: Disk, d': Disk) {
    && Shape(e, d) && Shape(e, d') && d' == d.(bfree := d'.bfree, freeBlocks := Count(d.bfree[..e.geo.nrBlocks]))
    && d'.bfree[..e.geo.nrBlocks] == d.bfree[..e.geo.nrBlocks]
  }

  lemma NodeSame(e: Env, d: Disk, r: Roles, d': Disk, j: nat)
    requires Inv(e, d, r) && SameBits(e, d, d') && Live(d, j)
    ensures NodeOk(e, d', r, j) && NodeView(e, d', j) == NodeView(e, d, j)
  {
    NodeSound(e, d, r, j);
    BlocksAgree(d, r, d', j, false);
    BlocksAgree(d, r, d', j, true);
    NodeFrame(e, d, r, d', r, j);
  }

  lemma SameBitsOk(e: Env, d: Disk, r: Roles, d': Disk)
    requires Shape(e, d) && BitsOk(e, d, r) && SameBits(e, d, d')
    ensures BitsOk(e, d', r)
  {
    forall b | 0 <= b < |r| ensures d'.bfree[b] == d.bfree[b] {
      assert d'.bfree[..e.geo.nrBlocks][b] == d.bfree[..e.geo.nrBlocks][b];
    }
  }

  lemma SameBitsView(e: Env, d: Disk, r: Roles, d': Disk)
    requires Inv(e, d, r) && SameBits(e, d, d')
    ensures ViewOf(e, d') == ViewOf(e, d)
  {
    forall j: nat ensures j in ViewOf(e, d) <==> Live(d', j) { ViewAt(e, d, j); }
    forall j: nat | j in ViewOf(e, d) ensures Live(d', j) && ViewOf(e, d)[j] == NodeView(e, d', j) {
      ViewAt(e, d, j);
      NodeSame(e, d, r, d', j);
    }
    ViewIs(e, d', ViewOf(e, d));
  }

  lemma SameBitsSound(e: Env, d: Disk, r: Roles, d': Disk)
    requires Good(e, d, r) && SameBits(e, d, d')
    ensures Good(e, d', r)
  {
    forall j | 0 <= j < |d'.inodes| && Live(d', j) ensures NodeOk(e, d', r, j) { NodeSame(e, d, r, d', j); }
    AllSound(e, d', r, |d'.inodes|);
    SameBitsOk(e, d, r, d');
    SameBitsView(e, d, r, d');
  }

  /** After a rebuild without room the disk is sound if and only if the plan gave every block back that it took, which the disk before decides. */
  lemma StopIsSoundIff(e: Env, d: Disk, r: Roles, d': Disk, i: nat, x: bool, n: nat)
    requires Good(e, d, r) && i < |d.inodes| && PartStopped(e, d, d', i, x, n)
    ensures R.Sound(e, d') <==> PlanFor(e, d, i, x, n).bits == d.bfree[..e.geo.nrBlocks]
  {
    if R.Sound(e, d') {
      var r' :| Good(e, d', r');
      BitmapDetermined(e, d, r, d', r');
    }
    if PlanFor(e, d, i, x, n).bits == d.bfree[..e.geo.nrBlocks] {
      SameBitsSound(e, d, r, d');
    }
  }

  /** The next inode that is given such a block shares it. */
  lemma NextClaimShares(d: Disk, i: nat, p: Ref, b: nat, d': Disk, j: nat, n: Inode)
    requires Refers(d, i, p, b) && Head(d.inodes[i], p.x) != b && Claimed(d, d', j, b, n) && n.ei == b != 0
    ensures !NoSharing(d')
  {
    assert i != j;
    assert MapOf(d', i, p.x) == MapOf(d, i, p.x);
    assert Refers(d', i, p, b) && Refers(d', j, IndexRef(false), b);
  }

  // ---- a disk on which a write stops ----

  const NAME: D.Name := [97]

  /** Root directory in blocks 5 and 9 to 99, a file of one byte in blocks 6 and 7, block 8 free. */
  function StallDisk(): Disk {
    Disk(110, 1,
         NewInodes(SMALL)[0 := Template(S_IFDIR + 0x1ED, 2, 5).(blocks := 91, size := 259)]
                         [1 := Template(S_IFREG + 0x1A4, 1, 7).(blocks := 1, size := 1)],
         NewIfree(SMALL)[1 := false], seq(BITS_PER_BLOCK, b => b == 8), seq(100, b => StallBlock(b)))
  }

  function StallBlock(b: int): Block {
    if b == 5 then Index(ExtentIndex(1, PadTable(BlockTable(91, 9))))
    else if b == 7 then Index(ExtentIndex(0, PadTable(BlockTable(1, 6))))
    else if b == 9 then DirBlock(EmptyDirBlock().slots[0 := Slot(1, NAME)])
    else if b > 9 then EmptyDirBlock()
    else Raw(Zeros(BLOCK_SIZE))
  }

  function StallRoles(): (r: Roles)
    ensures |r| == 100
    ensures forall b {:trigger r[b]} :: 0 <= b < 100 ==> r[b] == StallRole(b)
  {
    seq(100, b requires 0 <= b => StallRole(b))
  }

  function StallRole(b: nat): Role {
    if b < 5 then Meta else if b == 5 then Idx(0) else if b == 6 then Data(1, 0) else if b == 7 then Idx(1)
    else if b == 8 then Free else Data(0, b - 9)
  }

  lemma StallInodes()
    ensures var d := StallDisk(); var n0 := d.inodes[0]; var n1 := d.inodes[1];
      && SmallInode(n0) && SmallInode(n1) && IsDir(n0) && n0.nlink == 2 && n0.size == 259 && n0.ei == 5 && n0.xattr == 0 && n0.blocks == 91
      && !IsDir(n1) && !IsSymlink(n1) && n1.nlink == 1 && n1.size == 1 && n1.ei == 7 && n1.xattr == 0 && n1.blocks == 1
  {
    assert FileType(S_IFDIR + 0x1ED) == S_IFDIR && FileType(S_IFREG + 0x1A4) == S_IFREG;
  }

  lemma StallHeads()
    ensures |StallDisk().blocks| == 100 && StallDisk().blocks[5] == StallBlock(5) && StallDisk().blocks[7] == StallBlock(7)
  {
  }

  lemma TableOfHead(d: Disk, i: nat, b: nat, nr: nat, n: nat, base: nat)
    requires i < |d.inodes| && d.inodes[i].ei == b && 0 < b < |d.blocks| && n <= MAX_EXTENTS
    requires d.blocks[b] == Index(ExtentIndex(nr, PadTable(BlockTable(n, base))))
    ensures Table(d, i, false) == BlockTable(n, base)
  {
    BlockTableIndex(n, base);
  }

  lemma StallTables()
    ensures Table(StallDisk(), 0, false) == BlockTable(91, 9) && Table(StallDisk(), 1, false) == BlockTable(1, 6)
  {
    StallInodes();
    StallHeads();
    TableOfHead(StallDisk(), 0, 5, 1, 91, 9);
    TableOfHead(StallDisk(), 1, 7, 0, 1, 6);
  }

  lemma StallMaps()
    ensures var m0 := MapOf(StallDisk(), 0, false);
      |m0| == 91 && (forall k :: 0 <= k < 91 ==> m0[k] == 9 + k) && MapOf(StallDisk(), 1, false) == [6]
  {
    StallTables();
    BlockTableIndex(91, 9);
    BlockTableIndex(1, 6);
  }

  lemma StallCounts(e: Env)
    requires e.geo == SMALL && SmallAlgos(e.cfg)
    ensures Shape(e, StallDisk()) && BitsOk(e, StallDisk(), StallRoles())
    ensures forall i: nat :: Live(StallDisk(), i) <==> i < 2
  {
    var d := StallDisk();
    CountWindow(d.bfree[..100], 8, 9);
    CountWindow(d.ifree[..112], 2, 112);
  }

  // The parts, on any disk with these index blocks and maps.

  lemma RootBacked(m: seq<nat>)
    requires |m| == 91 && forall k :: 0 <= k < 91 ==> m[k] == 9 + k
    ensures Backed(StallRoles(), m, 0, false) && OwnsOnly(StallRoles(), 5, m, 0, false)
  {
    var r := StallRoles();
    forall b | 0 <= b < |r| && InPart(r[b], 0, false) ensures Justified(5, m, r[b], b) {
      assert r[b] == StallRole(b);
    }
  }

  lemma RootPart(d: Disk, m: seq<nat>)
    requires |d.inodes| > 1 && |d.blocks| == 100 && d.inodes[0].ei == 5 && IsHead(d.blocks[5], false)
    requires ValidIndex(HeadExtents(d.blocks[5], false)) && TableMap(d, 5, false) == m
    requires |m| == 91 && forall k :: 0 <= k < 91 ==> m[k] == 9 + k
    ensures PartOk(d, StallRoles(), 0, false)
  {
    RootBacked(m);
    assert StallRoles()[5] == StallRole(5);
  }

  lemma FilePart(d: Disk)
    requires |d.inodes| > 1 && |d.blocks| == 100 && d.inodes[1].ei == 7 && IsHead(d.blocks[7], false)
    requires ValidIndex(HeadExtents(d.blocks[7], false)) && TableMap(d, 7, false) == [6]
    ensures PartOk(d, StallRoles(), 1, false)
  {
    var r := StallRoles();
    forall b | 0 <= b < |r| && InPart(r[b], 1, false) ensures Justified(7, [6], r[b], b) {}
  }

  lemma NoAttributes(e: Env, d: Disk, i: nat)
    requires i < |d.inodes| && d.inodes[i].xattr == 0
    ensures PartOk(d, StallRoles(), i, true) && XPayloadOk(e, d, i) && XattrView(e, d, i) == map[]
  {
    RustXattr.AsMapEmpty([]);
  }

  /** One entry in the first slot of 91 directory blocks. */
  lemma OneEntry(bs: seq<Block>)
    requires |bs| == 91 && forall k :: 0 <= k < 91 ==> bs[k] == StallBlock(9 + k)
    ensures AllDirs(bs) && SlotsOf(bs) == seq(15 * 91, _ => EMPTY_SLOT)[0 := Slot(1, NAME)]
  {
    forall p | 0 < p < 15 * 91 ensures SlotsOf(bs)[p] == EMPTY_SLOT {
      assert bs[p / 15] == StallBlock(9 + p / 15);
    }
    assert bs[0] == StallBlock(9);
  }

  lemma OneEntryMeans()
    ensures var slots := seq(15 * 91, _ => EMPTY_SLOT)[0 := Slot(1, NAME)];
      D.WellFormed(slots) && D.CountVisible(slots) == 1 && D.Entries(slots) == map[NAME := 1]
  {
    var none := seq(15 * 91, _ => EMPTY_SLOT);
    assert none == [] + none;
    D.AppendEmpty([], 15 * 91);
    D.FillIsAdd(none, 0, NAME, 1);
    D.CountUpdate(none, 0, Slot(1, NAME));
  }

  lemma RootSlots()
    ensures var bs := Picked(StallDisk(), MapOf(StallDisk(), 0, false));
      && |bs| == 91 && AllDirs(bs) && D.WellFormed(SlotsOf(bs)) && D.CountVisible(SlotsOf(bs)) == 1 && D.Entries(SlotsOf(bs)) == map[NAME := 1]
  {
    StallMaps();
    var bs := Picked(StallDisk(), MapOf(StallDisk(), 0, false));
    OneEntry(bs);
    OneEntryMeans();
  }

  lemma RootNode(e: Env)
    requires e.geo == SMALL && SmallAlgos(e.cfg)
    ensures NodeOk(e, StallDisk(), StallRoles(), 0) && NodeView(e, StallDisk(), 0) == A.Dir(2, map[], map[NAME := 1])
  {
    var d := StallDisk();
    StallInodes();
    StallMaps();
    BlockTableIndex(91, 9);
    RootSlots();
    RootPart(d, MapOf(d, 0, false));
    NoAttributes(e, d, 0);
    assert d.blocks[5] == StallBlock(5);
  }

  /** The file, on any disk with these blocks. */
  lemma FileNodeOn(e: Env, d: Disk, n: Inode)
    requires |d.inodes| > 1 && |d.blocks| == 100 && d.inodes[1] == n && IsRegular(n) && SmallInode(n) && n.ei == 7 && n.xattr == 0 && n.size == n.blocks == n.nlink == 1
    requires IsHead(d.blocks[7], false) && ValidIndex(HeadExtents(d.blocks[7], false)) && NrFiles(d.blocks[7]) == 0
    requires MapOf(d, 1, false) == [6] && d.blocks[6] == Raw(Zeros(BLOCK_SIZE))
    ensures NodeOk(e, d, StallRoles(), 1) && NodeView(e, d, 1).File? && NodeView(e, d, 1).nlink == 1
  {
    FilePart(d);
    NoAttributes(e, d, 1);
    OneRawBlock(d, n);
    FilePayload(e, d, 1, n, [6]);
  }

  lemma OneRawBlock(d: Disk, n: Inode)
    requires |d.blocks| == 100 && d.blocks[6] == Raw(Zeros(BLOCK_SIZE)) && n.size == n.blocks == 1
    ensures FileOk(n, Picked(d, [6]))
  {
    assert Picked(d, [6]) == [Raw(Zeros(BLOCK_SIZE))];
  }

  lemma FileNode(e: Env)
    requires e.geo == SMALL && SmallAlgos(e.cfg)
    ensures NodeOk(e, StallDisk(), StallRoles(), 1)
    ensures NodeView(e, StallDisk(), 1).File? && NodeView(e, StallDisk(), 1).nlink == 1
  {
    var d := StallDisk();
    StallInodes();
    StallMaps();
    BlockTableIndex(1, 6);
    assert d.blocks[7] == StallBlock(7) && d.blocks[6] == StallBlock(6);
    FileNodeOn(e, d, d.inodes[1]);
  }

  /** A root with one file in it. */
  function OneFileView(file: A.Node): A.View {
    map[0 := A.Dir(2, map[], map[NAME := 1]), 1 := file]
  }

  lemma OneFileLinked(file: A.Node)
    requires file.File? && file.nlink == 1
    ensures A.Linked(OneFileView(file))
  {
    A.NewLinked();
    A.CreateKeepsLinks(A.NEW_VIEW, A.ROOT, NAME, 1, file);
    assert A.Create(A.NEW_VIEW, A.ROOT, NAME, 1, file) == OneFileView(file);
  }

  lemma StallView(e: Env)
    requires e.geo == SMALL && SmallAlgos(e.cfg)
    ensures ViewOf(e, StallDisk()) == OneFileView(NodeView(e, StallDisk(), 1))
  {
    StallCounts(e);
    RootNode(e);
    ViewIs(e, StallDisk(), OneFileView(NodeView(e, StallDisk(), 1)));
  }

  lemma StallOwners(d: Disk)
    requires forall i: nat :: Live(d, i) <==> i < 2
    ensures NoOrphans(d, StallRoles())
  {
  }

  lemma StallSound(e: Env, d: Disk, r: Roles)
    requires |d.inodes| > 1 && NodeOk(e, d, r, 0) && NodeOk(e, d, r, 1) && forall i: nat :: Live(d, i) <==> i < 2
    ensures SoundBelow(e, d, r, |d.inodes|)
  {
    forall i | 0 <= i < |d.inodes| && Live(d, i) ensures NodeOk(e, d, r, i) {
      assert i == 0 || i == 1;
    }
    AllSound(e, d, r, |d.inodes|);
  }

  /** The disk is sound. */
  lemma StallIsGood(e: Env)
    requires e.geo == SMALL && SmallAlgos(e.cfg)
    ensures Good(e, StallDisk(), StallRoles())
  {
    var d := StallDisk();
    StallCounts(e);
    StallOwners(d);
    RootNode(e);
    FileNode(e);
    StallSound(e, d, StallRoles());
    StallView(e);
    OneFileLinked(NodeView(e, d, 1));
  }

  // ---- the write ----

  /** Free bits after the write: the block of the file and block 8. */
  function StallBits(): seq<bool> {
    seq(100, b => b == 6 || b == 8)
  }

  lemma FreedSix(s: seq<bool>)
    requires |s| >= 100 && forall b :: 0 <= b < |s| ==> s[b] == (b == 8)
    ensures FreedBits(s, [6])[..100] == StallBits()
  {
  }

  lemma StallReady(e: Env)
    requires e.geo == SMALL && Shape(e, StallDisk())
    ensures ReadyBits(e, StallDisk(), 1, false) == StallBits()
  {
    var d := StallDisk();
    StallMaps();
    StallInodes();
    FreedSix(d.bfree);
  }

  lemma StallBitsCount()
    ensures Count(StallBits()) == 2 && !RunFrom(StallBits(), 5, 2)
  {
    var bits, none := StallBits(), seq(100, _ => false);
    assert bits == none[6 := true][8 := true];
    CountUniform(none, false);
    CountUpdate(none, 6, true);
    CountUpdate(none[6 := true], 8, true);
    forall p: nat | 5 <= p ensures !Run(bits, p, 2) { if p + 2 <= 100 { assert !bits[p] || !bits[p + 1]; } }
  }

  lemma StallPlan(e: Env)
    requires e.geo == SMALL && Shape(e, StallDisk()) && R.UsualExtents(e.cfg)
    ensures PlanFor(e, StallDisk(), 1, false, 2) == Plan(Some(NoSpace), StallBits())
  {
    StallReady(e);
    StallBitsCount();
    assert NextSize(e, 2, 0, 2) == 2;
  }

  lemma StallError(e: Env)
    requires e.geo == SMALL && Shape(e, StallDisk()) && R.UsualExtents(e.cfg)
    ensures WriteError(e, StallDisk(), 1, Zeros(BLOCK_SIZE + 1)) == Some(NoSpace)
  {
    StallInodes();
    StallPlan(e);
    assert NumBlocks(BLOCK_SIZE + 1) == 2;
  }

  /** The state after the write. */
  lemma StallLeaves(e: Env, d': Disk)
    requires e.geo == SMALL && SmallAlgos(e.cfg) && R.UsualExtents(e.cfg)
    requires Shape(e, StallDisk()) && PartStopped(e, StallDisk(), d', 1, false, 2)
    ensures d'.freeBlocks == 2 && 6 < |d'.bfree| && d'.bfree[6] && Refers(d', 1, MapRef(false, 0), 6) && !R.Sound(e, d')
  {
    StallIsGood(e);
    StallPlan(e);
    StallMaps();
    StallBitsCount();
    StallCounts(e);
    assert d'.bfree[..100][6] && !StallDisk().bfree[..100][6];
    assert MapOf(d', 1, false) == MapOf(StallDisk(), 1, false);
    StopIsSoundIff(e, StallDisk(), StallRoles(), d', 1, false, 2);
  }

  /** Two blocks do not fit, though two are free: the file's block is now free and still its block. */
  method WriteStalls(cfg: Config, utf8: Bytes -> bool) returns (r: Result<()>, fs: LolelfFs)
    requires SmallAlgos(cfg) && R.UsualExtents(cfg)
    ensures fresh(fs) && fs.env == Env(SMALL, cfg, utf8)
    ensures r == Err(NoSpace) && fs.freeBlocks == 2
    ensures Refers(fs.Snap(), 1, MapRef(false, 0), 6) && 6 < |fs.bfree| && fs.bfree[6]
    ensures !R.Sound(fs.env, fs.Snap())
    ensures fs.Sound() && BitmapOnly(fs.env, StallDisk(), fs.Snap(), StallBits())
  {
    var e := Env(SMALL, cfg, utf8);
    StallIsGood(e);
    StallError(e);
    StallPlan(e);
    StallInodes();
    fs := new LolelfFs(e, StallDisk(), StallRoles());
    assert NumBlocks(BLOCK_SIZE + 1) == 2;
    r := WriteFile(fs, 1, Zeros(BLOCK_SIZE + 1));
    StallLeaves(e, fs.Snap());
  }

  lemma FirstIsSix()
    ensures FirstFit(StallBits(), 5, 6, 1)
  {
    assert StallBits()[6] && !StallBits()[5];
  }

  /** Then `create_file` claims an inode and an index block: it is given the block of the file. */
  method NextFileShares(cfg: Config, utf8: Bytes -> bool) returns (fs: LolelfFs)
    requires SmallAlgos(cfg) && R.UsualExtents(cfg)
    ensures Refers(fs.Snap(), 1, MapRef(false, 0), 6) && Refers(fs.Snap(), 2, IndexRef(false), 6) && !NoSharing(fs.Snap())
  {
    var r;
    r, fs := WriteStalls(cfg, utf8);
    ghost var d := fs.Snap();
    StallInodes();
    var c := ClaimNode(fs);
    var (i, b) := c.value;
    assert LeastFreeInode(d.ifree, 2) && i == 2;
    FirstIsSix();
    FirstFitUnique(StallBits(), 5, b, 6, 1);
    fs.inodes := fs.inodes[i := Template(S_IFREG + 0x1A4, 1, b)];
    fs.blocks := fs.blocks[b := Index(EmptyIndex())];
    NextClaimShares(d, 1, MapRef(false, 0), 6, fs.Snap(), i, fs.inodes[i]);
  }
}
