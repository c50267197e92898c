/** A sound filesystem without a free block, and what `create_file` and `mkdir` do to it. */
module RustFull {
  import opened Layout
  import opened Bits
  import opened Extents
  import opened Content
  import opened DiskState
  import opened RustFs
  import opened RustDirGrow
  import opened RustNode
  import opened RustLife
  import opened RustFormat
  import opened RustCreate
  import A = AbstractFs
  import D = Directory

  /** The smallest device that `create` accepts. */
  const SMALL := Geometry(100, 112, 2, 1, 1)

  lemma SmallIsCreated()
    ensures SMALL == GeometryFor(MIN_BLOCKS)
  {
  }

  /** `n` blocks from `base` on, one extent each. */
  function BlockTable(n: nat, base: nat): (tab: seq<Extent>)
    ensures |tab| == n && forall k :: 0 <= k < n ==> tab[k] == PlainExtent(k, 1, base + k)
  {
    seq(n, k requires 0 <= k => PlainExtent(k, 1, base + k))
  }

  lemma BlockTableIndex(n: nat, base: nat)
    requires n <= MAX_EXTENTS
    ensures var tab := BlockTable(n, base);
      && Used(PadTable(tab)) == tab && ValidIndex(PadTable(tab)) && PlainTable(tab)
      && |Phys(tab)| == n && forall k :: 0 <= k < n ==> Phys(tab)[k] == base + k
  {
    var tab := BlockTable(n, base);
    forall j | 0 <= j < |tab| ensures tab[j].block == Offset(tab, j) {
      PlainPhys(tab[..j]);
    }
    UsedPad(tab);
    PlainPhys(tab);
  }

  /** All 94 data blocks after the root's index block. */
  function FullTable(): seq<Extent> {
    BlockTable(94, 6)
  }

  /** The root directory has grown over the whole device; its names have been removed again. */
  function FullDisk(): Disk {
    Disk(111, 0, NewInodes(SMALL)[0 := Template(S_IFDIR + 0x1ED, 2, 5).(blocks := 94)], NewIfree(SMALL), seq(BITS_PER_BLOCK, _ => false),
         seq(100, b => if b < 5 then Raw(Zeros(BLOCK_SIZE)) else if b == 5 then Index(ExtentIndex(0, PadTable(FullTable()))) else EmptyDirBlock()))
  }

  function FullRoles(): (r: Roles)
    ensures |r| == 100
    ensures forall b {:trigger r[b]} :: 0 <= b < 100 ==> r[b] == if b < 5 then Meta else if b == 5 then Idx(A.ROOT) else Data(A.ROOT, b - 6)
  {
    seq(100, b => if b < 5 then Meta else if b == 5 then Idx(A.ROOT) else if b > 5 then Data(A.ROOT, b - 6) else Free)
  }

  lemma FullIndex()
    ensures Used(PadTable(FullTable())) == FullTable() && ValidIndex(PadTable(FullTable()))
  {
    BlockTableIndex(94, 6);
  }

  lemma RootTemplate()
    ensures var n := Template(S_IFDIR + 0x1ED, 2, 5).(blocks := 94);
      IsDir(n) && SmallInode(n) && n.nlink == 2 && n.size == 0 && n.ei == 5 && n.xattr == 0 && n.blocks == 94
  {
  }

  lemma FullInode()
    ensures var d := FullDisk(); var n := d.inodes[0];
      && n == Template(S_IFDIR + 0x1ED, 2, 5).(blocks := 94)
      && IsDir(n) && SmallInode(n) && n.nlink == 2 && n.size == 0 && n.ei == 5 && n.xattr == 0 && n.blocks == 94
      && d.blocks[5] == Index(ExtentIndex(0, PadTable(FullTable()))) && Table(d, 0, false) == FullTable()
  {
    FullIndex();
    RootTemplate();
  }

  lemma FullMap()
    ensures var m := MapOf(FullDisk(), 0, false); |m| == 94 && forall k :: 0 <= k < 94 ==> m[k] == 6 + k
  {
    FullInode();
    BlockTableIndex(94, 6);
  }

  lemma FullBits(e: Env)
    requires e.geo == SMALL && SmallAlgos(e.cfg)
    ensures Shape(e, FullDisk()) && BitsOk(e, FullDisk(), FullRoles()) && NoOrphans(FullDisk(), FullRoles())
    ensures forall i: nat :: Live(FullDisk(), i) <==> i == 0
  {
    var d := FullDisk();
    CountUniform(d.bfree[..100], false);
    CountWindow(d.ifree[..112], 1, 112);
  }

  lemma EmptySlots(bs: seq<Block>)
    requires forall k :: 0 <= k < |bs| ==> bs[k] == EmptyDirBlock()
    ensures AllDirs(bs) && D.WellFormed(SlotsOf(bs)) && D.CountVisible(SlotsOf(bs)) == 0 && D.Entries(SlotsOf(bs)) == map[]
  {
    assert SlotsOf(bs) == [] + seq(15 * |bs|, _ => EMPTY_SLOT);
    D.AppendEmpty([], 15 * |bs|);
  }

  lemma FullSlots()
    ensures var bs := Picked(FullDisk(), MapOf(FullDisk(), 0, false));
      && |bs| == 94 && AllDirs(bs) && D.WellFormed(SlotsOf(bs)) && D.CountVisible(SlotsOf(bs)) == 0 && D.Entries(SlotsOf(bs)) == map[]
  {
    FullMap();
    EmptySlots(Picked(FullDisk(), MapOf(FullDisk(), 0, false)));
  }

  /** The data part of the root on any disk with that index block and map. */
  lemma FullDataPart(d: Disk, m: seq<nat>)
    requires |d.inodes| > 0 && |d.blocks| == 100 && d.inodes[0].ei == 5 && IsHead(d.blocks[5], false)
    requires ValidIndex(HeadExtents(d.blocks[5], false)) && TableMap(d, 5, false) == m
    requires |m| == 94 && forall k :: 0 <= k < 94 ==> m[k] == 6 + k
    ensures PartOk(d, FullRoles(), 0, false)
  {
    var r := FullRoles();
    forall k | 0 <= k < |m| ensures m[k] < |r| && r[m[k]] == DataRole(0, false, k) {}
    forall b | 0 <= b < |r| && InPart(r[b], 0, false) ensures Justified(5, m, r[b], b) {}
  }

  lemma FullXattrPart(d: Disk)
    requires |d.inodes| > 0 && d.inodes[0].xattr == 0
    ensures PartOk(d, FullRoles(), 0, true)
  {
  }

  lemma FullParts()
    ensures PartOk(FullDisk(), FullRoles(), 0, false) && PartOk(FullDisk(), FullRoles(), 0, true)
  {
    FullInode();
    FullIndex();
    FullMap();
    FullDataPart(FullDisk(), MapOf(FullDisk(), 0, false));
    FullXattrPart(FullDisk());
  }

  /** An empty directory as inode 0 of any disk. */
  lemma EmptyRoot(e: Env, d: Disk, n: Inode, bs: seq<Block>)
    requires |d.inodes| > 0 && d.inodes[0] == n && Picked(d, MapOf(d, 0, false)) == bs
    requires IsDir(n) && SmallInode(n) && n.nlink == 2 && n.size == 0 && n.ei != 0 && n.xattr == 0 && n.blocks == |bs|
    requires PlainHead(BlockAt(d, n.ei)) && NrFiles(BlockAt(d, n.ei)) == 0
    requires AllDirs(bs) && D.WellFormed(SlotsOf(bs)) && D.CountVisible(SlotsOf(bs)) == 0 && D.Entries(SlotsOf(bs)) == map[]
    ensures PayloadOk(d, 0) && XPayloadOk(e, d, 0) && NodeView(e, d, 0) == A.Dir(2, map[], map[])
  {
  }

  lemma FullHead()
    ensures var h := Index(ExtentIndex(0, PadTable(FullTable()))); PlainHead(h) && NrFiles(h) == 0
  {
    FullIndex();
  }

  lemma FullPayload(e: Env)
    requires e.geo == SMALL && SmallAlgos(e.cfg)
    ensures PayloadOk(FullDisk(), 0) && XPayloadOk(e, FullDisk(), 0)
    ensures NodeView(e, FullDisk(), 0) == A.Dir(2, map[], map[])
  {
    FullInode();
    FullHead();
    FullSlots();
    var d := FullDisk();
    EmptyRoot(e, d, d.inodes[0], Picked(d, MapOf(d, 0, false)));
  }

  lemma FullRoot(e: Env)
    requires e.geo == SMALL && SmallAlgos(e.cfg)
    ensures NodeOk(e, FullDisk(), FullRoles(), 0) && NodeView(e, FullDisk(), 0) == A.Dir(2, map[], map[])
  {
    FullParts();
    FullPayload(e);
  }

  /** A disk with the root as its only inode. */
  lemma RootAlone(e: Env, d: Disk, r: Roles)
    requires |d.inodes| > 0 && NodeOk(e, d, r, 0) && NodeView(e, d, 0) == A.Dir(2, map[], map[])
    requires forall i: nat :: Live(d, i) <==> i == 0
    ensures SoundBelow(e, d, r, |d.inodes|) && ViewOf(e, d) == A.NEW_VIEW && A.Linked(A.NEW_VIEW)
  {
    AllSound(e, d, r, |d.inodes|);
    ViewIs(e, d, A.NEW_VIEW);
    A.NewLinked();
  }

  /** The disk is sound, shows an empty root, and has free inodes but no free block. */
  lemma FullIsGood(e: Env)
    requires e.geo == SMALL && SmallAlgos(e.cfg)
    ensures Good(e, FullDisk(), FullRoles()) && ViewOf(e, FullDisk()) == A.NEW_VIEW
    ensures FullDisk().freeInodes > 0 && FullDisk().freeBlocks == 0
  {
    FullBits(e);
    FullRoot(e);
    RootAlone(e, FullDisk(), FullRoles());
  }

  /** An inode without a name in the old tree cannot be reached, whatever its record holds. */
  lemma {:induction false} Unreached(v: A.View, w: A.View, i: nat, k: nat)
    requires A.Linked(v) && i !in v && i in w && w == v[i := w[i]]
    ensures !A.ReachIn(w, i, k)
    decreases k
  {
    if k > 0 {
      forall x: nat, n: A.Name | A.IsName(w, x, n, i) ensures !A.ReachIn(w, x, k - 1) {
        if x == i {
          Unreached(v, w, i, k - 1);
        } else {
          assert A.IsName(v, x, n, i);
        }
      }
    }
  }

  lemma LostView(e: Env, d: Disk, r: Roles, d': Disk, i: nat)
    requires Inv(e, d, r) && i < |d.inodes| && LeastFreeInode(d.ifree, i) && d.freeInodes > 0
    requires d' == d.(ifree := d.ifree[i := false], freeInodes := d.freeInodes - 1)
    ensures i !in ViewOf(e, d) && i in ViewOf(e, d') && ViewOf(e, d') == ViewOf(e, d)[i := ViewOf(e, d')[i]]
  {
    var w := ViewOf(e, d)[i := NodeView(e, d', i)];
    ViewAt(e, d, i);
    forall j: nat ensures j in w <==> Live(d', j) { ViewAt(e, d, j); }
    forall j: nat | j in w ensures Live(d', j) && w[j] == NodeView(e, d', j) {
      ViewAt(e, d, j);
      if j != i {
        NodeSound(e, d, r, j);
        BlocksAgree(d, r, d', j, false);
        BlocksAgree(d, r, d', j, true);
        NodeFrame(e, d, r, d', r, j);
      }
    }
    ViewIs(e, d', w);
  }

  /** A lost inode breaks the invariant for good: no assignment of uses to blocks makes the disk sound. */
  lemma LostIsBad(e: Env, d: Disk, r: Roles, d': Disk, r': Roles)
    requires Good(e, d, r) && InodeLost(d, d')
    ensures !Good(e, d', r')
  {
    var i: nat :| LeastFreeInode(d.ifree, i) && d' == d.(ifree := d.ifree[i := false], freeInodes := d.freeInodes - 1);
    LostInRange(e, d, r, i);
    LostView(e, d, r, d', i);
    var v, w := ViewOf(e, d), ViewOf(e, d');
    if A.Linked(w) {
      A.AllReachable(w, i);
      var k: nat :| A.ReachIn(w, i, k);
      Unreached(v, w, i, k);
    }
  }

  lemma LostInRange(e: Env, d: Disk, r: Roles, i: nat)
    requires Inv(e, d, r) && d.freeInodes > 0 && LeastFreeInode(d.ifree, i)
    ensures i < |d.inodes|
  {
    CountPositive(d.ifree[..e.geo.nrInodes]);
  }

  /** On the full disk both calls fail and each loses an inode. */
  method CreateLosesInode(cfg: Config, utf8: Bytes -> bool, name: D.Name, dir: bool) returns (r: Result<nat>, fs: LolelfFs)
    requires D.ValidName(name) && SmallAlgos(cfg)
    ensures fs.env.geo == GeometryFor(MIN_BLOCKS)
    ensures r == Err(NoIndexBlock) && InodeLost(FullDisk(), fs.Snap()) && fs.freeInodes == 110
  {
    SmallIsCreated();
    var e := Env(SMALL, cfg, utf8);
    FullIsGood(e);
    fs := new LolelfFs(e, FullDisk(), FullRoles());
    if dir {
      r := Mkdir(fs, A.ROOT, name);
    } else {
      r := CreateFile(fs, A.ROOT, name);
    }
  }
}
