/** Appending a block to a directory (lolelffs-tools/src/dir.rs). */
module RustDirGrow {
  import opened Layout
  import opened Extents
  import opened DiskState
  import opened RustFs
  import opened RustPlan
  import opened RustPart
  import opened RustDir
  import D = Directory
  import AbstractFs

  function EmptyDirBlock(): (b: Block)
    ensures b.DirBlock? && |b.slots| == 15 && forall f :: 0 <= f < 15 ==> b.slots[f] == EMPTY_SLOT
  {
    DirBlock(seq(15, _ => EMPTY_SLOT))
  }

  /** An index with the one-block extent for logical block `k` in its first empty slot. */
  function AppendedIndex(ei: ExtentIndex, k: nat, b: nat): ExtentIndex
    requires UsedCount(ei.extents) < |ei.extents|
  {
    ExtentIndex(ei.nrFiles, ei.extents[UsedCount(ei.extents) := PlainExtent(k, 1, b)])
  }

  lemma UsedAppended(exts: seq<Extent>, e: Extent)
    requires UsedCount(exts) < |exts| && e.len > 0
    requires forall j :: UsedCount(exts) <= j < |exts| ==> exts[j].len == 0
    ensures var exts' := exts[UsedCount(exts) := e];
      && UsedCount(exts') == UsedCount(exts) + 1 && Used(exts') == Used(exts) + [e]
      && forall j :: UsedCount(exts') <= j < |exts'| ==> exts'[j].len == 0
  {
    UsedUnique(exts[UsedCount(exts) := e], UsedCount(exts) + 1);
  }

  lemma IndexAppended(exts: seq<Extent>, b: nat)
    requires ValidIndex(exts) && UsedCount(exts) < MAX_EXTENTS
    ensures var exts' := exts[UsedCount(exts) := PlainExtent(|Phys(Used(exts))|, 1, b)];
      && ValidIndex(exts') && Phys(Used(exts')) == Phys(Used(exts)) + [b]
      && (PlainTable(Used(exts)) ==> PlainTable(Used(exts')))
  {
    var e := PlainExtent(|Phys(Used(exts))|, 1, b);
    UsedAppended(exts, e);
    TilesAppend(Used(exts), e);
    FieldsAppended(Used(exts), e);
    assert Range(b, 1) == [b];
  }

  lemma FieldsAppended(tab: seq<Extent>, e: Extent)
    requires Small(tab) && e == PlainExtent(e.block, 1, e.start)
    ensures Small(tab + [e]) && (PlainTable(tab) ==> PlainTable(tab + [e]))
  {
  }

  lemma SlotsAppended(bs: seq<Block>)
    requires AllDirs(bs)
    ensures AllDirs(bs + [EmptyDirBlock()])
    ensures SlotsOf(bs + [EmptyDirBlock()]) == SlotsOf(bs) + seq(15, _ => EMPTY_SLOT)
  {
    var a, b := SlotsOf(bs + [EmptyDirBlock()]), SlotsOf(bs) + seq(15, _ => EMPTY_SLOT);
    forall q | 0 <= q < |a| ensures a[q] == b[q] {
      assert q / 15 < |bs| <==> q < 15 * |bs|;
    }
  }

  /** A zeroed block changes neither the entries nor their number. */
  lemma AppendedDirOk(n: Inode, nr: nat, bs: seq<Block>)
    requires DirOk(n, nr, bs)
    ensures DirOk(n.(blocks := n.blocks + 1), nr, bs + [EmptyDirBlock()])
    ensures D.Entries(SlotsOf(bs + [EmptyDirBlock()])) == D.Entries(SlotsOf(bs))
  {
    SlotsAppended(bs);
    D.AppendEmpty(SlotsOf(bs), 15);
  }

  lemma AppendedPicked(d: Disk, d2: Disk, r1: Roles, i: nat, b: nat, m: seq<nat>, h: nat, ix: Block)
    requires b < |d.blocks| == |d2.blocks| == |r1| && Backed(r1, m + [b], i, false)
    requires h < |d.blocks| && r1[h] == Idx(i)
    requires d2.blocks == d.blocks[b := EmptyDirBlock()][h := ix]
    ensures Picked(d2, m + [b]) == Picked(d, m) + [EmptyDirBlock()]
  {
    var m' := m + [b];
    forall l | 0 <= l < |m'| ensures Picked(d2, m')[l] == (Picked(d, m) + [EmptyDirBlock()])[l] {
      assert r1[m'[l]] == Data(i, l);
      if l < |m| {
        BackedInjective(r1, m', i, false, l, |m|);
      }
    }
  }

  function AppendRoles(d: Disk, r: Roles, i: nat, b: nat): Roles
    requires i < |d.inodes|
  {
    Assigned(r, b, 1, Maker(i, false, |MapOf(d, i, false)|))
  }

  lemma AppendExtends(e: Env, d: Disk, r: Roles, i: nat, b: nat, d1: Disk)
    requires Inv(e, d, r) && Live(d, i) && d.inodes[i].ei != 0 && b < e.geo.nrBlocks && d.bfree[b]
    requires Shape(e, d1) && BitsOk(e, d1, AppendRoles(d, r, i, b)) && d1 == d.(bfree := d1.bfree, freeBlocks := d1.freeBlocks)
    ensures Rebuilding(e, d, r, d1, AppendRoles(d, r, i, b), i, false, d.inodes[i].ei, MapOf(d, i, false) + [b])
  {
    StartInPlace(e, d, r, i, false);
    PartExtended(e, d, r, d, r, i, false, d.inodes[i].ei, MapOf(d, i, false), d1, b, 1);
    assert Range(b, 1) == [b];
  }

  lemma AppendRebuilds(e: Env, d: Disk, r: Roles, i: nat, b: nat, d1: Disk, ix: Block)
    requires Inv(e, d, r) && Live(d, i) && d.inodes[i].ei != 0 && b < e.geo.nrBlocks && d.bfree[b]
    requires Shape(e, d1) && BitsOk(e, d1, AppendRoles(d, r, i, b)) && d1 == d.(bfree := d1.bfree, freeBlocks := d1.freeBlocks)
    ensures var h := d.inodes[i].ei; var m := MapOf(d, i, false); var r1 := AppendRoles(d, r, i, b);
      && 0 < h < |d1.blocks| && b < |d1.blocks| == |r1|
      && Rebuilding(e, d, r, d1.(blocks := d1.blocks[b := EmptyDirBlock()][h := ix]), r1, i, false, h, m + [b])
  {
    AppendExtends(e, d, r, i, b, d1);
    var h, m, r1 := d.inodes[i].ei, MapOf(d, i, false), AppendRoles(d, r, i, b);
    TwoBlocksWritten(e, d, r, d1, r1, i, m + [b], b, EmptyDirBlock(), h, ix);
  }

  /** The state after directory `i` gained the zeroed block `b` as a new one-block extent. */
  function BlockAppended(d: Disk, d1: Disk, i: nat, b: nat, ei: ExtentIndex): Disk
    requires i < |d1.inodes| && d1.inodes[i].ei < |d1.blocks| && b < |d1.blocks|
  {
    var n := d1.inodes[i];
    d1.(blocks := d1.blocks[b := EmptyDirBlock()][n.ei := Index(ei)], inodes := d1.inodes[i := n.(blocks := n.blocks + 1)])
  }

  /** A zeroed block appended to a directory changes no view. */
  lemma AppendKeeps(e: Env, d: Disk, r: Roles, i: nat, b: nat, d1: Disk, ei: ExtentIndex)
    requires Inv(e, d, r) && Live(d, i) && IsDir(d.inodes[i]) && b < e.geo.nrBlocks && d.bfree[b]
    requires Shape(e, d1) && BitsOk(e, d1, AppendRoles(d, r, i, b)) && d1 == d.(bfree := d1.bfree, freeBlocks := d1.freeBlocks)
    requires d.inodes[i].ei < |d.blocks| && d.blocks[d.inodes[i].ei].Index?
    requires var ei0 := d.blocks[d.inodes[i].ei].ei;
      UsedCount(ei0.extents) < |ei0.extents| == MAX_EXTENTS && ei == AppendedIndex(ei0, |MapOf(d, i, false)|, b)
    ensures var d' := BlockAppended(d, d1, i, b, ei);
      && Inv(e, d', AppendRoles(d, r, i, b)) && ViewOf(e, d') == ViewOf(e, d)
      && MapOf(d', i, false) == MapOf(d, i, false) + [b]
      && DirSlots(d', i) == DirSlots(d, i) + seq(15, _ => EMPTY_SLOT)
  {
    DirShape(e, d, r, i);
    var n, m, r1 := d.inodes[i], MapOf(d, i, false), AppendRoles(d, r, i, b);
    AppendRebuilds(e, d, r, i, b, d1, Index(ei));
    var d2 := d1.(blocks := d1.blocks[b := EmptyDirBlock()][n.ei := Index(ei)]);
    IndexAppended(d.blocks[n.ei].ei.extents, b);
    AppendedPicked(d, d2, r1, i, b, m, n.ei, Index(ei));
    AppendedDirOk(n, ei.nrFiles, Picked(d, m));
    DirRebuilt(e, d, r, d2, r1, i, m + [b], n.(blocks := n.blocks + 1));
    AppendedView(e, d, r, i);
    AppendedMap(d2, BlockAppended(d, d1, i, b, ei), i, n.(blocks := n.blocks + 1), m + [b]);
    SlotsAppended(Picked(d, m));
  }

  lemma AppendedMap(d2: Disk, d': Disk, i: nat, n: Inode, m: seq<nat>)
    requires i < |d2.inodes| && d' == d2.(inodes := d2.inodes[i := n])
    requires Phys(TableAt(d2, n.ei, false)) == m
    ensures MapOf(d', i, false) == m && Picked(d', m) == Picked(d2, m)
  {
  }

  lemma AppendedView(e: Env, d: Disk, r: Roles, i: nat)
    requires Inv(e, d, r) && Live(d, i) && IsDir(d.inodes[i])
    ensures i in ViewOf(e, d) && ViewOf(e, d)[i].Dir?
    ensures var v := ViewOf(e, d);
      v[i := AbstractFs.Dir(d.inodes[i].nlink, v[i].xattrs, D.Entries(DirSlots(d, i)))] == v
  {
    DirFacts(e, d, r, i);
  }
}
