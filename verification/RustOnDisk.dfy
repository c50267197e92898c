/** Every record of a sound disk survives its on-disk form. */
module RustOnDisk {
  import opened Layout
  import opened Extents
  import opened DiskState
  import opened RustPlan
  import opened RustDir
  import opened Codecs
  import IC = IndexCodecs
  import RC = RecordCodecs
  import I = RustImage
  import RustLife
  import XattrCodec
  import Wire

  // ---- a block map is no longer than the device ----

  predicate DistinctBelow(m: seq<nat>, n: nat) {
    && (forall k :: 0 <= k < |m| ==> m[k] < n)
    && (forall k, l :: 0 <= k < l < |m| ==> m[k] != m[l])
  }

  lemma {:induction false} Pigeonhole(m: seq<nat>, n: nat)
    requires DistinctBelow(m, n)
    ensures |m| <= n
    decreases n
  {
    assert m == [] || m[0] < n;
    if n > 0 {
      if n - 1 in m {
        var k :| 0 <= k < |m| && m[k] == n - 1;
        Pigeonhole(m[..k] + m[k + 1..], n - 1);
      } else {
        Pigeonhole(m, n - 1);
      }
    }
  }

  lemma MapBound(r: Roles, m: seq<nat>, i: nat, x: bool)
    requires Backed(r, m, i, x)
    ensures |m| <= |r|
  {
    forall k, l | 0 <= k < l < |m| ensures m[k] != m[l] { BackedInjective(r, m, i, x, k, l); }
    Pigeonhole(m, |r|);
  }

  // ---- extents ----

  /** An extent of a table that maps into the device has 32-bit fields. */
  lemma ExtentInside(tab: seq<Extent>, j: nat, nr: nat)
    requires Tiles(tab) && Small(tab) && j < |tab| && |Phys(tab)| <= nr < U32
    requires forall k :: 0 <= k < |Phys(tab)| ==> Phys(tab)[k] < nr
    ensures ExtentFits(tab[j])
  {
    PhysAt(tab, j, 0);
    PhysAt(tab, j, tab[j].len - 1);
  }

  /** All slots of the index block of a part fit their records. */
  lemma SlotsFit(e: Env, d: Disk, r: Roles, i: nat, x: bool)
    requires Shape(e, d) && BitsOk(e, d, r) && i < |d.inodes| && PartOk(d, r, i, x) && Head(d.inodes[i], x) != 0
    ensures var h := Head(d.inodes[i], x);
      && h < |d.blocks| && IsHead(d.blocks[h], x) && |HeadExtents(d.blocks[h], x)| == MAX_EXTENTS
      && forall j :: 0 <= j < MAX_EXTENTS ==> ExtentFits(HeadExtents(d.blocks[h], x)[j])
  {
    RustLife.PartHead(e, d, r, i, x);
    var exts := HeadExtents(d.blocks[Head(d.inodes[i], x)], x);
    MapBound(r, MapOf(d, i, x), i, x);
    forall j | 0 <= j < MAX_EXTENTS ensures ExtentFits(exts[j]) {
      if j < UsedCount(exts) {
        assert exts[j] == Used(exts)[j];
        ExtentInside(Used(exts), j, e.geo.nrBlocks);
      }
    }
  }

  // ---- index blocks ----

  lemma FilesFit(e: Env, d: Disk, r: Roles, i: nat)
    requires Inv(e, d, r) && Live(d, i) && d.inodes[i].ei != 0
    ensures NrFiles(BlockAt(d, d.inodes[i].ei)) < U32
  {
    NodeSound(e, d, r, i);
    if IsDir(d.inodes[i]) {
      I.FewFiles(e, d, r, i);
    }
  }

  /** The index block of every inode reads back from its bytes. */
  lemma IndexReadsBack(e: Env, d: Disk, r: Roles, i: nat)
    requires Inv(e, d, r) && Live(d, i) && d.inodes[i].ei != 0
    ensures var h := d.inodes[i].ei;
      h < |d.blocks| && d.blocks[h].Index? && IndexFits(d.blocks[h].ei) && IndexOf(IndexBytes(d.blocks[h].ei)) == d.blocks[h].ei
  {
    NodeSound(e, d, r, i);
    SlotsFit(e, d, r, i, false);
    FilesFit(e, d, r, i);
    IndexRoundTrip(d.blocks[d.inodes[i].ei].ei);
  }

  lemma {:induction false} RecordsTakeSpace(es: seq<XattrCodec.Entry>)
    ensures |XattrCodec.Serialize(es)| >= |es|
  {
    if es != [] {
      var init := es[..|es| - 1];
      RecordsTakeSpace(init);
      var rs := XattrCodec.Records(es);
      assert rs[..|rs| - 1] == XattrCodec.Records(init);
      assert Wire.Join(rs) == Wire.Join(rs[..|rs| - 1]) + rs[|rs| - 1];
    }
  }

  predicate XattrIndexFits(xi: XattrIndex) {
    && xi.totalSize < U32 && xi.count < U32 && |xi.extents| == MAX_EXTENTS
    && forall j :: 0 <= j < |xi.extents| ==> ExtentFits(xi.extents[j])
  }

  /** The attribute index of every inode that has one reads back from its bytes. */
  lemma XattrIndexReadsBack(e: Env, d: Disk, r: Roles, i: nat)
    requires Inv(e, d, r) && Live(d, i) && d.inodes[i].xattr != 0
    ensures var h := d.inodes[i].xattr;
      && h < |d.blocks| && d.blocks[h].XIndex? && XattrIndexFits(d.blocks[h].xi)
      && IC.XattrOf(IC.XattrBytes(d.blocks[h].xi)) == d.blocks[h].xi
  {
    NodeSound(e, d, r, i);
    SlotsFit(e, d, r, i, true);
    var xi := d.blocks[d.inodes[i].xattr].xi;
    RecordsTakeSpace(XattrCodec.Parse(XattrBytes(xi.totalSize, Picked(d, MapOf(d, i, true))), e.utf8).value);
    IC.XattrRoundTrip(xi);
  }

  // ---- inodes ----

  lemma NumbersFit(e: Env, d: Disk, r: Roles, i: nat)
    requires Inv(e, d, r) && Live(d, i)
    ensures SmallInode(d.inodes[i]) && d.inodes[i].size < U32 && d.inodes[i].blocks < U32
  {
    NodeSound(e, d, r, i);
    if IsDir(d.inodes[i]) {
      I.FewFiles(e, d, r, i);
      DirShape(e, d, r, i);
      PlainPhys(Used(d.blocks[d.inodes[i].ei].ei.extents));
    }
  }

  lemma PlacesFit(e: Env, d: Disk, r: Roles, i: nat)
    requires Inv(e, d, r) && Live(d, i)
    ensures d.inodes[i].ei < U32 && d.inodes[i].xattr < U32
  {
    NodeSound(e, d, r, i);
    RustLife.PartHead(e, d, r, i, false);
    RustLife.PartHead(e, d, r, i, true);
  }

  /** The record of every inode of a sound disk fits its fields, but for a link count of 2^32 or more. */
  lemma InodeFitsIff(e: Env, d: Disk, r: Roles, i: nat)
    requires Inv(e, d, r) && Live(d, i)
    ensures RC.InodeFits(d.inodes[i]) <==> d.inodes[i].nlink < U32
  {
    NumbersFit(e, d, r, i);
    PlacesFit(e, d, r, i);
    assert RC.InodeWords(d.inodes[i])[8] == d.inodes[i].nlink;
  }
}
