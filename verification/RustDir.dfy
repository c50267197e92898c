/** Directory entries: `lookup`, and changing one slot (lolelffs-tools/src/dir.rs). */
module RustDir {
  import opened Layout
  import opened Extents
  import opened DiskState
  import opened RustFs
  import opened RustPlan
  import opened RustPart
  import opened RustScan
  import D = Directory
  import AbstractFs

  function WantName(n: D.Name): (f: Slot -> bool)
    ensures forall s :: f(s) <==> D.Visible(s) && s.name == n
  {
    (s: Slot) => D.Visible(s) && s.name == n
  }

  /** The slot test of `add_dir_entry`: inode number and first name byte are zero. */
  function WantEmpty(): (f: Slot -> bool)
    ensures forall s :: f(s) <==> s == EMPTY_SLOT
  {
    (s: Slot) => s.ino == 0 && s.name == []
  }

  lemma HitIsPos(slots: seq<Slot>, n: D.Name, p: nat)
    requires FirstHit(slots, WantName(n), p)
    ensures D.Shows(slots, n) && D.Pos(slots, n) == p
    ensures n in D.Entries(slots) && D.Entries(slots)[n] == slots[p].ino
  {
    var q := D.Pos(slots, n);
    assert slots[p].name == n;
    forall j | 0 <= j < p ensures slots[j].name != n {
      assert !WantName(n)(slots[j]);
    }
  }

  lemma MissIsAbsent(slots: seq<Slot>, n: D.Name)
    requires NoneBefore(slots, WantName(n), |slots|)
    ensures !D.Shows(slots, n) && n !in D.Entries(slots)
  {
    var q := D.Pos(slots, n);
    assert q < |slots| ==> !WantName(n)(slots[q]);
  }

  /** Slots of a directory inode. */
  function DirSlots(d: Disk, i: nat): seq<Slot>
    requires i < |d.inodes|
  {
    SlotsOf(Picked(d, MapOf(d, i, false)))
  }

  /** What the invariant says about the blocks of a directory. */
  lemma DirShape(e: Env, d: Disk, r: Roles, i: nat)
    requires Inv(e, d, r) && Live(d, i) && IsDir(d.inodes[i])
    ensures var n := d.inodes[i]; var m := MapOf(d, i, false);
      && 0 < n.ei < |d.blocks| == |r| && r[n.ei] == Idx(i) && d.blocks[n.ei].Index? && ValidIndex(d.blocks[n.ei].ei.extents)
      && m == Phys(Used(d.blocks[n.ei].ei.extents)) && Backed(r, m, i, false)
      && DirOk(n, d.blocks[n.ei].ei.nrFiles, Picked(d, m)) && PlainHead(d.blocks[n.ei])
  {
    NodeSound(e, d, r, i);
    assert PartOk(d, r, i, false) && PayloadOk(d, i);
  }

  /** What the invariant says about a directory. */
  lemma DirFacts(e: Env, d: Disk, r: Roles, i: nat)
    requires Inv(e, d, r) && Live(d, i) && IsDir(d.inodes[i])
    ensures var h := d.inodes[i].ei; var m := MapOf(d, i, false);
      && 0 < h < |d.blocks| && |r| == |d.blocks| && d.blocks[h].Index? && ValidIndex(d.blocks[h].ei.extents)
      && m == Phys(Used(d.blocks[h].ei.extents))
      && (forall k :: 0 <= k < |m| ==> m[k] < |d.blocks|)
      && AllDirs(Picked(d, m)) && D.WellFormed(DirSlots(d, i))
      && i in ViewOf(e, d) && ViewOf(e, d)[i] == NodeView(e, d, i) && NodeView(e, d, i).Dir?
      && NodeView(e, d, i).entries == D.Entries(DirSlots(d, i))
  {
    DirShape(e, d, r, i);
    ViewAt(e, d, i);
  }

  /** `lookup`: agrees with the map. */
  method Lookup(fs: LolelfFs, dir: nat, name: D.Name) returns (r: Result<Option<nat>>)
    requires Inv(fs.env, fs.Snap(), fs.roles)
    requires dir < fs.env.geo.nrInodes ==> Live(fs.Snap(), dir)
    ensures r.Err? <==> dir >= fs.env.geo.nrInodes || !IsDir(fs.inodes[dir])
    ensures r.Err? ==> r.error == if dir >= fs.env.geo.nrInodes then BadInode else NotDirectory
    ensures r.Ok? ==> var m := D.Entries(DirSlots(fs.Snap(), dir));
      r.value == if name in m then Some(m[name]) else None
  {
    if dir >= fs.env.geo.nrInodes {
      return Err(BadInode);
    }
    var n := fs.inodes[dir];
    if !IsDir(n) {
      return Err(NotDirectory);
    }
    DirFacts(fs.env, fs.Snap(), fs.roles, dir);
    var p := Scan(fs, fs.blocks[n.ei].ei.extents, WantName(name));
    if p.None? {
      MissIsAbsent(DirSlots(fs.Snap(), dir), name);
      return Ok(None);
    }
    HitIsPos(DirSlots(fs.Snap(), dir), name, p.value.pos);
    SlotPlace(fs.Snap(), dir, p.value);
    return Ok(Some(fs.blocks[p.value.block].slots[p.value.slot].ino));
  }

  lemma SlotPlace(d: Disk, i: nat, p: Place)
    requires i < |d.inodes| && AllDirs(Picked(d, MapOf(d, i, false)))
    requires p.pos / 15 < |MapOf(d, i, false)| && p.block == MapOf(d, i, false)[p.pos / 15] < |d.blocks| && p.slot == p.pos % 15
    ensures p.pos < |DirSlots(d, i)|
    ensures d.blocks[p.block].DirBlock? && |d.blocks[p.block].slots| == 15
    ensures d.blocks[p.block].slots[p.slot] == DirSlots(d, i)[p.pos]
  {
    var bs := Picked(d, MapOf(d, i, false));
    SlotsAt(bs, p.pos / 15, p.pos % 15);
    assert 15 * (p.pos / 15) + p.pos % 15 == p.pos;
    assert bs[p.pos / 15] == d.blocks[p.block];
  }

  // ---- changing one slot ----

  lemma SlotUpdated(bs: seq<Block>, p: nat, s: Slot)
    requires AllDirs(bs) && p < 15 * |bs|
    ensures var k := p / 15; var bs' := bs[k := DirBlock(bs[k].slots[p % 15 := s])];
      AllDirs(bs') && SlotsOf(bs') == SlotsOf(bs)[p := s]
  {
    var k := p / 15;
    var bs' := bs[k := DirBlock(bs[k].slots[p % 15 := s])];
    var a, b := SlotsOf(bs'), SlotsOf(bs)[p := s];
    forall q | 0 <= q < |a| ensures a[q] == b[q] {
      assert q == 15 * (q / 15) + q % 15;
      assert q / 15 == k && q % 15 == p % 15 ==> q == p;
    }
  }

  /** Writing the index block and one mapped block changes the picked blocks in one place. */
  lemma PickedUpdated(d: Disk, r: Roles, d': Disk, m: seq<nat>, k: nat, v: Block, h: nat, ix: Block, i: nat)
    requires |r| == |d.blocks| && h < |r| && r[h] == Idx(i) && Backed(r, m, i, false) && k < |m|
    requires d'.blocks == d.blocks[m[k] := v][h := ix]
    ensures Picked(d', m) == Picked(d, m)[k := v]
  {
    forall l | 0 <= l < |m| ensures Picked(d', m)[l] == Picked(d, m)[k := v][l] {
      assert r[m[l]] == Data(i, l);
      if l != k { BackedInjective(r, m, i, false, k, l); }
    }
  }

  /** A directory rebuilt in place or extended: the disk is sound again and only its entries changed. */
  lemma DirRebuilt(e: Env, d0: Disk, r0: Roles, d: Disk, r: Roles, i: nat, m: seq<nat>, n: Inode)
    requires Inv(e, d0, r0) && Live(d0, i) && Rebuilding(e, d0, r0, d, r, i, false, d0.inodes[i].ei, m)
    requires IsDir(d0.inodes[i]) && n == d0.inodes[i].(size := n.size, blocks := n.blocks) && n.ei != 0
    requires IsHead(d.blocks[n.ei], false) && ValidIndex(HeadExtents(d.blocks[n.ei], false))
    requires Phys(TableAt(d, n.ei, false)) == m
    requires DirOk(n, d.blocks[n.ei].ei.nrFiles, Picked(d, m)) && PlainHead(d.blocks[n.ei])
    ensures var d' := d.(inodes := d.inodes[i := n]);
      && Inv(e, d', r)
      && i in ViewOf(e, d0) && ViewOf(e, d0)[i].Dir?
      && ViewOf(e, d') == ViewOf(e, d0)[i := AbstractFs.Dir(n.nlink, ViewOf(e, d0)[i].xattrs, D.Entries(SlotsOf(Picked(d, m))))]
  {
    var d' := d.(inodes := d.inodes[i := n]);
    DirNodeOk(e, d0, r0, d, r, i, m, n);
    OneNodeChanged(e, d0, r0, d', r, i, false);
    ViewAt(e, d0, i);
  }

  lemma DirNodeOk(e: Env, d0: Disk, r0: Roles, d: Disk, r: Roles, i: nat, m: seq<nat>, n: Inode)
    requires Inv(e, d0, r0) && Live(d0, i) && Rebuilding(e, d0, r0, d, r, i, false, d0.inodes[i].ei, m)
    requires IsDir(d0.inodes[i]) && n == d0.inodes[i].(size := n.size, blocks := n.blocks) && n.ei != 0
    requires IsHead(d.blocks[n.ei], false) && ValidIndex(HeadExtents(d.blocks[n.ei], false))
    requires Phys(TableAt(d, n.ei, false)) == m
    requires DirOk(n, d.blocks[n.ei].ei.nrFiles, Picked(d, m)) && PlainHead(d.blocks[n.ei])
    ensures var d' := d.(inodes := d.inodes[i := n]);
      && Touches(d0, r0, d', r, i, false)
      && NodeOk(e, d', r, i)
      && NodeView(e, d', i) == AbstractFs.Dir(n.nlink, XattrView(e, d0, i), D.Entries(SlotsOf(Picked(d, m))))
  {
    var d' := d.(inodes := d.inodes[i := n]);
    PartRebuilt(e, d0, r0, d, r, i, false, n.ei, m, n);
    NodeSound(e, d0, r0, i);
    XPartFrame(e, d0, r0, d', r, i);
    assert Picked(d', m) == Picked(d, m);
    DirPayload(e, d', i, n, m);
  }

  lemma DirPayload(e: Env, d: Disk, i: nat, n: Inode, m: seq<nat>)
    requires i < |d.inodes| && d.inodes[i] == n && IsDir(n) && SmallInode(n) && MapOf(d, i, false) == m
    requires DirOk(n, NrFiles(BlockAt(d, n.ei)), Picked(d, m)) && PlainHead(BlockAt(d, n.ei))
    ensures PayloadOk(d, i)
    ensures NodeView(e, d, i) == AbstractFs.Dir(n.nlink, XattrView(e, d, i), D.Entries(SlotsOf(Picked(d, m))))
  {
  }

  /** The state after slot `p` of directory `i` is set to `s`, with the entry count now `nr`. */
  function SlotSet(d: Disk, i: nat, p: Place, s: Slot, nr: nat): Disk
    requires i < |d.inodes| && d.inodes[i].ei < |d.blocks| && d.blocks[d.inodes[i].ei].Index?
    requires p.block < |d.blocks| && d.blocks[p.block].DirBlock? && p.slot < |d.blocks[p.block].slots|
  {
    var n := d.inodes[i];
    d.(blocks := d.blocks[p.block := DirBlock(d.blocks[p.block].slots[p.slot := s])]
                         [n.ei := Index(ExtentIndex(nr, d.blocks[n.ei].ei.extents))],
       inodes := d.inodes[i := n.(size := FILE_ENTRY_SIZE * nr)])
  }

  predicate IsPlace(d: Disk, i: nat, p: Place)
    requires i < |d.inodes|
  {
    p.pos / 15 < |MapOf(d, i, false)| && p.block == MapOf(d, i, false)[p.pos / 15] < |d.blocks| && p.slot == p.pos % 15
  }

  /** Setting one slot so that names stay distinct keeps the disk sound; only that directory's map changes. */
  lemma SlotSetKeeps(e: Env, d: Disk, r: Roles, i: nat, p: Place, s: Slot, nr: nat)
    requires Inv(e, d, r) && Live(d, i) && IsDir(d.inodes[i]) && IsPlace(d, i, p)
    requires p.pos < |DirSlots(d, i)|
    requires D.WellFormed(DirSlots(d, i)[p.pos := s]) && D.CountVisible(DirSlots(d, i)[p.pos := s]) == nr
    ensures d.inodes[i].ei < |d.blocks| && d.blocks[d.inodes[i].ei].Index?
    ensures d.blocks[p.block].DirBlock? && p.slot < |d.blocks[p.block].slots|
    ensures var d' := SlotSet(d, i, p, s, nr);
      && Inv(e, d', r)
      && i in ViewOf(e, d) && ViewOf(e, d)[i].Dir?
      && ViewOf(e, d') == ViewOf(e, d)[i := AbstractFs.Dir(ViewOf(e, d)[i].nlink, ViewOf(e, d)[i].xattrs, D.Entries(DirSlots(d, i)[p.pos := s]))]
  {
    DirFacts(e, d, r, i);
    SlotPlace(d, i, p);
    SlotSetRebuilds(e, d, r, i, p, s, nr);
    var n := d.inodes[i];
    var m, bs := MapOf(d, i, false), Picked(d, MapOf(d, i, false));
    var v := DirBlock(d.blocks[p.block].slots[p.slot := s]);
    var ix := Index(ExtentIndex(nr, d.blocks[n.ei].ei.extents));
    var d1 := d.(blocks := d.blocks[p.block := v][n.ei := ix]);
    PickedUpdated(d, r, d1, m, p.pos / 15, v, n.ei, ix, i);
    SlotUpdated(bs, p.pos, s);
    DirRebuilt(e, d, r, d1, r, i, m, n.(size := FILE_ENTRY_SIZE * nr));
  }

  lemma SlotSetRebuilds(e: Env, d: Disk, r: Roles, i: nat, p: Place, s: Slot, nr: nat)
    requires Inv(e, d, r) && Live(d, i) && IsDir(d.inodes[i]) && IsPlace(d, i, p)
    requires d.blocks[p.block].DirBlock? && p.slot < |d.blocks[p.block].slots|
    ensures var n := d.inodes[i]; var m := MapOf(d, i, false);
      && 0 < n.ei < |d.blocks| == |r| && d.blocks[n.ei].Index? && r[n.ei] == Idx(i)
      && Backed(r, m, i, false)
      && |Picked(d, m)| == n.blocks && PlainHead(d.blocks[n.ei])
      && var d1 := d.(blocks := d.blocks[p.block := DirBlock(d.blocks[p.block].slots[p.slot := s])]
                                        [n.ei := Index(ExtentIndex(nr, d.blocks[n.ei].ei.extents))]);
      && Rebuilding(e, d, r, d1, r, i, false, n.ei, m)
      && Phys(TableAt(d1, n.ei, false)) == m
  {
    DirShape(e, d, r, i);
    var n, m := d.inodes[i], MapOf(d, i, false);
    assert r[m[p.pos / 15]] == Data(i, p.pos / 15);
    var v := DirBlock(d.blocks[p.block].slots[p.slot := s]);
    StartInPlace(e, d, r, i, false);
    TwoBlocksWritten(e, d, r, d, r, i, m, p.block, v, n.ei, Index(ExtentIndex(nr, d.blocks[n.ei].ei.extents)));
  }

  lemma TwoBlocksWritten(e: Env, d0: Disk, r0: Roles, d: Disk, r: Roles, i: nat, m: seq<nat>, b: nat, v: Block, h: nat, ix: Block)
    requires Rebuilding(e, d0, r0, d, r, i, false, h, m)
    requires b < |r| && InPart(r[b], i, false) && h < |r| && InPart(r[h], i, false)
    ensures Rebuilding(e, d0, r0, d.(blocks := d.blocks[b := v][h := ix]), r, i, false, h, m)
  {
    PartBlockWritten(e, d0, r0, d, r, i, false, h, m, b, v);
    PartBlockWritten(e, d0, r0, d.(blocks := d.blocks[b := v]), r, i, false, h, m, h, ix);
  }
}
