/** `list_dir` (lolelffs-tools/src/dir.rs). */
module RustList {
  import opened Layout
  import opened Extents
  import opened DiskState
  import opened RustFs
  import opened RustScan
  import opened RustDir
  import A = AbstractFs
  import D = Directory

  /** The occupied slots among the slots of the first `k` blocks. */
  function ListedSlots(bs: seq<Block>, k: nat): seq<Slot>
    requires k <= |bs|
  {
    D.Listed(SlotsOf(bs)[..15 * k])
  }

  lemma BlockListed(bs: seq<Block>, k: nat)
    requires AllDirs(bs) && k < |bs|
    ensures ListedSlots(bs, k + 1) == ListedSlots(bs, k) + D.Listed(bs[k].slots)
  {
    var s := SlotsOf(bs);
    forall f | 0 <= f < 15 ensures s[15 * k..15 * (k + 1)][f] == bs[k].slots[f] {
      SlotsAt(bs, k, f);
    }
    assert s[15 * k..15 * (k + 1)] == bs[k].slots;
    assert s[..15 * (k + 1)] == s[..15 * k] + s[15 * k..15 * (k + 1)];
    D.ListedConcat(s[..15 * k], bs[k].slots);
  }

  /** Collect the occupied slots of one block. */
  method ListBlock(slots: seq<Slot>) returns (r: seq<Slot>)
    ensures r == D.Listed(slots)
  {
    r := [];
    for f := 0 to |slots|
      invariant r == D.Listed(slots[..f])
    {
      assert slots[..f + 1][..f] == slots[..f];
      if D.Visible(slots[f]) {
        r := r + [slots[f]];
      }
    }
    assert slots[..|slots|] == slots;
  }

  /** Append the blocks of extent `j`. */
  method ReadExtent(fs: LolelfFs, e: Extent, r0: seq<Block>, ghost tab: seq<Extent>, ghost j: nat, ghost bs: seq<Block>) returns (r: seq<Block>)
    requires j < |tab| && tab[j] == e && e.len > 0 && bs == Picked(fs.Snap(), Phys(tab))
    requires forall k :: 0 <= k < |Phys(tab)| ==> Phys(tab)[k] < |fs.blocks|
    requires Offset(tab, j) <= |bs| && r0 == bs[..Offset(tab, j)]
    ensures Offset(tab, j + 1) <= |bs| && r == bs[..Offset(tab, j + 1)]
  {
    ExtentBlocks(fs.Snap(), tab, j);
    ghost var o := Offset(tab, j);
    assert bs[..o + e.len] == bs[..o] + bs[o..o + e.len];
    r := r0 + fs.blocks[e.start..e.start + e.len];
  }

  /** The blocks of a table in logical order. */
  method ReadBlocks(fs: LolelfFs, exts: seq<Extent>) returns (r: seq<Block>)
    requires ValidIndex(exts)
    requires forall k :: 0 <= k < |Phys(Used(exts))| ==> Phys(Used(exts))[k] < |fs.blocks|
    ensures r == Picked(fs.Snap(), Phys(Used(exts)))
  {
    ghost var tab := Used(exts);
    ghost var bs := Picked(fs.Snap(), Phys(tab));
    OffsetEnds(tab);
    r := [];
    var j := 0;
    while j < |exts| && exts[j].len > 0
      invariant 0 <= j <= |tab|
      invariant Offset(tab, j) <= |bs| && r == bs[..Offset(tab, j)]
    {
      r := ReadExtent(fs, exts[j], r, tab, j, bs);
      j := j + 1;
    }
    assert bs[..|bs|] == bs;
  }

  method ListBlocks(bs: seq<Block>) returns (r: seq<Slot>)
    requires AllDirs(bs)
    ensures r == D.Listed(SlotsOf(bs))
  {
    r := [];
    assert SlotsOf(bs)[..0] == [];
    for k := 0 to |bs|
      invariant r == ListedSlots(bs, k)
    {
      BlockListed(bs, k);
      var s := ListBlock(bs[k].slots);
      r := r + s;
    }
    assert SlotsOf(bs)[..15 * |bs|] == SlotsOf(bs);
  }

  /** What a caller gets for one name: the entry and the inode record it points to. */
  datatype DirEntry = DirEntry(slot: Slot, inode: Inode)

  /** Read the inode of each slot; a number out of range ends the listing. */
  method WithInodes(fs: LolelfFs, slots: seq<Slot>) returns (r: Result<seq<DirEntry>>)
    requires fs.env.geo.nrInodes == |fs.inodes|
    ensures r.Ok? <==> forall s :: s in slots ==> s.ino < |fs.inodes|
    ensures r.Ok? ==> |r.value| == |slots| && forall k :: 0 <= k < |slots| ==> r.value[k] == DirEntry(slots[k], fs.inodes[slots[k].ino])
    ensures r.Err? ==> r.error == BadInode
  {
    var list: seq<DirEntry> := [];
    for k := 0 to |slots|
      invariant |list| == k
      invariant forall j :: 0 <= j < k ==> slots[j].ino < |fs.inodes| && list[j] == DirEntry(slots[j], fs.inodes[slots[j].ino])
    {
      if slots[k].ino >= fs.env.geo.nrInodes {
        assert slots[k] in slots;
        return Err(BadInode);
      }
      list := list + [DirEntry(slots[k], fs.inodes[slots[k].ino])];
    }
    return Ok(list);
  }

  /** `list_dir`: the occupied slots in order over all extents and blocks, each with its inode record. */
  method ListDir(fs: LolelfFs, dir: nat) returns (r: Result<seq<DirEntry>>)
    requires Good(fs.env, fs.Snap(), fs.roles)
    requires dir < fs.env.geo.nrInodes ==> Live(fs.Snap(), dir)
    ensures r.Err? <==> dir >= fs.env.geo.nrInodes || !IsDir(fs.inodes[dir])
    ensures r.Err? ==> r.error == if dir >= fs.env.geo.nrInodes then BadInode else NotDirectory
    ensures r.Ok? ==> var slots := D.Listed(DirSlots(fs.Snap(), dir));
      && |r.value| == |slots|
      && forall k :: 0 <= k < |slots| ==> Live(fs.Snap(), slots[k].ino) && r.value[k] == DirEntry(slots[k], fs.inodes[slots[k].ino])
  {
    if dir >= fs.env.geo.nrInodes {
      return Err(BadInode);
    }
    if !IsDir(fs.inodes[dir]) {
      return Err(NotDirectory);
    }
    DirFacts(fs.env, fs.Snap(), fs.roles, dir);
    ListedLive(fs.env, fs.Snap(), fs.roles, dir);
    var bs := ReadBlocks(fs, fs.blocks[fs.inodes[dir].ei].ei.extents);
    var list := ListBlocks(bs);
    r := WithInodes(fs, list);
  }

  /** The entries of a sound disk point to allocated inodes. */
  lemma ListedLive(e: Env, d: Disk, r: Roles, dir: nat)
    requires Good(e, d, r) && Live(d, dir) && IsDir(d.inodes[dir])
    ensures forall s :: s in D.Listed(DirSlots(d, dir)) ==> Live(d, s.ino)
  {
    DirFacts(e, d, r, dir);
    D.ListedIsMap(DirSlots(d, dir));
    forall s | s in D.Listed(DirSlots(d, dir)) ensures Live(d, s.ino) {
      assert s == Slot(s.ino, s.name);
      assert A.IsName(ViewOf(e, d), dir, s.name, s.ino);
      ViewAt(e, d, s.ino);
    }
  }
}
