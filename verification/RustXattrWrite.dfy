/** Writing a list of attributes anew: the second half of `set_xattr` and `remove_xattr` (lolelffs-tools/src/fs.rs). */
module RustXattrWrite {
  import opened Layout
  import opened Extents
  import opened Content
  import opened DiskState
  import opened RustFs
  import opened RustPlan
  import opened RustPart
  import opened RustFile
  import opened RustXattrStore
  import opened XattrCodec
  import AbstractFs

  /** Write the padded blocks of `data` where the extents map them. */
  method WriteStore(fs: LolelfFs, tab: seq<Extent>, data: Bytes, ghost i: nat)
    requires Tiles(tab) && |Phys(tab)| == NumBlocks(|data|)
    requires |fs.roles| == |fs.blocks| && Backed(fs.roles, Phys(tab), i, true)
    modifies fs`blocks
    ensures OnlyMapped(old(fs.blocks), fs.blocks, fs.roles, i, true)
    ensures ChunksOnDisk(Padded(data), fs.blocks, Phys(tab), NumBlocks(|data|))
  {
    ghost var chunks := Padded(data);
    for k := 0 to NumBlocks(|data|)
      invariant OnlyMapped(old(fs.blocks), fs.blocks, fs.roles, i, true)
      invariant ChunksOnDisk(chunks, fs.blocks, Phys(tab), k)
    {
      ChunkWritten(chunks, old(fs.blocks), fs.blocks, fs.roles, tab, k, i, true);
      var j := Find(tab, k);
      var block := Pad(Chunk(data, k));
      fs.blocks := fs.blocks[tab[j].start + (k - tab[j].block) := Raw(block)];
    }
  }

  /** What the blocks hold after the loop. */
  lemma StoreWritten(d: Disk, data: Bytes, m: seq<nat>)
    requires |m| == NumBlocks(|data|) && ChunksOnDisk(Padded(data), d.blocks, m, |m|)
    ensures AllRaw(Picked(d, m)) && XattrBytes(|data|, Picked(d, m)) == data && |data| <= 4096 * |m|
  {
    var bs := Picked(d, m);
    var raws := RawsOf(bs);
    forall k | 0 <= k < |m| ensures bs[k].Raw? && raws[k] == Pad(Chunk(data, k)) {
      assert Padded(data)[k] == Ok(Pad(Chunk(data, k)));
    }
    ConcatPadded(data, raws, |m|);
    assert raws[..|m|] == raws;
    assert data[..|data|] == data;
  }

  /** The node keeps everything but its attributes. */
  lemma OnlyXattrs(cfg: Config, n: Inode, head: nat, x: map<Key, Bytes>, y: map<Key, Bytes>, tab: seq<Extent>, h: Block, bs: seq<Block>)
    requires NodePayload(n, h, bs)
    ensures NodePayload(n.(xattr := head), h, bs)
    ensures MakeNode(cfg, n.(xattr := head), y, tab, bs) == AbstractFs.WithXattrs(MakeNode(cfg, n, x, tab, bs), y)
  {
  }

  /** The data part of an inode whose attribute part was rebuilt. */
  lemma DataPartKept(e: Env, d0: Disk, r0: Roles, d': Disk, r: Roles, i: nat, head: nat)
    requires Inv(e, d0, r0) && Live(d0, i) && i < |d'.inodes| && d'.inodes[i] == d0.inodes[i].(xattr := head)
    requires Agree(d0, r0, d', r, i, false)
    ensures PartOk(d', r, i, false) && PayloadOk(d', i)
    ensures NodeView(e, d', i) == AbstractFs.WithXattrs(NodeView(e, d0, i), XattrView(e, d', i))
  {
    NodeSound(e, d0, r0, i);
    PartFrame(d0, r0, d', r, i, false);
    OnlyXattrs(e.cfg, d0.inodes[i], head, XattrView(e, d0, i), XattrView(e, d', i), Table(d0, i, false),
               BlockAt(d0, d0.inodes[i].ei), Picked(d0, MapOf(d0, i, false)));
    if d0.inodes[i].ei == 0 {
      HeadFree(d0.inodes[i].(xattr := head), BlockAt(d0, 0), BlockAt(d', 0), Picked(d0, MapOf(d0, i, false)));
    }
  }

  lemma HeadFree(n: Inode, a: Block, b: Block, bs: seq<Block>)
    requires NodePayload(n, a, bs) && n.ei == 0
    ensures NodePayload(n, b, bs)
  {
  }

  /** Attributes of inode `i` are now `es`; nothing else in the view changed. */
  ghost predicate Rewritten(e: Env, d0: Disk, d': Disk, r': Roles, i: nat, es: seq<Entry>) {
    && i < |d'.inodes| && StoreBytes(d', i) == Serialize(es)
    && (WellStored(e, es) ==>
          && Inv(e, d', r')
          && i in ViewOf(e, d0)
          && ViewOf(e, d') == AbstractFs.SetXattrs(ViewOf(e, d0), i, AsMap(es)))
  }

  /** The attribute part after index, blocks and inode are written. */
  lemma StorePart(e: Env, d0: Disk, r0: Roles, d: Disk, r: Roles, d': Disk, i: nat, head: nat, tab: seq<Extent>, es: seq<Entry>)
    requires Inv(e, d0, r0) && Live(d0, i) && Rebuilding(e, d0, r0, d, r, i, true, head, Phys(tab)) && head != 0
    requires Tiles(tab) && Small(tab) && |tab| <= 19 && |Phys(tab)| == NumBlocks(|Serialize(es)|)
    requires d.blocks[head] == XIndex(XattrIndex(|Serialize(es)|, |es|, PadTable(tab)))
    requires ChunksOnDisk(Padded(Serialize(es)), d.blocks, Phys(tab), |Phys(tab)|)
    requires d' == d.(inodes := d.inodes[i := d0.inodes[i].(xattr := head)])
    ensures Touches(d0, r0, d', r, i, true) && Agree(d0, r0, d', r, i, false) && PartOk(d', r, i, true)
    ensures Picked(d', MapOf(d', i, true)) == Picked(d', Phys(tab)) && AllRaw(Picked(d', Phys(tab)))
    ensures StoreBytes(d', i) == Serialize(es) && |Serialize(es)| <= 4096 * |Phys(tab)|
  {
    UsedPad(tab);
    assert TableAt(d, head, true) == tab;
    PartRebuilt(e, d0, r0, d, r, i, true, head, Phys(tab), d0.inodes[i].(xattr := head));
    StoreWritten(d', Serialize(es), Phys(tab));
  }

  lemma StorePayload(e: Env, d': Disk, i: nat, head: nat, tab: seq<Extent>, es: seq<Entry>)
    requires i < |d'.inodes| && d'.inodes[i].xattr == head && 0 < head < |d'.blocks| && es != [] && WellStored(e, es)
    requires |tab| <= 19 && d'.blocks[head] == XIndex(XattrIndex(|Serialize(es)|, |es|, PadTable(tab)))
    requires Picked(d', MapOf(d', i, true)) == Picked(d', Phys(tab)) && AllRaw(Picked(d', Phys(tab)))
    requires StoreBytes(d', i) == Serialize(es) && |Serialize(es)| <= 4096 * |Phys(tab)|
    ensures XPayloadOk(e, d', i) && XattrView(e, d', i) == AsMap(es)
  {
    FittingParses(es, e.utf8);
  }

  /** A rebuilt store: the disk is sound again and only these attributes changed. */
  lemma StoreFinished(e: Env, d0: Disk, r0: Roles, d: Disk, r: Roles, d': Disk, i: nat, head: nat, tab: seq<Extent>, es: seq<Entry>)
    requires Inv(e, d0, r0) && Live(d0, i) && Rebuilding(e, d0, r0, d, r, i, true, head, Phys(tab)) && head != 0
    requires Tiles(tab) && Small(tab) && |tab| <= 19 && |Phys(tab)| == NumBlocks(|Serialize(es)|) && es != []
    requires d.blocks[head] == XIndex(XattrIndex(|Serialize(es)|, |es|, PadTable(tab)))
    requires ChunksOnDisk(Padded(Serialize(es)), d.blocks, Phys(tab), |Phys(tab)|)
    requires d' == d.(inodes := d.inodes[i := d0.inodes[i].(xattr := head)])
    ensures Rewritten(e, d0, d', r, i, es)
  {
    StorePart(e, d0, r0, d, r, d', i, head, tab, es);
    if WellStored(e, es) {
      StorePayload(e, d', i, head, tab, es);
      DataPartKept(e, d0, r0, d', r, i, head);
      OneNodeChanged(e, d0, r0, d', r, i, true);
      ViewAt(e, d0, i);
    }
  }

  /** Allocate, write index and blocks, point the inode at them. */
  method RewriteStore(fs: LolelfFs, ino: nat, es: seq<Entry>, ghost d0: Disk, ghost r0: Roles) returns (r: Result<()>)
    requires GivenBack(fs.env, d0, r0, fs.Snap(), fs.roles, ino, true) && es != [] && |Serialize(es)| <= MAX_SIZE
    requires fs.env.cfg.maxLarge == 0 || fs.env.cfg.maxLarge >= MAX_EXTENT_BLOCKS_LARGE
    modifies fs`freeBlocks, fs`bfree, fs`roles, fs`blocks, fs`inodes
    ensures ErrorOf(r) == PartError(fs.env, d0, ino, true, NumBlocks(|Serialize(es)|))
    ensures r.Ok? ==> Rewritten(fs.env, d0, fs.Snap(), fs.roles, ino, es)
    ensures r == Err(NoIndexBlock) ==> d0.inodes[ino].xattr == 0 && fs.Snap() == d0 && fs.roles == r0
    ensures r.Err? && r.error != NoIndexBlock ==>
      (r.error == NoSpace || r.error == ZeroBlocks) && PartStopped(fs.env, d0, fs.Snap(), ino, true, NumBlocks(|Serialize(es)|))
  {
    var part := ClaimPart(fs, ino, true, NumBlocks(|Serialize(es)|), d0, r0);
    if part.Err? {
      return Err(part.error);
    }
    FillStore(fs, ino, part.value.0, part.value.1, es, d0, r0);
    return Ok(());
  }

  method FillStore(fs: LolelfFs, ino: nat, head: nat, tab: seq<Extent>, es: seq<Entry>, ghost d0: Disk, ghost r0: Roles)
    requires Inv(fs.env, d0, r0) && Live(d0, ino) && es != []
    requires Tiles(tab) && Small(tab) && |tab| <= 19 && |Phys(tab)| == NumBlocks(|Serialize(es)|)
    requires Rebuilding(fs.env, d0, r0, fs.Snap(), fs.roles, ino, true, head, Phys(tab)) && head != 0
    modifies fs`blocks, fs`inodes
    ensures Rewritten(fs.env, d0, fs.Snap(), fs.roles, ino, es)
  {
    var data := Serialize(es);
    var ix := XIndex(XattrIndex(|data|, |es|, PadTable(tab)));
    PartBlockWritten(fs.env, d0, r0, fs.Snap(), fs.roles, ino, true, head, Phys(tab), head, ix);
    fs.blocks := fs.blocks[head := ix];
    ghost var d1 := fs.Snap();
    WriteStore(fs, tab, data, ino);
    ghost var d2 := fs.Snap();
    OnlyMappedTouches(d1, d2, fs.roles, ino, true);
    TouchesTrans(d0, r0, d1, fs.roles, d2, fs.roles, ino, true);
    assert d2.blocks[head] == ix;
    fs.inodes := fs.inodes[ino := fs.inodes[ino].(xattr := head)];
    ghost var d3 := fs.Snap();
    StoreFinished(fs.env, d0, r0, d2, fs.roles, d3, ino, head, tab, es);
  }
}
