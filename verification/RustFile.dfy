/** Regular files: `read_file` and `write_file` (lolelffs-tools/src/file.rs). */
module RustFile {
  import opened Layout
  import opened Extents
  import opened Content
  import opened DiskState
  import opened RustFs
  import opened RustPlan
  import opened RustPart
  import AbstractFs

  // ---- reading ----

  lemma {:induction false} LoadErr(cfg: Config, algos: seq<Algo>, raws: seq<Bytes>, size: nat, m: nat, n: nat)
    requires m <= n <= |algos| && n <= |raws| && n <= NumBlocks(size)
    requires Load(cfg, algos, raws, size, m).Err?
    ensures Load(cfg, algos, raws, size, n) == Load(cfg, algos, raws, size, m)
    decreases n
  {
    if m < n {
      LoadErr(cfg, algos, raws, size, m, n - 1);
    }
  }

  /** What reading a node returns. */
  function ReadNode(n: AbstractFs.Node): Result<Bytes> {
    match n
    case Dir(_, _, _) => Err(IsADirectory)
    case Symlink(_, _, t) => Ok(t)
    case File(_, _, c) => c
  }

  /** Find, read and decode block `k` of a file. */
  method ReadBlock(fs: LolelfFs, exts: seq<Extent>, k: nat) returns (block: Result<Bytes>)
    requires ValidIndex(exts) && k < |Phys(Used(exts))|
    requires Phys(Used(exts))[k] < |fs.blocks| && fs.blocks[Phys(Used(exts))[k]].Raw?
    ensures var a := AlgosOf(Used(exts))[k];
      block == LoadBlock(fs.env.cfg, k, a.comp, a.enc, RawsOf(Picked(fs.Snap(), Phys(Used(exts))))[k])
  {
    ghost var tab := Used(exts);
    FindMapped(tab, k);
    var j := FindExtent(exts, k);
    var e := exts[j.value];
    var b := fs.blocks[e.start + (k - e.block)];
    assert b == Picked(fs.Snap(), Phys(tab))[k];
    assert AlgosOf(tab)[k] == Algo(e.comp, e.enc);
    block := LoadBlock(fs.env.cfg, k, e.comp, e.enc, b.bytes);
  }

  /** The block loop of `read_file`. */
  method ReadBlocks(fs: LolelfFs, exts: seq<Extent>, size: nat) returns (r: Result<Bytes>)
    requires ValidIndex(exts)
    requires |Phys(Used(exts))| == NumBlocks(size)
    requires AllRaw(Picked(fs.Snap(), Phys(Used(exts))))
    requires forall k :: 0 <= k < |Phys(Used(exts))| ==> Phys(Used(exts))[k] < |fs.blocks|
    ensures var tab := Used(exts);
      r == Load(fs.env.cfg, AlgosOf(tab), RawsOf(Picked(fs.Snap(), Phys(tab))), size, NumBlocks(size))
  {
    var data: Bytes := [];
    var n := NumBlocks(size);
    ghost var m := Phys(Used(exts));
    ghost var algos, raws := AlgosOf(Used(exts)), RawsOf(Picked(fs.Snap(), m));
    for k := 0 to n
      invariant Load(fs.env.cfg, algos, raws, size, k) == Ok(data)
    {
      assert Picked(fs.Snap(), m)[k].Raw?;
      var block := ReadBlock(fs, exts, k);
      LoadErrStep(fs.env.cfg, algos, raws, size, k, n);
      if block.Err? {
        return block;
      }
      if |block.value| < BytesIn(size, k) {
        return Err(CodecFailed);
      }
      data := data + block.value[..BytesIn(size, k)];
    }
    return Ok(data);
  }

  lemma LoadErrStep(cfg: Config, algos: seq<Algo>, raws: seq<Bytes>, size: nat, k: nat, n: nat)
    requires k < n <= |algos| && n <= |raws| && n <= NumBlocks(size)
    ensures Load(cfg, algos, raws, size, k + 1).Err? ==> Load(cfg, algos, raws, size, n) == Load(cfg, algos, raws, size, k + 1)
  {
    if Load(cfg, algos, raws, size, k + 1).Err? {
      LoadErr(cfg, algos, raws, size, k + 1, n);
    }
  }

  /** `read_file`: what the view holds for the inode. */
  method ReadFile(fs: LolelfFs, ino: nat) returns (r: Result<Bytes>)
    requires Inv(fs.env, fs.Snap(), fs.roles)
    requires ino < fs.env.geo.nrInodes ==> Live(fs.Snap(), ino)
    ensures r == if ino < fs.env.geo.nrInodes then ReadNode(NodeView(fs.env, fs.Snap(), ino)) else Err(BadInode)
  {
    if ino >= fs.env.geo.nrInodes {
      return Err(BadInode);
    }
    NodeSound(fs.env, fs.Snap(), fs.roles, ino);
    var n := fs.inodes[ino];
    if IsDir(n) {
      return Err(IsADirectory);
    }
    if IsSymlink(n) {
      return Ok(CString(n.data));
    }
    if n.ei == 0 || n.size == 0 {
      return Ok([]);
    }
    var exts := fs.blocks[n.ei].ei.extents;
    r := ReadBlocks(fs, exts, n.size);
  }

  // ---- writing ----

  /** The logical block whose choice an extent has recorded once blocks below `k` are written. */
  function RecordedBlock(e: Extent, k: nat): nat
    requires e.block < k && e.len > 0
  {
    Min(k, e.block + e.len) - 1
  }

  /** The algorithm chosen for each block of the file. */
  function Choices(cfg: Config, data: Bytes): (r: seq<nat>)
    ensures |r| == NumBlocks(|data|)
  {
    seq(NumBlocks(|data|), k requires 0 <= k < NumBlocks(|data|) => CompUsed(cfg, Chunk(data, k)))
  }

  /** The bytes each block of the file becomes on disk. */
  function Seals(cfg: Config, data: Bytes): (r: seq<Result<Bytes>>)
    ensures |r| == NumBlocks(|data|)
  {
    seq(NumBlocks(|data|), k requires 0 <= k < NumBlocks(|data|) => Sealed(cfg, k, Chunk(data, k)))
  }

  /** Extent bookkeeping while blocks below `k` are written. */
  predicate Recorded(choice: seq<nat>, enc: nat, tab: seq<Extent>, upd: seq<Extent>, k: nat)
    requires k <= |choice|
  {
    && SamePlacement(tab, upd) && Small(upd)
    && forall j :: 0 <= j < |tab| && tab[j].len > 0 && tab[j].block < k ==>
         upd[j].comp == choice[RecordedBlock(tab[j], k)] && upd[j].enc == enc
  }

  function Flags(comp: nat, enc: nat): nat {
    (if comp != 0 then 1 else 0) + (if enc != 0 then 2 else 0)
  }

  lemma RecordedStep(choice: seq<nat>, enc: nat, tab: seq<Extent>, upd: seq<Extent>, k: nat, j: nat, e: Extent)
    requires k < |choice| && Recorded(choice, enc, tab, upd, k) && Tiles(tab)
    requires j < |tab| && Contains(tab[j], k)
    requires e == upd[j].(comp := choice[k], enc := enc, flags := e.flags) && SmallFields(e)
    ensures Recorded(choice, enc, tab, upd[j := e], k + 1)
  {
    var upd' := upd[j := e];
    forall i | 0 <= i < |tab| && tab[i].len > 0 && tab[i].block < k + 1
      ensures upd'[i].comp == choice[RecordedBlock(tab[i], k + 1)] && upd'[i].enc == enc
    {
      if i < j { TilesOrdered(tab, i, j); }
      if i > j { TilesOrdered(tab, j, i); }
    }
  }

  /** Blocks below `k` of the file are on disk. */
  predicate ChunksOnDisk(seals: seq<Result<Bytes>>, blocks: seq<Block>, m: seq<nat>, k: nat)
    requires k <= |m| == |seals|
  {
    forall l :: 0 <= l < k ==> m[l] < |blocks| && seals[l].Ok? && blocks[m[l]] == Raw(seals[l].value)
  }

  /** Blocks other than the mapped blocks of part `x` of inode `i` are as before. */
  ghost predicate OnlyMapped(old_: seq<Block>, new_: seq<Block>, r: Roles, i: nat, x: bool) {
    && |old_| == |new_| == |r|
    && forall b {:trigger new_[b]} :: 0 <= b < |r| && new_[b] != old_[b] ==> InPart(r[b], i, x) && r[b] != HeadRole(i, x)
  }

  lemma OnlyMappedTouches(d: Disk, d': Disk, r: Roles, i: nat, x: bool)
    requires OnlyMapped(d.blocks, d'.blocks, r, i, x) && d'.inodes == d.inodes && i < |d.inodes|
    ensures Touches(d, r, d', r, i, x)
  {
    forall b | 0 <= b < |r| ensures TouchedFor(d, r, d', r, i, x, b) {
      assert d'.blocks[b] == d'.blocks[b];
    }
  }

  lemma ChunkWritten(seals: seq<Result<Bytes>>, blocks0: seq<Block>, blocks: seq<Block>, r: Roles, tab: seq<Extent>, k: nat, i: nat, x: bool)
    requires Tiles(tab) && k < |Phys(tab)| == |seals| && ChunksOnDisk(seals, blocks, Phys(tab), k)
    requires Backed(r, Phys(tab), i, x) && OnlyMapped(blocks0, blocks, r, i, x) && seals[k].Ok?
    ensures var j := Find(tab, k);
      && j < |tab| && var phys := tab[j].start + (k - tab[j].block);
      && phys < |blocks|
      && var blocks' := blocks[phys := Raw(seals[k].value)];
      && ChunksOnDisk(seals, blocks', Phys(tab), k + 1)
      && OnlyMapped(blocks0, blocks', r, i, x)
  {
    var m := Phys(tab);
    FindMapped(tab, k);
    assert r[m[k]] == DataRole(i, x, k);
    forall l | 0 <= l < k ensures m[l] != m[k] {
      BackedInjective(r, m, i, x, l, k);
    }
  }

  /** Compress and encrypt one padded chunk. */
  method PrepareBlock(cfg: Config, data: Bytes, k: nat) returns (sealed: Result<Bytes>, used: nat)
    requires k < NumBlocks(|data|)
    ensures sealed == Seals(cfg, data)[k] && used == Choices(cfg, data)[k]
    ensures sealed.Err? ==> sealed.error == Locked || sealed.error == CodecFailed
  {
    var chunk := Chunk(data, k);
    used := CompUsed(cfg, chunk);
    sealed := Sealed(cfg, k, chunk);
  }

  /** Write a prepared block `k` where its extent maps it and record the choice. */
  method PlaceChunk(fs: LolelfFs, tab: seq<Extent>, upd: seq<Extent>, k: nat, sealed: Bytes, used: nat, enc: nat,
                    ghost i: nat, ghost blocks0: seq<Block>, ghost seals: seq<Result<Bytes>>, ghost choice: seq<nat>)
    returns (r: seq<Extent>)
    requires Tiles(tab) && k < |Phys(tab)| == |seals| == |choice| && seals[k] == Ok(sealed) && choice[k] == used
    requires Backed(fs.roles, Phys(tab), i, false) && OnlyMapped(blocks0, fs.blocks, fs.roles, i, false)
    requires Recorded(choice, enc, tab, upd, k) && ChunksOnDisk(seals, fs.blocks, Phys(tab), k) && used < 256 && enc < 256
    modifies fs`blocks
    ensures OnlyMapped(blocks0, fs.blocks, fs.roles, i, false)
    ensures Recorded(choice, enc, tab, r, k + 1) && ChunksOnDisk(seals, fs.blocks, Phys(tab), k + 1)
  {
    ChunkWritten(seals, blocks0, fs.blocks, fs.roles, tab, k, i, false);
    var j := Find(tab, k);
    var e' := upd[j].(comp := used, enc := enc, flags := Flags(used, enc));
    RecordedStep(choice, enc, tab, upd, k, j, e');
    fs.blocks := fs.blocks[tab[j].start + (k - tab[j].block) := Raw(sealed)];
    return upd[j := e'];
  }

  /** The error of the first block from `k` on that cannot be sealed. */
  function SealError(cfg: Config, data: Bytes, k: nat): Option<Error>
    requires k <= NumBlocks(|data|)
    decreases NumBlocks(|data|) - k
  {
    if k == NumBlocks(|data|) then None
    else match Sealed(cfg, k, Chunk(data, k))
         case Err(x) => Some(x)
         case Ok(_) => SealError(cfg, data, k + 1)
  }

  lemma {:induction false} StorableIff(cfg: Config, data: Bytes, k: nat)
    requires k <= NumBlocks(|data|) && forall j :: 0 <= j < k ==> Sealed(cfg, j, Chunk(data, j)).Ok?
    ensures SealError(cfg, data, k) == None <==> Storable(cfg, data)
    decreases NumBlocks(|data|) - k
  {
    if k < NumBlocks(|data|) && Sealed(cfg, k, Chunk(data, k)).Ok? {
      StorableIff(cfg, data, k + 1);
    }
  }

  lemma SealStep(cfg: Config, data: Bytes, k: nat)
    requires k < NumBlocks(|data|)
    ensures SealError(cfg, data, k) == if Seals(cfg, data)[k].Ok? then SealError(cfg, data, k + 1) else Some(Seals(cfg, data)[k].error)
  {
    assert Seals(cfg, data)[k] == Sealed(cfg, k, Chunk(data, k));
  }

  /** One turn of the chunk loop. */
  method WriteChunk(fs: LolelfFs, tab: seq<Extent>, upd: seq<Extent>, data: Bytes, k: nat, ghost i: nat, ghost blocks0: seq<Block>)
    returns (r: Result<seq<Extent>>)
    requires Tiles(tab) && k < |Phys(tab)| == NumBlocks(|data|) && SmallAlgos(fs.env.cfg)
    requires Backed(fs.roles, Phys(tab), i, false) && OnlyMapped(blocks0, fs.blocks, fs.roles, i, false)
    requires Recorded(Choices(fs.env.cfg, data), EncUsed(fs.env.cfg), tab, upd, k)
    requires ChunksOnDisk(Seals(fs.env.cfg, data), fs.blocks, Phys(tab), k)
    modifies fs`blocks
    ensures OnlyMapped(blocks0, fs.blocks, fs.roles, i, false)
    ensures r.Ok? <==> Seals(fs.env.cfg, data)[k].Ok?
    ensures r.Err? ==> (r.error == Locked || r.error == CodecFailed) && Seals(fs.env.cfg, data)[k] == Err(r.error)
    ensures r.Ok? ==>
      && Recorded(Choices(fs.env.cfg, data), EncUsed(fs.env.cfg), tab, r.value, k + 1)
      && ChunksOnDisk(Seals(fs.env.cfg, data), fs.blocks, Phys(tab), k + 1)
  {
    var cfg := fs.env.cfg;
    var sealed, used := PrepareBlock(cfg, data, k);
    if sealed.Err? {
      return Err(sealed.error);
    }
    var u := PlaceChunk(fs, tab, upd, k, sealed.value, used, EncUsed(cfg), i, blocks0, Seals(cfg, data), Choices(cfg, data));
    return Ok(u);
  }

  /**
   * The chunk loop of `write_file`: every block of the file is packed, sealed and written to the
   * block its extent maps, and each extent ends up with the choice of its last block.
   */
  method WriteChunks(fs: LolelfFs, tab: seq<Extent>, data: Bytes, ghost i: nat) returns (r: Result<seq<Extent>>)
    requires Tiles(tab) && Small(tab) && |Phys(tab)| == NumBlocks(|data|) && SmallAlgos(fs.env.cfg)
    requires |fs.roles| == |fs.blocks| && Backed(fs.roles, Phys(tab), i, false)
    modifies fs`blocks
    ensures OnlyMapped(old(fs.blocks), fs.blocks, fs.roles, i, false)
    ensures r.Err? ==> (r.error == Locked || r.error == CodecFailed) && SealError(fs.env.cfg, data, 0) == Some(r.error)
    ensures r.Ok? <==> Storable(fs.env.cfg, data)
    ensures r.Ok? ==>
      && Recorded(Choices(fs.env.cfg, data), EncUsed(fs.env.cfg), tab, r.value, NumBlocks(|data|))
      && ChunksOnDisk(Seals(fs.env.cfg, data), fs.blocks, Phys(tab), NumBlocks(|data|))
  {
    ghost var seals, choice, error := Seals(fs.env.cfg, data), Choices(fs.env.cfg, data), SealError(fs.env.cfg, data, 0);
    var upd := tab;
    for k := 0 to NumBlocks(|data|)
      invariant OnlyMapped(old(fs.blocks), fs.blocks, fs.roles, i, false)
      invariant Recorded(choice, EncUsed(fs.env.cfg), tab, upd, k)
      invariant ChunksOnDisk(seals, fs.blocks, Phys(tab), k)
      invariant SealError(fs.env.cfg, data, k) == error
    {
      SealStep(fs.env.cfg, data, k);
      var u := WriteChunk(fs, tab, upd, data, k, i, old(fs.blocks));
      if u.Err? {
        NotStorable(fs.env.cfg, data, k);
        return u;
      }
      upd := u.value;
    }
    AllStorable(fs.env.cfg, data);
    return Ok(upd);
  }

  lemma NotStorable(cfg: Config, data: Bytes, k: nat)
    requires k < NumBlocks(|data|) && Seals(cfg, data)[k].Err?
    ensures !Storable(cfg, data)
  {
    assert Seals(cfg, data)[k] == Sealed(cfg, k, Chunk(data, k));
  }

  lemma AllStorable(cfg: Config, data: Bytes)
    requires forall k :: 0 <= k < NumBlocks(|data|) ==> Seals(cfg, data)[k].Ok?
    ensures Storable(cfg, data)
  {
    assert forall k :: 0 <= k < NumBlocks(|data|) ==> Seals(cfg, data)[k] == Sealed(cfg, k, Chunk(data, k));
  }

  predicate IsRegular(n: Inode) { !IsDir(n) && !IsSymlink(n) }

  lemma FileNodeOk(e: Env, d0: Disk, r0: Roles, d: Disk, r: Roles, i: nat, head: nat, m: seq<nat>, n: Inode)
    requires Inv(e, d0, r0) && Live(d0, i) && Rebuilding(e, d0, r0, d, r, i, false, head, m)
    requires IsRegular(d0.inodes[i]) && n == d0.inodes[i].(ei := head, size := n.size, blocks := n.blocks)
    requires head != 0 ==> IsHead(d.blocks[head], false) && ValidIndex(HeadExtents(d.blocks[head], false)) && NrFiles(d.blocks[head]) == 0
    requires Phys(TableAt(d, head, false)) == m
    requires FileOk(n, Picked(d, m))
    ensures var d' := d.(inodes := d.inodes[i := n]);
      && Touches(d0, r0, d', r, i, false)
      && NodeOk(e, d', r, i)
      && NodeView(e, d', i) == AbstractFs.File(n.nlink, XattrView(e, d0, i), FileContent(e.cfg, n, TableAt(d, head, false), Picked(d, m)))
  {
    var d' := d.(inodes := d.inodes[i := n]);
    PartRebuilt(e, d0, r0, d, r, i, false, head, m, n);
    NodeSound(e, d0, r0, i);
    XPartFrame(e, d0, r0, d', r, i);
    assert Picked(d', m) == Picked(d, m);
    FilePayload(e, d', i, n, m);
  }

  lemma FilePayload(e: Env, d: Disk, i: nat, n: Inode, m: seq<nat>)
    requires i < |d.inodes| && d.inodes[i] == n && IsRegular(n) && SmallInode(n) && MapOf(d, i, false) == m
    requires n.ei != 0 ==> NrFiles(BlockAt(d, n.ei)) == 0
    requires FileOk(n, Picked(d, m))
    ensures PayloadOk(d, i)
    ensures NodeView(e, d, i) == AbstractFs.File(n.nlink, XattrView(e, d, i), FileContent(e.cfg, n, TableAt(d, n.ei, false), Picked(d, m)))
  {
  }

  /** A rebuilt file: the disk is sound again and only this file's content changed. */
  lemma FileRebuilt(e: Env, d0: Disk, r0: Roles, d: Disk, r: Roles, i: nat, head: nat, m: seq<nat>, n: Inode)
    requires Inv(e, d0, r0) && Live(d0, i) && Rebuilding(e, d0, r0, d, r, i, false, head, m)
    requires IsRegular(d0.inodes[i]) && n == d0.inodes[i].(ei := head, size := n.size, blocks := n.blocks)
    requires head != 0 ==> IsHead(d.blocks[head], false) && ValidIndex(HeadExtents(d.blocks[head], false)) && NrFiles(d.blocks[head]) == 0
    requires Phys(TableAt(d, head, false)) == m
    requires FileOk(n, Picked(d, m))
    ensures var d' := d.(inodes := d.inodes[i := n]);
      && Inv(e, d', r)
      && i in ViewOf(e, d0) && ViewOf(e, d0)[i].File?
      && ViewOf(e, d') == AbstractFs.SetContent(ViewOf(e, d0), i, FileContent(e.cfg, n, TableAt(d, head, false), Picked(d, m)))
  {
    var d' := d.(inodes := d.inodes[i := n]);
    FileNodeOk(e, d0, r0, d, r, i, head, m, n);
    OneNodeChanged(e, d0, r0, d', r, i, false);
    ViewAt(e, d0, i);
  }

  lemma IndexOfEmpty()
    ensures ValidIndex(EmptyIndex().extents) && Used(EmptyIndex().extents) == []
  {
    UsedPad([]);
    assert EmptyIndex().extents == PadTable([]);
  }

  /** The written table maps as planned and its recorded algorithms are the stored ones. */
  lemma WrittenTable(cfg: Config, data: Bytes, tab: seq<Extent>, upd: seq<Extent>)
    requires Planned(tab, NumBlocks(|data|), EffectiveMax(cfg.maxLarge)) && |Phys(tab)| == NumBlocks(|data|)
    requires Recorded(Choices(cfg, data), EncUsed(cfg), tab, upd, NumBlocks(|data|))
    ensures Tiles(upd) && Phys(upd) == Phys(tab)
    ensures AlgosOf(upd) == StoredAlgos(cfg, data)
  {
    TilesSame(tab, upd);
    var n := NumBlocks(|data|);
    forall k | 0 <= k < n ensures AlgosOf(upd)[k] == StoredAlgos(cfg, data)[k] {
      RecordedLast(cfg, data, tab, upd, k);
    }
  }

  /** When the whole file is written an extent has recorded its last planned block. */
  lemma PlannedLast(tab: seq<Extent>, n: nat, max: nat, k: nat)
    requires Planned(tab, n, max) && max > 0 && k < |Phys(tab)| == n
    ensures Find(tab, k) < |tab| && tab[Find(tab, k)].block < n
    ensures RecordedBlock(tab[Find(tab, k)], n) == PlanEnd(n, max, 0, k) - 1
  {
    PlanEndOf(tab, n, max, k);
    var j := Find(tab, k);
    PhysAt(tab, j, tab[j].len - 1);
  }

  /** The choice an extent ends up with, for a block `last` that is its last. */
  lemma RecordedAt(choice: seq<nat>, enc: nat, tab: seq<Extent>, upd: seq<Extent>, k: nat, last: nat)
    requires Tiles(tab) && Tiles(upd) && Recorded(choice, enc, tab, upd, |choice|) && last < |choice|
    requires Find(tab, k) < |tab| && tab[Find(tab, k)].block < |choice| && last == RecordedBlock(tab[Find(tab, k)], |choice|)
    ensures Find(upd, k) < |upd| && upd[Find(upd, k)].comp == choice[last] && upd[Find(upd, k)].enc == enc
  {
    var j := Find(tab, k);
    assert Contains(tab[j], k) && Contains(upd[j], k);
    FindUnique(upd, k, j);
  }

  lemma RecordedLast(cfg: Config, data: Bytes, tab: seq<Extent>, upd: seq<Extent>, k: nat)
    requires Planned(tab, NumBlocks(|data|), EffectiveMax(cfg.maxLarge)) && k < |Phys(tab)| == NumBlocks(|data|)
    requires Recorded(Choices(cfg, data), EncUsed(cfg), tab, upd, NumBlocks(|data|)) && Tiles(upd)
    ensures Find(upd, k) < |upd|
    ensures var e := upd[Find(upd, k)];
      e.comp == CompUsed(cfg, Chunk(data, LastOf(cfg, NumBlocks(|data|), k))) && e.enc == EncUsed(cfg)
  {
    var last := LastOf(cfg, NumBlocks(|data|), k);
    PlannedLast(tab, NumBlocks(|data|), EffectiveMax(cfg.maxLarge), k);
    RecordedAt(Choices(cfg, data), EncUsed(cfg), tab, upd, k, last);
    assert Choices(cfg, data)[last] == CompUsed(cfg, Chunk(data, last));
  }

  /** What is on disk after the chunk loop reads back as `Readback`. */
  lemma WrittenContent(e: Env, d: Disk, data: Bytes, upd: seq<Extent>, n: Inode)
    requires Storable(e.cfg, data) && data != [] && Tiles(upd) && |Phys(upd)| == NumBlocks(|data|)
    requires AlgosOf(upd) == StoredAlgos(e.cfg, data)
    requires ChunksOnDisk(Seals(e.cfg, data), d.blocks, Phys(upd), NumBlocks(|data|))
    requires n.size == |data| && n.ei != 0
    ensures AllRaw(Picked(d, Phys(upd)))
    ensures FileContent(e.cfg, n, upd, Picked(d, Phys(upd))) == Readback(e.cfg, data)
  {
    var m := Phys(upd);
    var bs := Picked(d, m);
    forall k | 0 <= k < |m| ensures bs[k] == Raw(StoredRaws(e.cfg, data)[k]) {
      assert Seals(e.cfg, data)[k] == Sealed(e.cfg, k, Chunk(data, k));
    }
    assert RawsOf(bs) == StoredRaws(e.cfg, data);
  }

  /** Errors after which the old extents are already given back: the state is not restored. */
  predicate Dirty(err: Error) {
    err in {NoSpace, ZeroBlocks, Locked, CodecFailed}
  }

  /** `write_file` with no data: the file keeps its index block, now empty. */
  method WriteEmpty(fs: LolelfFs, ino: nat, ghost d0: Disk, ghost r0: Roles)
    requires Inv(fs.env, d0, r0) && Live(d0, ino) && IsRegular(d0.inodes[ino])
    requires Rebuilding(fs.env, d0, r0, fs.Snap(), fs.roles, ino, false, d0.inodes[ino].ei, [])
    modifies fs`blocks, fs`inodes
    ensures Inv(fs.env, fs.Snap(), fs.roles)
    ensures ino in ViewOf(fs.env, d0) && ViewOf(fs.env, d0)[ino].File?
    ensures ViewOf(fs.env, fs.Snap()) == AbstractFs.SetContent(ViewOf(fs.env, d0), ino, Ok([]))
  {
    var n := fs.inodes[ino];
    ghost var d := fs.Snap();
    IndexOfEmpty();
    if n.ei != 0 {
      PartBlockWritten(fs.env, d0, r0, d, fs.roles, ino, false, n.ei, [], n.ei, Index(EmptyIndex()));
      fs.blocks := fs.blocks[n.ei := Index(EmptyIndex())];
      d := fs.Snap();
    }
    var n' := n.(size := 0, blocks := 0);
    FileRebuilt(fs.env, d0, r0, d, fs.roles, ino, n.ei, [], n');
    fs.inodes := fs.inodes[ino := n'];
  }

  /** The second half of `write_file`: extents allocated, write index, chunks, index, inode. */
  method WriteExtents(fs: LolelfFs, ino: nat, head: nat, tab: seq<Extent>, data: Bytes, ghost d0: Disk, ghost r0: Roles) returns (r: Result<()>)
    requires Inv(fs.env, d0, r0) && Live(d0, ino) && IsRegular(d0.inodes[ino])
    requires 0 < |data| <= MAX_SIZE && head != 0
    requires EffectiveMax(fs.env.cfg.maxLarge) == MAX_EXTENT_BLOCKS_LARGE
    requires Planned(tab, NumBlocks(|data|), MAX_EXTENT_BLOCKS_LARGE) && |Phys(tab)| == NumBlocks(|data|) && |tab| <= 19
    requires Rebuilding(fs.env, d0, r0, fs.Snap(), fs.roles, ino, false, head, Phys(tab))
    modifies fs`blocks, fs`inodes
    ensures r.Ok? <==> Storable(fs.env.cfg, data)
    ensures r.Err? ==> (r.error == Locked || r.error == CodecFailed) && SealError(fs.env.cfg, data, 0) == Some(r.error)
    ensures r.Err? ==> Stalled(fs.env, d0, r0, fs.Snap(), fs.roles, ino, false)
    ensures r.Ok? ==>
      && Inv(fs.env, fs.Snap(), fs.roles)
      && ino in ViewOf(fs.env, d0) && ViewOf(fs.env, d0)[ino].File?
      && ViewOf(fs.env, fs.Snap()) == AbstractFs.SetContent(ViewOf(fs.env, d0), ino, Readback(fs.env.cfg, data))
  {
    var u := PutChunks(fs, ino, head, tab, data, d0, r0);
    if u.Err? {
      return Err(u.error);
    }
    var upd := u.value;
    var n' := fs.inodes[ino].(ei := head, size := |data|, blocks := NumBlocks(|data|));
    FileFinished(fs.env, d0, r0, fs.Snap(), fs.roles, ino, head, tab, upd, data, n');
    fs.blocks := fs.blocks[head := Index(ExtentIndex(0, PadTable(upd)))];
    fs.inodes := fs.inodes[ino := n'];
    return Ok(());
  }

  /** Write the planned index, then the blocks of the file. */
  method PutChunks(fs: LolelfFs, ino: nat, head: nat, tab: seq<Extent>, data: Bytes, ghost d0: Disk, ghost r0: Roles)
    returns (u: Result<seq<Extent>>)
    requires Tiles(tab) && Small(tab) && |Phys(tab)| == NumBlocks(|data|) && |tab| <= 19 && head != 0
    requires Rebuilding(fs.env, d0, r0, fs.Snap(), fs.roles, ino, false, head, Phys(tab))
    modifies fs`blocks
    ensures Rebuilding(fs.env, d0, r0, fs.Snap(), fs.roles, ino, false, head, Phys(tab))
    ensures u.Err? ==> (u.error == Locked || u.error == CodecFailed) && SealError(fs.env.cfg, data, 0) == Some(u.error)
    ensures u.Ok? <==> Storable(fs.env.cfg, data)
    ensures u.Ok? ==>
      && Recorded(Choices(fs.env.cfg, data), EncUsed(fs.env.cfg), tab, u.value, NumBlocks(|data|))
      && ChunksOnDisk(Seals(fs.env.cfg, data), fs.blocks, Phys(tab), NumBlocks(|data|))
  {
    var ix := Index(ExtentIndex(0, PadTable(tab)));
    PartBlockWritten(fs.env, d0, r0, fs.Snap(), fs.roles, ino, false, head, Phys(tab), head, ix);
    fs.blocks := fs.blocks[head := ix];
    ghost var d1 := fs.Snap();
    u := WriteChunks(fs, tab, data, ino);
    OnlyMappedTouches(d1, fs.Snap(), fs.roles, ino, false);
    TouchesTrans(d0, r0, d1, fs.roles, fs.Snap(), fs.roles, ino, false);
  }

  /** Pointing index and inode at the written extents completes the write. */
  lemma FileFinished(e: Env, d0: Disk, r0: Roles, d: Disk, r: Roles, i: nat, head: nat, tab: seq<Extent>, upd: seq<Extent>, data: Bytes, n: Inode)
    requires Inv(e, d0, r0) && Live(d0, i) && IsRegular(d0.inodes[i]) && 0 < |data| <= MAX_SIZE && head != 0
    requires Planned(tab, NumBlocks(|data|), EffectiveMax(e.cfg.maxLarge)) && |Phys(tab)| == NumBlocks(|data|) && |tab| <= 19
    requires Rebuilding(e, d0, r0, d, r, i, false, head, Phys(tab))
    requires Recorded(Choices(e.cfg, data), EncUsed(e.cfg), tab, upd, NumBlocks(|data|))
    requires ChunksOnDisk(Seals(e.cfg, data), d.blocks, Phys(tab), NumBlocks(|data|)) && Storable(e.cfg, data)
    requires n == d0.inodes[i].(ei := head, size := |data|, blocks := NumBlocks(|data|))
    ensures |upd| <= 19 && head < |d.blocks|
    ensures var d' := d.(blocks := d.blocks[head := Index(ExtentIndex(0, PadTable(upd)))], inodes := d.inodes[i := n]);
      && Inv(e, d', r)
      && i in ViewOf(e, d0) && ViewOf(e, d0)[i].File?
      && ViewOf(e, d') == AbstractFs.SetContent(ViewOf(e, d0), i, Readback(e.cfg, data))
  {
    var m := Phys(tab);
    WrittenTable(e.cfg, data, tab, upd);
    UsedPad(upd);
    var ix := Index(ExtentIndex(0, PadTable(upd)));
    var d2 := d.(blocks := d.blocks[head := ix]);
    PartBlockWritten(e, d0, r0, d, r, i, false, head, m, head, ix);
    IndexKeepsChunks(e, d, r, d2, head, ix, m, data, i);
    assert TableAt(d2, head, false) == upd;
    WrittenContent(e, d2, data, upd, n);
    FileRebuilt(e, d0, r0, d2, r, i, head, m, n);
  }

  lemma IndexKeepsChunks(e: Env, d: Disk, r: Roles, d': Disk, head: nat, ix: Block, m: seq<nat>, data: Bytes, i: nat)
    requires head < |d.blocks| == |r| && d' == d.(blocks := d.blocks[head := ix]) && r[head] == Idx(i)
    requires Backed(r, m, i, false) && |m| == NumBlocks(|data|) && ChunksOnDisk(Seals(e.cfg, data), d.blocks, m, |m|)
    ensures ChunksOnDisk(Seals(e.cfg, data), d'.blocks, m, |m|)
  {
    forall k | 0 <= k < |m| ensures m[k] != head {
      assert r[m[k]] == Data(i, k);
    }
  }

  /** File `i` now holds what `data` reads back as; nothing else in the view changed. */
  ghost predicate Wrote(e: Env, d: Disk, d': Disk, r': Roles, i: nat, data: Bytes) {
    && Inv(e, d', r')
    && i in ViewOf(e, d) && ViewOf(e, d)[i].File?
    && Storable(e.cfg, data)
    && ViewOf(e, d') == AbstractFs.SetContent(ViewOf(e, d), i, Readback(e.cfg, data))
  }

  /** Why a write to a regular file fails, decided by the disk before it. */
  ghost function RegularError(e: Env, d: Disk, ino: nat, data: Bytes): Option<Error>
    requires Shape(e, d) && ino < |d.inodes|
  {
    var room := PartError(e, d, ino, false, NumBlocks(|data|));
    if data == [] then None else if room.Some? then room else SealError(e.cfg, data, 0)
  }

  /** Why `write_file` fails. */
  ghost function WriteError(e: Env, d: Disk, ino: nat, data: Bytes): Option<Error>
    requires Shape(e, d)
  {
    if ino >= e.geo.nrInodes then Some(BadInode)
    else if IsDir(d.inodes[ino]) then Some(IsADirectory)
    else if IsSymlink(d.inodes[ino]) then Some(IsASymlink)
    else RegularError(e, d, ino, data)
  }

  /** The write fails after it has begun: no run for its next extent, or data that cannot be sealed. */
  ghost predicate WriteStops(e: Env, d: Disk, ino: nat, data: Bytes)
    requires Shape(e, d)
  {
    WriteError(e, d, ino, data).Some? && Dirty(WriteError(e, d, ino, data).value)
  }

  /** What a write that stops leaves: every other inode as it was; without room, nothing changed but the bitmap. */
  ghost predicate WriteStopped(e: Env, d: Disk, d': Disk, ino: nat, data: Bytes)
    requires Shape(e, d) && ino < |d.inodes|
  {
    && Contained(e, d, d', ino)
    && (PartError(e, d, ino, false, NumBlocks(|data|)).Some? ==> PartStopped(e, d, d', ino, false, NumBlocks(|data|)))
  }

  /**
   * `write_file`: the answer is decided by the disk before. On success the file reads back as
   * `Readback(data)` and nothing else in the view has changed. Refusals leave everything as it was.
   */
  method WriteFile(fs: LolelfFs, ino: nat, data: Bytes) returns (r: Result<()>)
    requires Inv(fs.env, fs.Snap(), fs.roles)
    requires ino < fs.env.geo.nrInodes ==> Live(fs.Snap(), ino)
    requires |data| <= MAX_SIZE
    requires fs.env.cfg.maxLarge == 0 || fs.env.cfg.maxLarge >= MAX_EXTENT_BLOCKS_LARGE
    modifies fs
    ensures fs.Sound() && ErrorOf(r) == old(WriteError(fs.env, fs.Snap(), ino, data))
    ensures r.Ok? ==> Wrote(fs.env, old(fs.Snap()), fs.Snap(), fs.roles, ino, data)
    ensures r.Err? && !Dirty(r.error) ==> fs.Snap() == old(fs.Snap()) && fs.roles == old(fs.roles)
    ensures r.Err? && Dirty(r.error) ==>
      ino < |old(fs.inodes)| && WriteStopped(fs.env, old(fs.Snap()), fs.Snap(), ino, data)
  {
    if ino >= fs.env.geo.nrInodes {
      return Err(BadInode);
    }
    var n := fs.inodes[ino];
    if IsDir(n) {
      return Err(IsADirectory);
    }
    if IsSymlink(n) {
      return Err(IsASymlink);
    }
    ghost var d0, r0 := fs.Snap(), fs.roles;
    var f := FreePart(fs, ino, false);
    if data == [] {
      WriteEmpty(fs, ino, d0, r0);
      return Ok(());
    }
    r := WriteBlocks(fs, ino, data, d0, r0);
  }

  /** `write_file` once the old blocks are given back. */
  method WriteBlocks(fs: LolelfFs, ino: nat, data: Bytes, ghost d0: Disk, ghost r0: Roles) returns (r: Result<()>)
    requires GivenBack(fs.env, d0, r0, fs.Snap(), fs.roles, ino, false) && IsRegular(d0.inodes[ino]) && 0 < |data| <= MAX_SIZE
    requires fs.env.cfg.maxLarge == 0 || fs.env.cfg.maxLarge >= MAX_EXTENT_BLOCKS_LARGE
    modifies fs`freeBlocks, fs`bfree, fs`roles, fs`blocks, fs`inodes
    ensures fs.Sound() && ErrorOf(r) == RegularError(fs.env, d0, ino, data)
    ensures r.Ok? ==> Wrote(fs.env, d0, fs.Snap(), fs.roles, ino, data)
    ensures r.Err? && !Dirty(r.error) ==> fs.Snap() == d0 && fs.roles == r0
    ensures r.Err? && Dirty(r.error) ==> WriteStopped(fs.env, d0, fs.Snap(), ino, data)
  {
    StorableIff(fs.env.cfg, data, 0);
    var part := ClaimPart(fs, ino, false, NumBlocks(|data|), d0, r0);
    if part.Err? {
      return Err(part.error);
    }
    r := WriteExtents(fs, ino, part.value.0, part.value.1, data, d0, r0);
    if r.Err? {
      StalledIsContained(fs.env, d0, r0, fs.Snap(), fs.roles, ino, false);
    }
  }
}
