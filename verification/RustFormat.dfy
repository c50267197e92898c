/** Making a new filesystem: `create` and `init_filesystem` (lolelffs-tools/src/fs.rs). */
module RustFormat {
  import opened Layout
  import opened Bits
  import opened Content
  import opened DiskState
  import opened RustFs
  import opened RustLife
  import AbstractFs

  // ---- layout ----

  /** The layout for a device of `nr` blocks. */
  function GeometryFor(nr: nat): Geometry {
    var nrInodes := (nr / INODES_PER_BLOCK + 1) * INODES_PER_BLOCK;
    Geometry(nr, nrInodes, nrInodes / INODES_PER_BLOCK, CeilDiv(nrInodes, BITS_PER_BLOCK), CeilDiv(nr, BITS_PER_BLOCK))
  }

  /** The inode count fits in 32 bits exactly below this size. */
  lemma InodeCountFits(nr: nat)
    ensures GeometryFor(nr).nrInodes < U32 <==> nr < 4294967264
  {
  }

  /** From the minimum size on the regions fit, do not overlap, and leave room for the root directory. */
  lemma LayoutFits(nr: nat)
    requires MIN_BLOCKS <= nr < 4294967264
    ensures var g := GeometryFor(nr);
      && GeoOk(g) && g.DataStart() + 1 < nr
      && 0 < 1 < g.IfreeStart() < g.BfreeStart() < g.DataStart()
      && g.nrInodes == g.nrIstore * INODES_PER_BLOCK && nr < g.nrInodes <= nr + INODES_PER_BLOCK
      && g.nrInodes <= g.nrIfree * BITS_PER_BLOCK && nr <= g.nrBfree * BITS_PER_BLOCK
  {
    var q := nr / 56;
    assert (q + 1) * 56 / 56 == q + 1;
    var n := (q + 1) * 56;
    assert n <= nr + 56;
    assert CeilDiv(n, 32768) <= n / 32768 + 1;
    assert CeilDiv(nr, 32768) <= nr / 32768 + 1;
  }

  // ---- the initial disk ----

  /** Block bitmap: free after the root directory's index block and before the end. */
  function NewBfree(g: Geometry, len: nat): (s: seq<bool>)
    ensures |s| == len
    ensures forall b :: 0 <= b < len ==> s[b] == (g.DataStart() < b < g.nrBlocks)
  {
    seq(len, b requires 0 <= b < len => g.DataStart() < b < g.nrBlocks)
  }

  function NewIfree(g: Geometry): (s: seq<bool>)
    ensures |s| == g.nrIfree * BITS_PER_BLOCK
    ensures forall i :: 0 <= i < |s| ==> s[i] == (i != 0)
  {
    seq(g.nrIfree * BITS_PER_BLOCK, i => i != 0)
  }

  function NewRoles(g: Geometry): (r: Roles)
    ensures |r| == g.nrBlocks
    ensures forall b {:trigger r[b]} :: 0 <= b < |r| ==>
      r[b] == if b < g.DataStart() then Meta else if b == g.DataStart() then Idx(AbstractFs.ROOT) else Free
  {
    seq(g.nrBlocks, b requires 0 <= b < g.nrBlocks =>
      if b < g.DataStart() then Meta else if b == g.DataStart() then Idx(AbstractFs.ROOT) else Free)
  }

  function NewInodes(g: Geometry): (s: seq<Inode>)
    ensures |s| == g.nrInodes
  {
    seq(g.nrInodes, i => Template(if i == 0 then S_IFDIR + 0x1ED else 0, if i == 0 then 2 else 0, if i == 0 then g.DataStart() else 0))
  }

  function NewBlocks(g: Geometry): (s: seq<Block>)
    ensures |s| == g.nrBlocks
  {
    seq(g.nrBlocks, b => if b == g.DataStart() then Index(EmptyIndex()) else Raw(Zeros(BLOCK_SIZE)))
  }

  function NewDisk(g: Geometry, freeBlocks: nat): Disk
    requires g.nrInodes > 0
  {
    Disk(g.nrInodes - 1, freeBlocks, NewInodes(g), NewIfree(g), NewBfree(g, g.nrBfree * BITS_PER_BLOCK), NewBlocks(g))
  }

  lemma CountPush(s: seq<bool>, v: bool)
    ensures Count(s + [v]) == Count(s) + (if v then 1 else 0)
  {
    assert (s + [v])[..|s|] == s;
  }

  /** The block bitmap loop of `init_filesystem`: marks the bits and counts the free ones. */
  method InitBfree(g: Geometry) returns (bits: seq<bool>, free: nat)
    ensures bits == NewBfree(g, g.nrBfree * BITS_PER_BLOCK) && free == Count(bits)
  {
    bits, free := [], 0;
    for i := 0 to g.nrBfree
      invariant bits == NewBfree(g, i * 32768) && free == Count(bits)
    {
      bits, free := InitBitmapBlock(g, i, bits, free);
    }
  }

  /** One bitmap block. */
  method InitBitmapBlock(g: Geometry, i: nat, bits0: seq<bool>, free0: nat) returns (bits: seq<bool>, free: nat)
    requires bits0 == NewBfree(g, i * 32768) && free0 == Count(bits0)
    ensures bits == NewBfree(g, (i + 1) * 32768) && free == Count(bits)
  {
    bits, free := bits0, free0;
    for bit := 0 to 32768
      invariant bits == NewBfree(g, i * 32768 + bit) && free == Count(bits)
    {
      var b := i * 32768 + bit;
      var v := true;
      if b >= g.nrBlocks {
        v := false;
      } else if b < g.DataStart() + 1 {
        v := false;
      } else {
        free := free + 1;
      }
      CountPush(bits, v);
      bits := bits + [v];
    }
  }

  lemma NewCounts(g: Geometry)
    requires GeoOk(g) && g.nrInodes <= g.nrIfree * BITS_PER_BLOCK && g.nrBlocks <= g.nrBfree * BITS_PER_BLOCK
    ensures var bits := NewBfree(g, g.nrBfree * BITS_PER_BLOCK);
      Count(bits) == Count(bits[..g.nrBlocks]) == g.nrBlocks - g.DataStart() - 1
    ensures Count(NewIfree(g)[..g.nrInodes]) == g.nrInodes - 1
  {
    var bits := NewBfree(g, g.nrBfree * BITS_PER_BLOCK);
    CountWindow(bits, g.DataStart() + 1, g.nrBlocks);
    CountWindow(bits[..g.nrBlocks], g.DataStart() + 1, g.nrBlocks);
    CountWindow(NewIfree(g)[..g.nrInodes], 1, g.nrInodes);
  }

  lemma RootSound(e: Env, d: Disk)
    requires GeoOk(e.geo) && d == NewDisk(e.geo, d.freeBlocks)
    ensures NodeOk(e, d, NewRoles(e.geo), 0)
    ensures NodeView(e, d, 0) == AbstractFs.Dir(2, map[], map[])
  {
    var b := e.geo.DataStart();
    assert d.blocks[b] == Index(EmptyIndex());
    assert d.inodes[0] == Template(S_IFDIR + 0x1ED, 2, b);
    FreshPayload(e, d, 0, b);
    assert PartOk(d, NewRoles(e.geo), 0, false);
    assert PartOk(d, NewRoles(e.geo), 0, true);
  }

  lemma NewBits(e: Env, d: Disk)
    requires e.geo == GeometryFor(e.geo.nrBlocks) && MIN_BLOCKS <= e.geo.nrBlocks < 4294967264
    requires GeoOk(e.geo) && SmallAlgos(e.cfg) && d == NewDisk(e.geo, e.geo.nrBlocks - e.geo.DataStart() - 1)
    ensures Shape(e, d) && BitsOk(e, d, NewRoles(e.geo)) && NoOrphans(d, NewRoles(e.geo))
    ensures forall i: nat :: Live(d, i) <==> i == 0
  {
    LayoutFits(e.geo.nrBlocks);
    NewCounts(e.geo);
  }

  /** A new disk satisfies the whole invariant and holds an empty root directory. */
  lemma NewIsGood(e: Env, d: Disk)
    requires e.geo == GeometryFor(e.geo.nrBlocks) && MIN_BLOCKS <= e.geo.nrBlocks < 4294967264
    requires GeoOk(e.geo) && SmallAlgos(e.cfg) && d == NewDisk(e.geo, e.geo.nrBlocks - e.geo.DataStart() - 1)
    ensures Good(e, d, NewRoles(e.geo)) && ViewOf(e, d) == AbstractFs.NEW_VIEW
  {
    NewBits(e, d);
    RootSound(e, d);
    AllSound(e, d, NewRoles(e.geo), |d.inodes|);
    ViewIs(e, d, AbstractFs.NEW_VIEW);
    AbstractFs.NewLinked();
  }

  /**
   * `create`: refuses a device below the minimum size; otherwise the new filesystem satisfies the
   * invariant, holds exactly an empty root directory, and its counters equal what is left.
   */
  method Create(size: nat, cfg: Config, utf8: Bytes -> bool) returns (r: Result<LolelfFs>)
    requires size / BLOCK_SIZE % U32 < 4294967264 && SmallAlgos(cfg)
    ensures r.Err? <==> size / BLOCK_SIZE % U32 < MIN_BLOCKS
    ensures r.Err? ==> r.error == TooSmall
    ensures r.Ok? ==> fresh(r.value) && var fs := r.value; var g := GeometryFor(size / BLOCK_SIZE % U32);
      && fs.env == Env(g, cfg, utf8)
      && Good(fs.env, fs.Snap(), fs.roles) && ViewOf(fs.env, fs.Snap()) == AbstractFs.NEW_VIEW
      && fs.freeInodes == g.nrInodes - 1 && fs.freeBlocks == g.nrBlocks - g.DataStart() - 1
      && fs.Snap() == NewDisk(g, fs.freeBlocks)
  {
    var nr := size / BLOCK_SIZE % U32;
    if nr < MIN_BLOCKS {
      return Err(TooSmall);
    }
    LayoutFits(nr);
    var g := GeometryFor(nr);
    NewCounts(g);
    var bits, free := InitBfree(g);
    var d := Disk(g.nrInodes - 1, free, NewInodes(g), NewIfree(g), bits, NewBlocks(g));
    NewIsGood(Env(g, cfg, utf8), d);
    var fs := new LolelfFs(Env(g, cfg, utf8), d, NewRoles(g));
    return Ok(fs);
  }
}
