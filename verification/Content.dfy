/**
 * File contents on disk: the adaptive extent plan, the compress-then-encrypt pipeline of
 * `write_file` and the decrypt-then-decompress pipeline of `read_file`. The codecs and the
 * cipher are parameters.
 */
module Content {
  import opened Layout
  import opened Extents

  datatype Codec = Codec(compress: (nat, Bytes) -> Option<Bytes>,
                         decompress: (nat, Bytes) -> Result<Bytes>,
                         encrypt: (nat, nat, Bytes) -> Result<Bytes>,
                         decrypt: (nat, nat, Bytes) -> Result<Bytes>)

  datatype Config = Config(compEnabled: bool, compAlgo: nat, encEnabled: bool, encAlgo: nat,
                           unlocked: bool, maxLarge: nat, codec: Codec)

  /** The algorithm numbers are bytes. */
  predicate SmallAlgos(cfg: Config) {
    cfg.compAlgo < 256 && cfg.encAlgo < 256
  }

  /** Output sizes: compression only counts when it saves space, both inverses yield whole blocks. */
  ghost predicate Shaped(c: Codec) {
    && (forall a, b, z :: |b| == BLOCK_SIZE && c.compress(a, b) == Some(z) ==> |z| < BLOCK_SIZE)
    && (forall a, z, b :: c.decompress(a, z) == Ok(b) ==> |b| == BLOCK_SIZE)
    && (forall a, k, z, b :: |z| == BLOCK_SIZE && c.decrypt(a, k, z) == Ok(b) ==> |b| == BLOCK_SIZE)
  }

  /**
   * The inverse laws of the algorithms in use: a length-preserving cipher, and decompression of the
   * zero-padded output.
   */
  ghost predicate Inverts(cfg: Config) {
    && (cfg.encEnabled && cfg.encAlgo != 0 ==>
          forall k, b, z :: |b| == BLOCK_SIZE && cfg.codec.encrypt(cfg.encAlgo, k, b) == Ok(z) ==>
            |z| == BLOCK_SIZE && cfg.codec.decrypt(cfg.encAlgo, k, z) == Ok(b))
    && (cfg.compEnabled && cfg.compAlgo != 0 ==>
          forall b, z :: |b| == BLOCK_SIZE && cfg.codec.compress(cfg.compAlgo, b) == Some(z) && |z| <= BLOCK_SIZE ==>
            cfg.codec.decompress(cfg.compAlgo, Pad(z)) == Ok(b))
  }

  /** No block is its own compressed form, and no incompressible block decompresses to itself. */
  ghost predicate NoFixpoint(cfg: Config) {
    && (forall b, z :: |b| == BLOCK_SIZE && cfg.codec.compress(cfg.compAlgo, b) == Some(z) && |z| <= BLOCK_SIZE ==> Pad(z) != b)
    && (forall b :: |b| == BLOCK_SIZE && cfg.codec.compress(cfg.compAlgo, b) == None ==> cfg.codec.decompress(cfg.compAlgo, b) != Ok(b))
  }

  /** A cipher that appends a tag refuses a ciphertext of block size. */
  ghost predicate Tagged(cfg: Config) {
    forall k, z :: |z| == BLOCK_SIZE ==> cfg.codec.decrypt(cfg.encAlgo, k, z).Err?
  }

  function Pad(b: Bytes): (r: Bytes)
    requires |b| <= BLOCK_SIZE
    ensures |r| == BLOCK_SIZE && r[..|b|] == b
  {
    b + seq(BLOCK_SIZE - |b|, _ => 0)
  }

  // ---- the extent plan ----

  function EffectiveMax(large: nat): (m: nat)
    ensures 1 <= m <= MAX_EXTENT_BLOCKS_LARGE
  {
    if large == 0 || large > MAX_EXTENT_BLOCKS_LARGE then MAX_EXTENT_BLOCKS_LARGE else large
  }

  function Scheduled(current: nat, max: nat): nat {
    if current < 8 then 2
    else if current < 32 then 4
    else if current < 256 then 64
    else if current < 1024 then 256
    else max
  }

  /** Rust `calc_optimal_extent_size`: the schedule clipped to the free count. */
  function OptimalSize(current: nat, max: nat, free: nat): nat {
    Min(Scheduled(current, max), free)
  }

  /** Length of the extent planned at logical block `done` of `n`. */
  function PlanStep(n: nat, done: nat, max: nat): nat
    requires done <= n
  {
    Min(Min(Scheduled(done, max), n - done), max)
  }

  /** A table that tiles and whose every extent has the planned length. */
  predicate Planned(tab: seq<Extent>, n: nat, max: nat) {
    && Tiles(tab) && Small(tab)
    && |Phys(tab)| <= n
    && FollowsPlan(tab, n, max)
  }

  predicate FollowsPlan(tab: seq<Extent>, n: nat, max: nat) {
    forall j :: 0 <= j < |tab| ==> tab[j].block <= n && tab[j].len == PlanStep(n, tab[j].block, max)
  }

  /** End of the planned extent holding block `k`. */
  function PlanEnd(n: nat, max: nat, done: nat, k: nat): nat
    requires done <= k < n && max > 0
    decreases n - done
  {
    var e := done + PlanStep(n, done, max);
    if k < e then e else PlanEnd(n, max, e, k)
  }

  lemma {:induction false} PlanEndFrom(tab: seq<Extent>, n: nat, max: nat, i: nat, f: nat, k: nat)
    requires Chained(tab) && FollowsPlan(tab, n, max) && max > 0
    requires i <= f < |tab| && k < n && tab[i].block <= k && Contains(tab[f], k)
    ensures PlanEnd(n, max, tab[i].block, k) == tab[f].block + tab[f].len
    decreases |tab| - i
  {
    if i < f {
      ChainOrdered(tab, i, f);
      ChainOrdered(tab, i + 1, f);
      PlanEndFrom(tab, n, max, i + 1, f, k);
    }
  }

  lemma {:induction false} ChainOrdered(tab: seq<Extent>, i: nat, j: nat)
    requires Chained(tab) && i <= j < |tab|
    ensures if i == j then true else tab[i].block + tab[i].len <= tab[j].block
    decreases j
  {
    if i + 1 < j {
      ChainOrdered(tab, i, j - 1);
    }
  }

  /** The plan does not depend on where the extents were placed. */
  lemma PlanEndOf(tab: seq<Extent>, n: nat, max: nat, k: nat)
    requires Planned(tab, n, max) && max > 0 && k < |Phys(tab)|
    ensures Find(tab, k) < |tab|
    ensures PlanEnd(n, max, 0, k) == tab[Find(tab, k)].block + tab[Find(tab, k)].len
  {
    FindMapped(tab, k);
    TilesChained(tab);
    PlanEndFrom(tab, n, max, 0, Find(tab, k), k);
  }

  /** Start of the j-th extent while no extent is cut short. */
  function PlanPos(j: nat): nat {
    if j <= 4 then 2 * j
    else if j <= 10 then 8 + 4 * (j - 4)
    else if j <= 14 then 32 + 64 * (j - 10)
    else if j <= 17 then 288 + 256 * (j - 14)
    else 1056 + MAX_EXTENT_BLOCKS_LARGE * (j - 17)
  }

  lemma {:induction false} PlannedAt(tab: seq<Extent>, n: nat, j: nat)
    requires Chained(tab) && FollowsPlan(tab, n, MAX_EXTENT_BLOCKS_LARGE) && j < |tab|
    ensures tab[j].block == PlanPos(j)
  {
    if j > 0 {
      PlannedAt(tab, n, j - 1);
    }
  }

  /** Any length below 2^32 needs at most 19 extents, so 170 slots never overflow. */
  lemma PlanFits(tab: seq<Extent>, n: nat)
    requires Planned(tab, n, MAX_EXTENT_BLOCKS_LARGE) && n <= 0x10_0000
    ensures |tab| <= 19
  {
    TilesChained(tab);
    if |tab| > 19 {
      PlannedAt(tab, n, 19);
    }
  }

  // ---- storing and loading one block ----

  function Chunk(data: Bytes, k: nat): (c: Bytes)
    requires k < NumBlocks(|data|)
    ensures 0 < |c| <= BLOCK_SIZE
  {
    data[k * 4096..Min(k * 4096 + 4096, |data|)]
  }

  predicate TriesCompression(cfg: Config, chunk: Bytes) {
    cfg.compEnabled && cfg.compAlgo != 0 && |chunk| == BLOCK_SIZE
  }

  /** Algorithm recorded for the block: the default one when compression saved space, else none. */
  function CompUsed(cfg: Config, chunk: Bytes): nat
    requires |chunk| <= BLOCK_SIZE
  {
    if TriesCompression(cfg, chunk) && cfg.codec.compress(cfg.compAlgo, Pad(chunk)).Some? then cfg.compAlgo else 0
  }

  function EncUsed(cfg: Config): nat {
    if cfg.encEnabled && cfg.encAlgo != 0 then cfg.encAlgo else 0
  }

  function Fit(b: Bytes): (r: Bytes)
    ensures |r| == BLOCK_SIZE
  {
    if |b| <= BLOCK_SIZE then Pad(b) else b[..BLOCK_SIZE]
  }

  /** Step 1 of `write_file` for one block. */
  function Packed(cfg: Config, chunk: Bytes): (r: Bytes)
    requires |chunk| <= BLOCK_SIZE
    ensures |r| == BLOCK_SIZE
  {
    if TriesCompression(cfg, chunk) then
      match cfg.codec.compress(cfg.compAlgo, Pad(chunk))
      case Some(z) => Fit(z)
      case None => Pad(chunk)
    else Pad(chunk)
  }

  /** Step 2 of `write_file` for one block: the bytes that reach the disk. */
  function Sealed(cfg: Config, k: nat, chunk: Bytes): (r: Result<Bytes>)
    requires |chunk| <= BLOCK_SIZE
    ensures r.Ok? ==> |r.value| == BLOCK_SIZE
  {
    if cfg.encEnabled && cfg.encAlgo != 0 then
      if !cfg.unlocked then Err(Locked)
      else match cfg.codec.encrypt(cfg.encAlgo, k, Packed(cfg, chunk))
           case Ok(z) => Ok(Fit(z))
           case Err(e) => Err(CodecFailed)
    else Ok(Packed(cfg, chunk))
  }

  /** `read_file` for one block: decrypt, then decompress, as the extent says. */
  function LoadBlock(cfg: Config, k: nat, comp: nat, enc: nat, raw: Bytes): Result<Bytes> {
    var dec := if enc == 0 then Ok(raw)
               else if !cfg.unlocked then Err(Locked)
               else cfg.codec.decrypt(enc, k, raw);
    if dec.Err? || comp == 0 then dec else cfg.codec.decompress(comp, dec.value)
  }

  /** Bytes of the file in block `k`. */
  function BytesIn(size: nat, k: nat): (r: nat)
    requires k * 4096 < size
    ensures 0 < r <= BLOCK_SIZE
  {
    Min(4096, size - k * 4096)
  }

  datatype Algo = Algo(comp: nat, enc: nat)

  /** What `read_file` has collected after the first `n` logical blocks. */
  function Load(cfg: Config, algos: seq<Algo>, raws: seq<Bytes>, size: nat, n: nat): Result<Bytes>
    requires n <= |algos| && n <= |raws| && n <= NumBlocks(size)
  {
    if n == 0 then Ok([])
    else
      var init := Load(cfg, algos, raws, size, n - 1);
      if init.Err? then init
      else
        var b := LoadBlock(cfg, n - 1, algos[n - 1].comp, algos[n - 1].enc, raws[n - 1]);
        if b.Err? then b
        else if |b.value| < BytesIn(size, n - 1) then Err(CodecFailed)
        else Ok(init.value + b.value[..BytesIn(size, n - 1)])
  }

  // ---- what a written file reads back as ----

  /** Every block can be stored (the cipher accepts it and the key is there). */
  predicate Storable(cfg: Config, data: Bytes) {
    forall k :: 0 <= k < NumBlocks(|data|) ==> Sealed(cfg, k, Chunk(data, k)).Ok?
  }

  /** Last block of the planned extent holding block `k`: its choice is recorded for the extent. */
  function LastOf(cfg: Config, n: nat, k: nat): (r: nat)
    requires k < n
    ensures k <= r < n
  {
    LastOfInRange(n, EffectiveMax(cfg.maxLarge), 0, k);
    PlanEnd(n, EffectiveMax(cfg.maxLarge), 0, k) - 1
  }

  lemma LastOfInRange(n: nat, max: nat, done: nat, k: nat)
    requires done <= k < n && max > 0
    ensures k < PlanEnd(n, max, done, k) <= n
    decreases n - done
  {
  }

  function StoredRaws(cfg: Config, data: Bytes): (r: seq<Bytes>)
    requires Storable(cfg, data)
  {
    seq(NumBlocks(|data|), k requires 0 <= k < NumBlocks(|data|) => Sealed(cfg, k, Chunk(data, k)).value)
  }

  function StoredAlgos(cfg: Config, data: Bytes): (r: seq<Algo>)
  {
    var n := NumBlocks(|data|);
    seq(n, k requires 0 <= k < n => Algo(CompUsed(cfg, Chunk(data, LastOf(cfg, n, k))), EncUsed(cfg)))
  }

  /** The result of `read_file` right after a successful `write_file(data)`. */
  function Readback(cfg: Config, data: Bytes): Result<Bytes>
    requires Storable(cfg, data)
  {
    Load(cfg, StoredAlgos(cfg, data), StoredRaws(cfg, data), |data|, NumBlocks(|data|))
  }

  /** In every extent all blocks were compressed, or none was. */
  predicate Uniform(cfg: Config, data: Bytes) {
    var n := NumBlocks(|data|);
    forall k :: 0 <= k < n ==> CompUsed(cfg, Chunk(data, k)) == CompUsed(cfg, Chunk(data, LastOf(cfg, n, k)))
  }

  lemma LoadSealed(cfg: Config, k: nat, chunk: Bytes, comp: nat)
    requires Inverts(cfg) && |chunk| <= BLOCK_SIZE && Sealed(cfg, k, chunk).Ok?
    ensures LoadBlock(cfg, k, comp, EncUsed(cfg), Sealed(cfg, k, chunk).value) ==
            if comp == 0 then Ok(Packed(cfg, chunk)) else cfg.codec.decompress(comp, Packed(cfg, chunk))
  {
    var p := Packed(cfg, chunk);
    if cfg.encEnabled && cfg.encAlgo != 0 {
      var z := cfg.codec.encrypt(cfg.encAlgo, k, p).value;
      assert |z| == BLOCK_SIZE && cfg.codec.decrypt(cfg.encAlgo, k, z) == Ok(p);
      assert Fit(z) == z;
    }
  }

  lemma LoadPacked(cfg: Config, chunk: Bytes)
    requires Shaped(cfg.codec) && Inverts(cfg) && |chunk| <= BLOCK_SIZE
    ensures CompUsed(cfg, chunk) == 0 ==> Packed(cfg, chunk) == Pad(chunk)
    ensures CompUsed(cfg, chunk) != 0 ==> cfg.codec.decompress(CompUsed(cfg, chunk), Packed(cfg, chunk)) == Ok(Pad(chunk))
  {
  }

  /** In a uniform extent each stored block loads as the padded chunk. */
  lemma UniformBlockLoads(cfg: Config, data: Bytes, k: nat)
    requires Shaped(cfg.codec) && Inverts(cfg) && Storable(cfg, data) && Uniform(cfg, data)
    requires k < NumBlocks(|data|)
    ensures var a := StoredAlgos(cfg, data)[k];
            LoadBlock(cfg, k, a.comp, a.enc, StoredRaws(cfg, data)[k]) == Ok(Pad(Chunk(data, k)))
  {
    var c := Chunk(data, k);
    LoadPacked(cfg, c);
    LoadSealed(cfg, k, c, CompUsed(cfg, c));
  }

  lemma PrefixPlusChunk(data: Bytes, k: nat)
    requires k < NumBlocks(|data|)
    ensures data[..Min(k * 4096, |data|)] + Pad(Chunk(data, k))[..BytesIn(|data|, k)] == data[..Min((k + 1) * 4096, |data|)]
  {
    assert Pad(Chunk(data, k))[..BytesIn(|data|, k)] == Chunk(data, k);
  }

  /** Each block of what was read is the loaded block at its place. */
  lemma {:induction false} LoadSlice(cfg: Config, algos: seq<Algo>, raws: seq<Bytes>, size: nat, k: nat, n: nat)
    requires k < n <= |algos| && n <= |raws| && n <= NumBlocks(size)
    requires Load(cfg, algos, raws, size, n).Ok?
    ensures LoadBlock(cfg, k, algos[k].comp, algos[k].enc, raws[k]).Ok?
    ensures var b := LoadBlock(cfg, k, algos[k].comp, algos[k].enc, raws[k]).value;
            var d := Load(cfg, algos, raws, size, n).value;
            && |d| == Min(n * 4096, size) && |b| >= BytesIn(size, k)
            && d[k * 4096..k * 4096 + BytesIn(size, k)] == b[..BytesIn(size, k)]
    decreases n
  {
    if n > 1 {
      LoadSlice(cfg, algos, raws, size, if k < n - 1 then k else n - 2, n - 1);
    }
    var d := Load(cfg, algos, raws, size, n).value;
    var p := Load(cfg, algos, raws, size, n - 1).value;
    assert |p| == (n - 1) * 4096;
    assert d[..|p|] == p;
    if k < n - 1 {
      assert d[k * 4096..k * 4096 + BytesIn(size, k)] == p[k * 4096..k * 4096 + BytesIn(size, k)];
    }
  }

  /** Block `k` loads, as its extent says, with the bytes of the file in front. */
  predicate Recovered(cfg: Config, algos: seq<Algo>, raws: seq<Bytes>, data: Bytes, k: nat)
    requires k < |algos| && k < |raws| && k < NumBlocks(|data|)
  {
    var b := LoadBlock(cfg, k, algos[k].comp, algos[k].enc, raws[k]);
    b.Ok? && |b.value| >= |Chunk(data, k)| && b.value[..|Chunk(data, k)|] == Chunk(data, k)
  }

  lemma {:induction false} ChunksLoad(cfg: Config, algos: seq<Algo>, raws: seq<Bytes>, data: Bytes, n: nat)
    requires |algos| == |raws| == NumBlocks(|data|) && n <= |raws|
    requires forall k :: 0 <= k < |raws| ==> Recovered(cfg, algos, raws, data, k)
    ensures Load(cfg, algos, raws, |data|, n) == Ok(data[..Min(n * 4096, |data|)])
  {
    if n > 0 {
      ChunksLoad(cfg, algos, raws, data, n - 1);
      PrefixPlusChunk(data, n - 1);
      assert Recovered(cfg, algos, raws, data, n - 1);
    }
  }

  /** Reading gives the file if and only if it gives each of its blocks. */
  lemma LoadsIffBlocks(cfg: Config, algos: seq<Algo>, raws: seq<Bytes>, data: Bytes)
    requires |algos| == |raws| == NumBlocks(|data|)
    ensures Load(cfg, algos, raws, |data|, |raws|) == Ok(data) <==>
      forall k :: 0 <= k < |raws| ==> Recovered(cfg, algos, raws, data, k)
  {
    if Load(cfg, algos, raws, |data|, |raws|) == Ok(data) {
      forall k | 0 <= k < |raws| ensures Recovered(cfg, algos, raws, data, k) {
        LoadSlice(cfg, algos, raws, |data|, k, |raws|);
      }
    }
    if forall k :: 0 <= k < |raws| ==> Recovered(cfg, algos, raws, data, k) {
      ChunksLoad(cfg, algos, raws, data, |raws|);
      assert data[..Min(|raws| * 4096, |data|)] == data;
    }
  }

  /** With no law on the codec: a file reads back as itself if and only if each of its blocks does. */
  lemma ReadsBackIffBlocks(cfg: Config, data: Bytes)
    requires Storable(cfg, data)
    ensures Readback(cfg, data) == Ok(data) <==>
      forall k :: 0 <= k < NumBlocks(|data|) ==> Recovered(cfg, StoredAlgos(cfg, data), StoredRaws(cfg, data), data, k)
  {
    LoadsIffBlocks(cfg, StoredAlgos(cfg, data), StoredRaws(cfg, data), data);
  }

  /** A file whose extents are uniform reads back exactly. */
  lemma UniformReadsBack(cfg: Config, data: Bytes)
    requires Shaped(cfg.codec) && Inverts(cfg) && Storable(cfg, data) && Uniform(cfg, data)
    ensures Readback(cfg, data) == Ok(data)
  {
    forall k | 0 <= k < NumBlocks(|data|) ensures Recovered(cfg, StoredAlgos(cfg, data), StoredRaws(cfg, data), data, k) {
      UniformBlockLoads(cfg, data, k);
      assert Pad(Chunk(data, k))[..|Chunk(data, k)|] == Chunk(data, k);
    }
    ReadsBackIffBlocks(cfg, data);
  }

  /** Without compression every file reads back. */
  lemma UncompressedReadsBack(cfg: Config, data: Bytes)
    requires !cfg.compEnabled || cfg.compAlgo == 0
    requires Shaped(cfg.codec) && Inverts(cfg) && Storable(cfg, data)
    ensures Readback(cfg, data) == Ok(data)
  {
    UniformReadsBack(cfg, data);
  }

  /**
   * With a tagged cipher the stored block has lost its tag: nothing but the empty file is ever
   * read back, and reading fails.
   */
  lemma TaggedReadsBackIffEmpty(cfg: Config, data: Bytes)
    requires cfg.encEnabled && cfg.encAlgo != 0 && Tagged(cfg) && Storable(cfg, data)
    ensures Readback(cfg, data).Ok? <==> data == []
    ensures Readback(cfg, data) == Ok(data) <==> data == []
  {
    var n := NumBlocks(|data|);
    if data != [] {
      var algos, raws := StoredAlgos(cfg, data), StoredRaws(cfg, data);
      assert LoadBlock(cfg, 0, algos[0].comp, algos[0].enc, raws[0]).Err?;
      if Readback(cfg, data).Ok? {
        LoadSlice(cfg, algos, raws, |data|, 0, n);
      }
    }
  }

  lemma MixedBlockIsFull(cfg: Config, data: Bytes, k: nat)
    requires k < NumBlocks(|data|)
    requires CompUsed(cfg, Chunk(data, k)) != CompUsed(cfg, Chunk(data, LastOf(cfg, NumBlocks(|data|), k)))
    ensures |Chunk(data, k)| == BLOCK_SIZE
  {
    assert k < LastOf(cfg, NumBlocks(|data|), k) < NumBlocks(|data|);
  }

  /** A full block loaded with the other choice comes back wrong. */
  lemma MixedBlockDiffers(cfg: Config, k: nat, c: Bytes, comp: nat)
    requires Shaped(cfg.codec) && Inverts(cfg) && NoFixpoint(cfg)
    requires |c| == BLOCK_SIZE && Sealed(cfg, k, c).Ok?
    requires CompUsed(cfg, c) != comp && (comp == 0 || (comp == cfg.compAlgo && cfg.compEnabled))
    ensures var b := LoadBlock(cfg, k, comp, EncUsed(cfg), Sealed(cfg, k, c).value);
      b != Ok(c) && (b.Ok? ==> |b.value| == BLOCK_SIZE)
  {
    assert Pad(c) == c;
    LoadSealed(cfg, k, c, comp);
    LoadPacked(cfg, c);
  }

  /** A block treated differently from the last of its extent is not recovered. */
  lemma MixedIsLost(cfg: Config, data: Bytes, k: nat)
    requires Shaped(cfg.codec) && Inverts(cfg) && NoFixpoint(cfg) && Storable(cfg, data)
    requires k < NumBlocks(|data|)
    requires CompUsed(cfg, Chunk(data, k)) != CompUsed(cfg, Chunk(data, LastOf(cfg, NumBlocks(|data|), k)))
    ensures !Recovered(cfg, StoredAlgos(cfg, data), StoredRaws(cfg, data), data, k)
  {
    MixedBlockIsFull(cfg, data, k);
    MixedBlockDiffers(cfg, k, Chunk(data, k), StoredAlgos(cfg, data)[k].comp);
    var b := LoadBlock(cfg, k, StoredAlgos(cfg, data)[k].comp, EncUsed(cfg), StoredRaws(cfg, data)[k]);
    if b.Ok? { assert b.value[..BLOCK_SIZE] == b.value; }
  }

  /**
   * The exact condition: with an inverting codec that fixes no block, a written file reads back
   * as itself if and only if each of its extents is uniform.
   */
  lemma ReadsBackIffUniform(cfg: Config, data: Bytes)
    requires Shaped(cfg.codec) && Inverts(cfg) && NoFixpoint(cfg) && Storable(cfg, data)
    ensures Readback(cfg, data) == Ok(data) <==> Uniform(cfg, data)
  {
    if Uniform(cfg, data) {
      UniformReadsBack(cfg, data);
    } else {
      var n := NumBlocks(|data|);
      var k :| 0 <= k < n && CompUsed(cfg, Chunk(data, k)) != CompUsed(cfg, Chunk(data, LastOf(cfg, n, k)));
      MixedIsLost(cfg, data, k);
      ReadsBackIffBlocks(cfg, data);
    }
  }

  /** The two blocks of a short file share the first extent. */
  lemma TwoShareExtent(max: nat)
    requires max >= 2
    ensures PlanEnd(2, max, 0, 0) == 2
  {
  }

  lemma ShortTailIsMixed(cfg: Config, data: Bytes)
    requires cfg.compEnabled && cfg.compAlgo != 0 && EffectiveMax(cfg.maxLarge) >= 2
    requires BLOCK_SIZE < |data| < 2 * BLOCK_SIZE
    requires cfg.codec.compress(cfg.compAlgo, data[..BLOCK_SIZE]).Some?
    ensures !Uniform(cfg, data)
  {
    TwoShareExtent(EffectiveMax(cfg.maxLarge));
    assert NumBlocks(|data|) == 2 && LastOf(cfg, 2, 0) == 1;
    assert Chunk(data, 0) == data[..BLOCK_SIZE] == Pad(Chunk(data, 0));
    assert CompUsed(cfg, Chunk(data, 0)) != 0 == CompUsed(cfg, Chunk(data, 1));
  }

  /**
   * The failing family under the settings of a fresh image (compression on): a file of two blocks
   * with a short tail. Both blocks share one extent, the tail is never compressed and its choice is
   * the one recorded, so a compressed first block is read back undecoded.
   */
  lemma ShortTailLosesFirstBlock(cfg: Config, data: Bytes)
    requires Shaped(cfg.codec) && Inverts(cfg) && NoFixpoint(cfg) && Storable(cfg, data)
    requires cfg.compEnabled && cfg.compAlgo != 0 && EffectiveMax(cfg.maxLarge) >= 2
    requires BLOCK_SIZE < |data| < 2 * BLOCK_SIZE
    requires cfg.codec.compress(cfg.compAlgo, data[..BLOCK_SIZE]).Some?
    ensures Readback(cfg, data) != Ok(data)
  {
    ShortTailIsMixed(cfg, data);
    ReadsBackIffUniform(cfg, data);
  }

  /** A codec that compresses only the all-zero block: it satisfies every law above. */
  function ZeroCodec(): Codec {
    var zeros: Bytes := seq(BLOCK_SIZE, _ => 0);
    Codec((a, b) => if b == zeros then Some([1]) else None,
          (a, z) => if z == Pad([1]) then Ok(zeros) else Err(CodecFailed),
          (a, k, b) => Ok(b),
          (a, k, b) => Ok(b))
  }

  /** A concrete instance: 4097 zero bytes do not survive a write under the default settings. */
  lemma ZerosDoNotReadBack()
    ensures var cfg := Config(true, 1, false, 0, false, MAX_EXTENT_BLOCKS_LARGE, ZeroCodec());
            var data: Bytes := seq(4097, _ => 0);
            Storable(cfg, data) && Readback(cfg, data) != Ok(data)
  {
    var cfg := Config(true, 1, false, 0, false, MAX_EXTENT_BLOCKS_LARGE, ZeroCodec());
    var data: Bytes := seq(4097, _ => 0);
    var zeros: Bytes := seq(BLOCK_SIZE, _ => 0);
    assert Pad([1])[0] == 1 && zeros[0] == 0;
    assert data[..BLOCK_SIZE] == zeros;
    ShortTailLosesFirstBlock(cfg, data);
  }
}
