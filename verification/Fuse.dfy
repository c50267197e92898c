/** `truncate` (lolelffs-tools/src/file.rs) and file access through FUSE (lolelffs-tools/lolelffs-fuse/src/main.rs). */
module Fuse {
  import opened Layout
  import opened Content
  import opened DiskState
  import opened RustFs
  import opened RustFile
  import AbstractFs

  // ---- inode numbers ----

  const FUSE_ROOT: nat := 1

  function FromFuse(ino: nat): (r: nat)
    requires 1 <= ino
  {
    if ino == FUSE_ROOT then AbstractFs.ROOT else (ino - 1) % U32
  }

  function ToFuse(ino: nat): (r: nat)
    requires ino < U32
  {
    if ino == AbstractFs.ROOT then FUSE_ROOT else (ino + 1) % U32
  }

  /** The translation round-trips exactly below the largest 32-bit number. */
  lemma TranslationInverts(ino: nat)
    requires ino < U32
    ensures ToFuse(ino) >= 1 && FromFuse(ToFuse(ino)) == ino <==> ino < U32 - 1
  {
  }

  // ---- byte ranges ----

  /** `Vec::resize` with zeros. */
  function Resize(data: Bytes, n: nat): (r: Bytes)
    ensures |r| == n
    ensures forall k :: 0 <= k < n ==> r[k] == if k < |data| then data[k] else 0
  {
    if n <= |data| then data[..n] else data + Zeros(n - |data|)
  }

  /** The file after `bytes` are written at `offset`. */
  function Splice(data: Bytes, offset: nat, bytes: Bytes): (r: Bytes) {
    var end := offset + |bytes|;
    var full := if end > |data| then Resize(data, end) else data;
    full[..offset] + bytes + full[end..]
  }

  /** The part of a file a read returns. */
  function Slice(data: Bytes, offset: nat, size: nat): Bytes {
    if offset >= |data| then [] else data[offset..Min(offset + size, |data|)]
  }

  /** Splicing: the written range holds the bytes, a gap reads as zeros, the rest is kept. */
  lemma SpliceAt(data: Bytes, offset: nat, bytes: Bytes, k: nat)
    requires k < |Splice(data, offset, bytes)|
    ensures Splice(data, offset, bytes)[k] ==
            if offset <= k < offset + |bytes| then bytes[k - offset] else if k < |data| then data[k] else 0
  {
  }

  lemma SpliceLength(data: Bytes, offset: nat, bytes: Bytes)
    ensures |Splice(data, offset, bytes)| == if offset + |bytes| > |data| then offset + |bytes| else |data|
  {
  }

  /** Reading back the written range returns the written bytes. */
  lemma ReadAfterSplice(data: Bytes, offset: nat, bytes: Bytes)
    ensures Slice(Splice(data, offset, bytes), offset, |bytes|) == bytes
  {
    var s := Splice(data, offset, bytes);
    SpliceLength(data, offset, bytes);
    if bytes != [] {
      assert s[offset..offset + |bytes|] == bytes;
    }
  }

  // ---- operations ----

  /** What `truncate` writes; the current content has to be readable unless it is thrown away. */
  function TruncateData(v: AbstractFs.View, ino: nat, size: nat): Result<Bytes>
    requires ino in v
  {
    if size == 0 then Ok([])
    else
      match ReadNode(v[ino])
      case Ok(data) => Ok(Resize(data, size))
      case Err(e) => Err(e)
  }

  /** Why `truncate` fails, decided by the disk before it. */
  ghost function TruncateError(e: Env, d: Disk, ino: nat, size: nat): Option<Error>
    requires Shape(e, d) && (ino < e.geo.nrInodes ==> ino in ViewOf(e, d))
  {
    if ino >= e.geo.nrInodes then Some(BadInode)
    else if IsDir(d.inodes[ino]) then Some(IsADirectory)
    else match TruncateData(ViewOf(e, d), ino, size)
         case Ok(data) => WriteError(e, d, ino, data)
         case Err(x) => Some(x)
  }

  /** The truncation fails after it has begun. */
  ghost predicate TruncateStops(e: Env, d: Disk, ino: nat, size: nat)
    requires Shape(e, d)
  {
    && ino in ViewOf(e, d) && TruncateData(ViewOf(e, d), ino, size).Ok?
    && WriteStops(e, d, ino, TruncateData(ViewOf(e, d), ino, size).value)
  }

  /** `truncate`: the content is cut or zero-extended to `size`, then written. */
  method Truncate(fs: LolelfFs, ino: nat, size: nat) returns (r: Result<()>)
    requires Inv(fs.env, fs.Snap(), fs.roles)
    requires ino < fs.env.geo.nrInodes ==> Live(fs.Snap(), ino)
    requires size <= MAX_SIZE
    requires fs.env.cfg.maxLarge == 0 || fs.env.cfg.maxLarge >= MAX_EXTENT_BLOCKS_LARGE
    modifies fs
    ensures ino < fs.env.geo.nrInodes <==> ino in old(ViewOf(fs.env, fs.Snap()))
    ensures ErrorOf(r) == old(TruncateError(fs.env, fs.Snap(), ino, size))
    ensures r.Ok? ==>
      && ino < fs.env.geo.nrInodes
      && var data := TruncateData(old(ViewOf(fs.env, fs.Snap())), ino, size);
         data.Ok? && Wrote(fs.env, old(fs.Snap()), fs.Snap(), fs.roles, ino, data.value)
    ensures var stops := old(TruncateStops(fs.env, fs.Snap(), ino, size));
      && (stops ==> r.Err? && ino in old(ViewOf(fs.env, fs.Snap())) && ino < |old(fs.inodes)| && TruncateData(old(ViewOf(fs.env, fs.Snap())), ino, size).Ok? && WriteStopped(fs.env, old(fs.Snap()), fs.Snap(), ino, TruncateData(old(ViewOf(fs.env, fs.Snap())), ino, size).value))
      && (r.Err? && !stops ==> fs.Snap() == old(fs.Snap()) && fs.roles == old(fs.roles))
  {
    ViewAt(fs.env, fs.Snap(), ino);
    if ino >= fs.env.geo.nrInodes {
      return Err(BadInode);
    }
    if IsDir(fs.inodes[ino]) {
      return Err(IsADirectory);
    }
    if size == 0 {
      r := WriteFile(fs, ino, []);
      return;
    }
    var data := ReadFile(fs, ino);
    if data.Err? {
      return Err(data.error);
    }
    r := WriteFile(fs, ino, Resize(data.value, size));
  }

  /** `read`: a range of what the view holds. */
  method Read(fs: LolelfFs, ino: nat, offset: nat, size: nat) returns (r: Result<Bytes>)
    requires Inv(fs.env, fs.Snap(), fs.roles) && 1 <= ino
    requires FromFuse(ino) < fs.env.geo.nrInodes ==> Live(fs.Snap(), FromFuse(ino))
    ensures FromFuse(ino) < fs.env.geo.nrInodes <==> FromFuse(ino) in ViewOf(fs.env, fs.Snap())
    ensures FromFuse(ino) >= fs.env.geo.nrInodes ==> r == Err(BadInode)
    ensures FromFuse(ino) < fs.env.geo.nrInodes ==>
      match ReadNode(ViewOf(fs.env, fs.Snap())[FromFuse(ino)])
      case Ok(data) => r == Ok(Slice(data, offset, size))
      case Err(e) => r == Err(e)
  {
    ViewAt(fs.env, fs.Snap(), FromFuse(ino));
    r := ReadFile(fs, FromFuse(ino));
    if r.Ok? {
      var data := r.value;
      var end := Min(offset + size, |data|);
      r := if offset >= |data| then Ok([]) else Ok(data[offset..end]);
    }
  }

  /** The content a write starts from: an unreadable file counts as empty. */
  function Base(v: AbstractFs.View, ino: nat): Bytes {
    if ino in v && ReadNode(v[ino]).Ok? then ReadNode(v[ino]).value else []
  }

  /** `write`: read the file, splice, write everything back. */
  method Write(fs: LolelfFs, ino: nat, offset: nat, bytes: Bytes) returns (r: Result<nat>)
    requires Inv(fs.env, fs.Snap(), fs.roles) && 1 <= ino
    requires FromFuse(ino) < fs.env.geo.nrInodes ==> Live(fs.Snap(), FromFuse(ino))
    requires |Splice(Base(ViewOf(fs.env, fs.Snap()), FromFuse(ino)), offset, bytes)| <= MAX_SIZE
    requires fs.env.cfg.maxLarge == 0 || fs.env.cfg.maxLarge >= MAX_EXTENT_BLOCKS_LARGE
    modifies fs
    ensures var i := FromFuse(ino); var data := Splice(Base(old(ViewOf(fs.env, fs.Snap())), i), offset, bytes);
      && ErrorOf(r) == old(WriteError(fs.env, fs.Snap(), i, Splice(Base(ViewOf(fs.env, fs.Snap()), i), offset, bytes)))
      && (r.Ok? ==> r.value == |bytes| && Wrote(fs.env, old(fs.Snap()), fs.Snap(), fs.roles, i, data))
      && (r.Err? && !Dirty(r.error) ==> fs.Snap() == old(fs.Snap()) && fs.roles == old(fs.roles))
      && (r.Err? && Dirty(r.error) ==>
            i < |old(fs.inodes)| && WriteStopped(fs.env, old(fs.Snap()), fs.Snap(), i, data))
  {
    var i := FromFuse(ino);
    ViewAt(fs.env, fs.Snap(), i);
    var read := ReadFile(fs, i);
    var data := if read.Ok? then read.value else [];
    var w := WriteFile(fs, i, Splice(data, offset, bytes));
    return if w.Ok? then Ok(|bytes|) else Err(w.error);
  }

  // ---- when a write loses what was there ----

  /** File `ino` holds what writing `data` leaves. */
  predicate Holds(cfg: Config, v: AbstractFs.View, ino: nat, data: Bytes) {
    ino in v && Storable(cfg, data) && ReadNode(v[ino]) == Readback(cfg, data)
  }

  /** The next write starts from the old contents exactly when these were uniform. */
  lemma StartsFromContentsIff(cfg: Config, v: AbstractFs.View, ino: nat, data: Bytes)
    requires Holds(cfg, v, ino, data) && Shaped(cfg.codec) && Inverts(cfg) && NoFixpoint(cfg)
    ensures Base(v, ino) == data <==> Uniform(cfg, data)
  {
    ReadsBackIffUniform(cfg, data);
  }

  /** Starting from nothing gives the same file exactly when all that it drops are zeros before the range. */
  lemma SpliceFromNothingIff(data: Bytes, offset: nat, bytes: Bytes)
    ensures Splice([], offset, bytes) == Splice(data, offset, bytes) <==>
      |data| <= offset + |bytes| && forall k :: 0 <= k < |data| && k < offset ==> data[k] == 0
  {
    var a, b := Splice([], offset, bytes), Splice(data, offset, bytes);
    SpliceLength([], offset, bytes);
    SpliceLength(data, offset, bytes);
    if |data| <= offset + |bytes| {
      forall k | 0 <= k < |a| ensures a[k] == b[k] <==> offset <= k || k >= |data| || data[k] == 0 {
        SpliceAt([], offset, bytes, k);
        SpliceAt(data, offset, bytes, k);
      }
    }
  }

  /**
   * Under a cipher with a tag every write starts from nothing, because no earlier contents can be
   * read; they survive only where they were zero.
   */
  lemma TaggedWriteStartsOver(cfg: Config, v: AbstractFs.View, ino: nat, data: Bytes, offset: nat, bytes: Bytes)
    requires Holds(cfg, v, ino, data) && cfg.encEnabled && cfg.encAlgo != 0 && Tagged(cfg)
    ensures Base(v, ino) == []
    ensures Splice(Base(v, ino), offset, bytes) == Splice(data, offset, bytes) <==>
      |data| <= offset + |bytes| && forall k :: 0 <= k < |data| && k < offset ==> data[k] == 0
  {
    TaggedReadsBackIffEmpty(cfg, data);
    SpliceFromNothingIff(data, offset, bytes);
  }

  /** A cipher that appends a 16-byte tag and wants it back. */
  function TagCodec(): Codec {
    Codec((a, b) => None, (a, z) => Err(CodecFailed),
          (a, k, b) => Ok(b + Zeros(16)),
          (a, k, z) => if |z| == BLOCK_SIZE + 16 then Ok(z[..BLOCK_SIZE]) else Err(CodecFailed))
  }

  /** The byte 5 as the tagged cipher stores it. */
  lemma ByteIsStorable(cfg: Config)
    requires cfg == Config(false, 0, true, 2, true, MAX_EXTENT_BLOCKS_LARGE, TagCodec())
    ensures Storable(cfg, [5]) && Tagged(cfg)
  {
  }

  /** A concrete instance: appending one byte to a file of one byte zeroes the first one. */
  lemma AppendLosesFirstByte() returns (cfg: Config, v: AbstractFs.View)
    ensures Holds(cfg, v, 1, [5]) && Splice([5], 1, [7]) == [5, 7] && Splice(Base(v, 1), 1, [7]) == [0, 7]
  {
    cfg := Config(false, 0, true, 2, true, MAX_EXTENT_BLOCKS_LARGE, TagCodec());
    ByteIsStorable(cfg);
    v := map[1 := AbstractFs.File(1, map[], Readback(cfg, [5]))];
    TaggedWriteStartsOver(cfg, v, 1, [5], 1, [7]);
  }
}
