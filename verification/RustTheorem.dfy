/** What whole runs of the Rust library guarantee, in the words of its users. */
module RustTheorem {
  import opened Layout
  import opened Content
  import opened DiskState
  import opened RustFs
  import opened RustFile
  import opened RustRun
  import opened Ownership
  import RustFormat
  import Fuse
  import Fsck
  import I = RustImage
  import A = AbstractFs

  /** A data block is marked used exactly when a live inode refers to it, and the counter agrees. */
  ghost predicate NoLeak(e: Env, d: Disk)
    requires Shape(e, d)
  {
    && (forall b :: e.geo.DataStart() <= b < e.geo.nrBlocks ==> (!d.bfree[b] <==> Referred(d, b)))
    && (forall b :: 0 <= b < e.geo.DataStart() ==> !d.bfree[b] && !Referred(d, b))
    && d.freeBlocks == Unreferred(e, d, e.geo.nrBlocks)
  }

  /** No block is referred to twice. */
  ghost predicate NoSharing(d: Disk) {
    forall i: nat, p: Ref, j: nat, q: Ref, b: nat :: Refers(d, i, p, b) && Refers(d, j, q, b) ==> i == j && p == q
  }

  /** Every allocated inode hangs off the root and its link count is what its names say. */
  ghost predicate Tidy(v: A.View) {
    forall i :: i in v ==> A.Reachable(v, i) && A.Counted(v, i)
  }

  /** The guarantee. */
  ghost predicate Consistent(e: Env, d: Disk) {
    Shape(e, d) && NoLeak(e, d) && NoSharing(d) && Tidy(ViewOf(e, d))
  }

  lemma GoodIsConsistent(e: Env, d: Disk, r: Roles)
    requires Good(e, d, r)
    ensures Consistent(e, d)
  {
    forall b | 0 <= b < e.geo.nrBlocks
      ensures b >= e.geo.DataStart() ==> (!d.bfree[b] <==> Referred(d, b))
      ensures b < e.geo.DataStart() ==> !d.bfree[b] && !Referred(d, b)
    {
      ExactlyOneUse(e, d, r, b);
    }
    NothingLeaks(e, d, r);
    forall i: nat, p: Ref, j: nat, q: Ref, b: nat | Refers(d, i, p, b) && Refers(d, j, q, b) ensures i == j && p == q {
      NoBlockSharedTwice(e, d, r, i, p, j, q, b);
    }
    var v := ViewOf(e, d);
    forall i | i in v ensures A.Reachable(v, i) && A.Counted(v, i) { A.AllReachable(v, i); }
  }

  /**
   * From `create` on: every disk reached by any sequence of commands, up to one that stops half way,
   * is consistent, and what it shows is what the abstract machine reaches from an empty root.
   */
  method CreateAndRun(size: nat, cfg: Config, utf8: Bytes -> bool, cmds: seq<Cmd>)
    returns (r: Result<LolelfFs>, done: nat, clean: bool, ghost trace: seq<Disk>)
    requires size / BLOCK_SIZE % U32 < 4294967264 && SmallAlgos(cfg) && UsualExtents(cfg)
    ensures r.Err? <==> size / BLOCK_SIZE % U32 < MIN_BLOCKS
    ensures r.Ok? ==>
      && done <= |cmds| && IsTrace(r.value.env, trace, cmds[..done])
      && ViewOf(r.value.env, trace[0]) == A.NEW_VIEW
      && forall j :: 0 <= j <= done ==> Consistent(r.value.env, trace[j])
    ensures r.Ok? && clean ==>
      && r.value.Snap() == trace[done]
      && (done < |cmds| ==> !CanRun(r.value.env, r.value.Snap(), cmds[done]))
    ensures r.Ok? && !clean ==> done < |cmds| && Breaks(r.value.env, trace[done], r.value.Snap(), cmds[done])
  {
    done, clean, trace := 0, true, [];
    r := RustFormat.Create(size, cfg, utf8);
    if r.Ok? {
      done, clean, trace := Run(r.value, cmds);
      forall j | 0 <= j <= done ensures Consistent(r.value.env, trace[j]) {
        assert Sound(r.value.env, trace[j]);
        var roles :| Good(r.value.env, trace[j], roles);
        GoodIsConsistent(r.value.env, trace[j], roles);
      }
    }
  }

  // ---- the checker ----

  /** What the checker says about a sound filesystem, for a cipher number it knows. */
  method Check(fs: LolelfFs, enc: I.Encryption) returns (c: Fsck.Checker)
    requires Good(fs.env, fs.Snap(), fs.roles) && I.Created(fs.env.geo) && (enc.Plain? || enc.algo <= 2)
    ensures fresh(c) && c.errors == Fsck.One(fs.inodes[0].blocks == 0) && c.warnings == I.KnownWarnings(fs.inodes[0], enc)
  {
    I.SoundDiskReport(fs.env, fs.Snap(), fs.roles, enc);
    c := new Fsck.Checker();
    c.Run(I.ImageOf(fs.env.geo, fs.Snap(), enc));
  }

  /** A new filesystem without a password draws exactly one error and one warning. */
  method CheckNew(size: nat, cfg: Config, utf8: Bytes -> bool) returns (r: Result<Fsck.Checker>)
    requires size / BLOCK_SIZE % U32 < 4294967264 && SmallAlgos(cfg)
    ensures r.Err? <==> size / BLOCK_SIZE % U32 < MIN_BLOCKS
    ensures r.Ok? ==> r.value.errors == 1 && r.value.warnings == 1
  {
    var fs := RustFormat.Create(size, cfg, utf8);
    if fs.Err? {
      return Err(fs.error);
    }
    I.NewRootKnown(fs.value.env.geo, fs.value.Snap());
    var c := Check(fs.value, I.Plain);
    return Ok(c);
  }

  /** After any run that did not stop half way the checker finds at most the root without blocks. */
  method CheckAfterRun(size: nat, cfg: Config, utf8: Bytes -> bool, cmds: seq<Cmd>, enc: I.Encryption)
    returns (r: Result<LolelfFs>, clean: bool, c: Fsck.Checker)
    requires size / BLOCK_SIZE % U32 < 4294967264 && SmallAlgos(cfg) && UsualExtents(cfg) && (enc.Plain? || enc.algo <= 2)
    ensures r.Ok? && clean ==>
      && |r.value.inodes| > 0
      && c.errors == Fsck.One(r.value.inodes[0].blocks == 0) && c.warnings == I.KnownWarnings(r.value.inodes[0], enc)
  {
    c := new Fsck.Checker();
    clean := true;
    r := RustFormat.Create(size, cfg, utf8);
    if r.Ok? {
      var done;
      ghost var trace;
      done, clean, trace := Run(r.value, cmds);
      if clean {
        c := Check(r.value, enc);
      }
    }
  }

  // ---- contents ----

  /** What was written is what is read, and every other node is untouched: exactly for uniform data. */
  lemma WrittenIsRead(cfg: Config, v: A.View, ino: nat, data: Bytes, w: A.View)
    requires Writes(cfg, v, ino, data, w)
    requires Shaped(cfg.codec) && Inverts(cfg) && NoFixpoint(cfg)
    ensures ino in w && (ReadNode(w[ino]) == Ok(data) <==> Uniform(cfg, data))
    ensures w.Keys == v.Keys && forall j :: j in v && j != ino ==> w[j] == v[j]
  {
    ReadsBackIffUniform(cfg, data);
  }

  /** Commands that write the contents of inode `ino`. */
  predicate Rewrites(c: Cmd, ino: nat) {
    match c
    case WriteFile(i, _) => i == ino
    case Truncate(i, _) => i == ino
    case FuseWrite(i, _, _) => i >= 1 && Fuse.FromFuse(i) == ino
    case _ => false
  }

  predicate SameContent(v: A.View, w: A.View, ino: nat) {
    ino in v && ino in w && v[ino].File? && w[ino].File? && w[ino].content == v[ino].content
  }

  /** Any other command leaves the contents of a surviving file alone. */
  lemma ContentKept(cfg: Config, v: A.View, c: Cmd, w: A.View, ino: nat)
    requires Effect(cfg, v, c, w) && !Rewrites(c, ino) && ino in v && v[ino].File? && ino in w
    ensures SameContent(v, w, ino)
  {
  }

  lemma StepKeepsContent(e: Env, d: Disk, c: Cmd, d': Disk, ino: nat)
    requires Step(e, d, c, d') && !Rewrites(c, ino) && ino in ViewOf(e, d) && ViewOf(e, d)[ino].File? && ino in ViewOf(e, d')
    ensures SameContent(ViewOf(e, d), ViewOf(e, d'), ino)
  {
    if !Fails(e, d, c) {
      ContentKept(e.cfg, ViewOf(e, d), c, ViewOf(e, d'), ino);
    }
  }

  /** From step `j` on the file exists and no command writes it. */
  ghost predicate LeftAlone(e: Env, trace: seq<Disk>, cmds: seq<Cmd>, ino: nat, j: nat, k: nat)
    requires |trace| == |cmds| + 1 && j <= k <= |cmds|
  {
    && (forall m :: j <= m <= k ==> ino in ViewOf(e, trace[m]))
    && (forall m :: j <= m < k ==> !Rewrites(cmds[m], ino))
  }

  lemma {:induction false} TraceKeepsContent(e: Env, trace: seq<Disk>, cmds: seq<Cmd>, ino: nat, j: nat, k: nat)
    requires IsTrace(e, trace, cmds) && j <= k <= |cmds| && LeftAlone(e, trace, cmds, ino, j, k)
    requires ViewOf(e, trace[j])[ino].File?
    ensures SameContent(ViewOf(e, trace[j]), ViewOf(e, trace[k]), ino)
    decreases k
  {
    if j < k {
      TraceKeepsContent(e, trace, cmds, ino, j, k - 1);
      StepKeepsContent(e, trace[k - 1], cmds[k - 1], trace[k], ino);
    }
  }

  /** Reading a file at any later time gives back the bytes of the last write to it, exactly for uniform data. */
  lemma LastWriteIsRead(e: Env, trace: seq<Disk>, cmds: seq<Cmd>, ino: nat, data: Bytes, j: nat, k: nat)
    requires IsTrace(e, trace, cmds) && j < k <= |cmds|
    requires Writes(e.cfg, ViewOf(e, trace[j]), ino, data, ViewOf(e, trace[j + 1]))
    requires LeftAlone(e, trace, cmds, ino, j + 1, k)
    requires Shaped(e.cfg.codec) && Inverts(e.cfg) && NoFixpoint(e.cfg)
    ensures ino in ViewOf(e, trace[k]) && (ReadNode(ViewOf(e, trace[k])[ino]) == Ok(data) <==> Uniform(e.cfg, data))
  {
    TraceKeepsContent(e, trace, cmds, ino, j + 1, k);
    ReadsBackIffUniform(e.cfg, data);
  }

  /** A FUSE write acts as a zero-filling splice: the written range reads back, the rest is as before. */
  lemma FuseWriteIsSplice(cfg: Config, v: A.View, ino: nat, offset: nat, bytes: Bytes, w: A.View)
    requires ino in v && ReadNode(v[ino]).Ok?
    requires Writes(cfg, v, ino, Fuse.Splice(Fuse.Base(v, ino), offset, bytes), w)
    requires Shaped(cfg.codec) && Inverts(cfg) && Uniform(cfg, Fuse.Splice(Fuse.Base(v, ino), offset, bytes))
    ensures var old_ := ReadNode(v[ino]).value;
      && ino in w && ReadNode(w[ino]).Ok?
      && var new_ := ReadNode(w[ino]).value;
         && Fuse.Slice(new_, offset, |bytes|) == bytes
         && |new_| == (if offset + |bytes| > |old_| then offset + |bytes| else |old_|)
         && forall k :: 0 <= k < |new_| && !(offset <= k < offset + |bytes|) ==> new_[k] == if k < |old_| then old_[k] else 0
  {
    var old_ := ReadNode(v[ino]).value;
    var data := Fuse.Splice(old_, offset, bytes);
    UniformReadsBack(cfg, data);
    Fuse.ReadAfterSplice(old_, offset, bytes);
    Fuse.SpliceLength(old_, offset, bytes);
    forall k | 0 <= k < |data| && !(offset <= k < offset + |bytes|) ensures data[k] == if k < |old_| then old_[k] else 0 {
      Fuse.SpliceAt(old_, offset, bytes, k);
    }
  }
}
