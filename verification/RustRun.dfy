/** Whole runs: any sequence of operations on a sound filesystem refines the abstract one and stays sound. */
module RustRun {
  import opened Layout
  import opened Content
  import opened DiskState
  import opened RustFs
  import opened RustFile
  import opened RustLife
  import opened RustCreate
  import opened RustLink
  import opened RustRemove
  import opened XattrCodec
  import D = Directory
  import X = RustXattrSet
  import opened RustXattrStore
  import Fuse
  import A = AbstractFs

  datatype Cmd =
    | CreateFile(dir: nat, name: D.Name)
    | Mkdir(dir: nat, name: D.Name)
    | Symlink(dir: nat, name: D.Name, target: Bytes)
    | Link(ino: nat, dir: nat, name: D.Name)
    | Unlink(dir: nat, name: D.Name)
    | Rmdir(dir: nat, name: D.Name)
    | WriteFile(ino: nat, data: Bytes)
    | Truncate(ino: nat, size: nat)
    | FuseWrite(ino: nat, offset: nat, bytes: Bytes)
    | SetXattr(ino: nat, key: Bytes, value: Bytes)
    | RemoveXattr(ino: nat, key: Bytes)

  // ---- the abstract machine ----

  ghost predicate CanAdd(v: A.View, dir: nat, name: D.Name) {
    A.DirIn(v, dir) && name !in v[dir].entries
  }

  /** What a successful command does to the view. */
  ghost predicate Effect(cfg: Config, v: A.View, c: Cmd, w: A.View) {
    match c
    case CreateFile(dir, name) =>
      CanAdd(v, dir, name) && exists i: nat :: LeastFree(v, i) && w == A.Create(v, dir, name, i, A.File(1, map[], Ok([])))
    case Mkdir(dir, name) =>
      CanAdd(v, dir, name) && exists i: nat :: LeastFree(v, i) && w == A.Mkdir(v, dir, name, i)
    case Symlink(dir, name, target) =>
      && CanAdd(v, dir, name) && |target| <= 27
      && exists i: nat :: LeastFree(v, i) && w == A.Create(v, dir, name, i, LinkNode(target))
    case Link(ino, dir, name) =>
      CanAdd(v, dir, name) && ino in v && !v[ino].Dir? && w == A.Hardlink(v, ino, dir, name)
    case Unlink(dir, name) =>
      exists i: nat :: A.IsName(v, dir, name, i) && i in v && !v[i].Dir? && w == A.Unlink(v, dir, name)
    case Rmdir(dir, name) =>
      exists i: nat :: A.IsName(v, dir, name, i) && i != dir && A.DirIn(v, i) && v[i].entries == map[] && w == A.Rmdir(v, dir, name)
    case WriteFile(ino, data) => Writes(cfg, v, ino, data, w)
    case Truncate(ino, size) =>
      ino in v && var data := Fuse.TruncateData(v, ino, size); data.Ok? && Writes(cfg, v, ino, data.value, w)
    case FuseWrite(ino, offset, bytes) =>
      ino >= 1 && Writes(cfg, v, Fuse.FromFuse(ino), Fuse.Splice(Fuse.Base(v, Fuse.FromFuse(ino)), offset, bytes), w)
    case SetXattr(ino, key, value) =>
      ino in v && ParseName(key).Ok? && w == A.SetXattrs(v, ino, v[ino].xattrs[ParseName(key).value := value])
    case RemoveXattr(ino, key) =>
      && ino in v && ParseName(key).Ok? && ParseName(key).value in v[ino].xattrs
      && w == A.SetXattrs(v, ino, v[ino].xattrs - {ParseName(key).value})
  }

  ghost predicate Writes(cfg: Config, v: A.View, ino: nat, data: Bytes, w: A.View) {
    ino in v && v[ino].File? && Storable(cfg, data) && w == A.SetContent(v, ino, Readback(cfg, data))
  }

  /** The data a FUSE write stores. */
  ghost function Spliced(e: Env, d: Disk, ino: nat, offset: nat, bytes: Bytes): Bytes {
    Fuse.Splice(Fuse.Base(ViewOf(e, d), ino), offset, bytes)
  }

  /** A command fails after it has begun to change the disk: decided by the disk before it. */
  ghost predicate Stops(e: Env, d: Disk, c: Cmd)
    requires Shape(e, d)
  {
    match c
    case CreateFile(dir, name) => CreateError(d, e.geo.nrInodes, dir, name) == Some(NoIndexBlock)
    case Mkdir(dir, name) => CreateError(d, e.geo.nrInodes, dir, name) == Some(NoIndexBlock)
    case WriteFile(ino, data) => WriteStops(e, d, ino, data)
    case Truncate(ino, size) => Fuse.TruncateStops(e, d, ino, size)
    case FuseWrite(ino, offset, bytes) => ino >= 1 && WriteStops(e, d, Fuse.FromFuse(ino), Spliced(e, d, Fuse.FromFuse(ino), offset, bytes))
    case SetXattr(ino, key, value) => X.SetStops(e, d, ino, key, value)
    case RemoveXattr(ino, key) => X.RemoveStops(e, d, ino, key)
    case _ => false
  }

  /** A command fails, before or after it has begun. */
  ghost predicate Fails(e: Env, d: Disk, c: Cmd)
    requires Shape(e, d)
  {
    var v := ViewOf(e, d);
    var nr := e.geo.nrInodes;
    match c
    case CreateFile(dir, name) => CreateError(d, nr, dir, name).Some?
    case Mkdir(dir, name) => CreateError(d, nr, dir, name).Some?
    case Symlink(dir, name, target) => SymlinkError(d, nr, dir, name, target).Some?
    case Link(ino, dir, name) => LinkError(d, nr, ino, dir, name).Some?
    case Unlink(dir, name) => forall i: nat :: A.IsName(v, dir, name, i) ==> A.DirIn(v, i)
    case Rmdir(dir, name) => forall i: nat :: A.IsName(v, dir, name, i) ==> !A.DirIn(v, i) || v[i].entries != map[]
    case WriteFile(ino, data) => WriteError(e, d, ino, data).Some?
    case Truncate(ino, size) => ino !in v || ino >= nr || Fuse.TruncateError(e, d, ino, size).Some?
    case FuseWrite(ino, offset, bytes) =>
      ino == 0 || WriteError(e, d, Fuse.FromFuse(ino), Spliced(e, d, Fuse.FromFuse(ino), offset, bytes)).Some?
    case SetXattr(ino, key, value) => X.SetError(e, d, ino, key, value).Some?
    case RemoveXattr(ino, key) => X.RemoveError(e, d, ino, key).Some?
  }

  /** One whole step: a command that does not fail has its effect, a refused one changes nothing visible. */
  ghost predicate Step(e: Env, d: Disk, c: Cmd, d': Disk) {
    && Shape(e, d) && !Stops(e, d, c)
    && if Fails(e, d, c) then ViewOf(e, d') == ViewOf(e, d) else Effect(e.cfg, ViewOf(e, d), c, ViewOf(e, d'))
  }

  lemma WritesKeepLinks(cfg: Config, v: A.View, ino: nat, data: Bytes, w: A.View)
    requires A.Linked(v) && Writes(cfg, v, ino, data, w)
    ensures A.Linked(w)
  {
    A.PayloadKeepsLinks(v, w);
  }

  lemma XattrsKeepLinks(v: A.View, ino: nat, x: map<Key, Bytes>)
    requires A.Linked(v) && ino in v
    ensures A.Linked(A.SetXattrs(v, ino, x))
  {
    A.PayloadKeepsLinks(v, A.SetXattrs(v, ino, x));
  }

  /** Every step keeps link counts exact and every inode reachable. */
  lemma EffectKeepsLinks(cfg: Config, v: A.View, c: Cmd, w: A.View)
    requires A.Linked(v) && Effect(cfg, v, c, w)
    ensures A.Linked(w)
  {
    match c
    case CreateFile(dir, name) =>
      var i: nat :| LeastFree(v, i) && w == A.Create(v, dir, name, i, A.File(1, map[], Ok([])));
      A.CreateKeepsLinks(v, dir, name, i, A.File(1, map[], Ok([])));
    case Mkdir(dir, name) =>
      var i: nat :| LeastFree(v, i) && w == A.Mkdir(v, dir, name, i);
      A.MkdirKeepsLinks(v, dir, name, i);
    case Symlink(dir, name, target) =>
      var i: nat :| LeastFree(v, i) && w == A.Create(v, dir, name, i, LinkNode(target));
      A.CreateKeepsLinks(v, dir, name, i, LinkNode(target));
    case Link(ino, dir, name) => A.HardlinkKeepsLinks(v, ino, dir, name);
    case Unlink(dir, name) =>
      var i: nat :| A.IsName(v, dir, name, i) && i in v && !v[i].Dir?;
      A.UnlinkKeepsLinks(v, dir, name, i);
    case Rmdir(dir, name) =>
      var i: nat :| A.IsName(v, dir, name, i) && A.DirIn(v, i) && v[i].entries == map[];
      A.RmdirKeepsLinks(v, dir, name, i);
    case WriteFile(ino, data) => WritesKeepLinks(cfg, v, ino, data, w);
    case Truncate(ino, size) => WritesKeepLinks(cfg, v, ino, Fuse.TruncateData(v, ino, size).value, w);
    case FuseWrite(ino, offset, bytes) =>
      var i := Fuse.FromFuse(ino);
      WritesKeepLinks(cfg, v, i, Fuse.Splice(Fuse.Base(v, i), offset, bytes), w);
    case SetXattr(ino, key, value) => XattrsKeepLinks(v, ino, v[ino].xattrs[ParseName(key).value := value]);
    case RemoveXattr(ino, key) => XattrsKeepLinks(v, ino, v[ino].xattrs - {ParseName(key).value});
  }

  // ---- running commands ----

  predicate Addressable(e: Env, d: Disk, i: nat) {
    i < e.geo.nrInodes ==> Live(d, i)
  }

  /**
   * The commands the model covers: inode numbers are allocated or out of range, names are C
   * strings, sizes fit the 32-bit fields, and a new attribute fits its record.
   */
  predicate CanRun(e: Env, d: Disk, c: Cmd) {
    match c
    case CreateFile(dir, name) => Addressable(e, d, dir) && D.ValidName(name)
    case Mkdir(dir, name) => Addressable(e, d, dir) && D.ValidName(name)
    case Symlink(dir, name, _) => Addressable(e, d, dir) && D.ValidName(name)
    case Link(ino, dir, name) => Addressable(e, d, ino) && Addressable(e, d, dir) && D.ValidName(name)
    case Unlink(dir, _) => Addressable(e, d, dir)
    case Rmdir(dir, _) => Addressable(e, d, dir)
    case WriteFile(ino, data) => Addressable(e, d, ino) && |data| <= MAX_SIZE
    case Truncate(ino, size) => Addressable(e, d, ino) && size <= MAX_SIZE
    case FuseWrite(ino, offset, bytes) =>
      && ino >= 1 && Addressable(e, d, Fuse.FromFuse(ino))
      && |Fuse.Splice(Fuse.Base(ViewOf(e, d), Fuse.FromFuse(ino)), offset, bytes)| <= MAX_SIZE
    case SetXattr(ino, key, value) =>
      && Addressable(e, d, ino) && X.Storable(e, d, ino, key, value)
      && (ParseName(key).Ok? ==> Fits(Entry(ParseName(key).value, value)))
    case RemoveXattr(ino, _) => Addressable(e, d, ino)
  }

  /** The state after a command: sound, and one abstract step on. */
  ghost predicate After(e: Env, d: Disk, d': Disk, r': Roles, c: Cmd) {
    Good(e, d', r') && Step(e, d, c, d')
  }

  predicate UsualExtents(cfg: Config) {
    cfg.maxLarge == 0 || cfg.maxLarge >= MAX_EXTENT_BLOCKS_LARGE
  }

  /** What a command that stops on the disk `d` leaves. */
  ghost predicate Breaks(e: Env, d: Disk, d': Disk, c: Cmd) {
    && Shape(e, d) && Stops(e, d, c)
    && match c
       case CreateFile(_, _) => InodeLost(d, d')
       case Mkdir(_, _) => InodeLost(d, d')
       case WriteFile(ino, data) => ino < |d.inodes| && WriteStopped(e, d, d', ino, data)
       case Truncate(ino, size) => ino < |d.inodes| && WriteStopped(e, d, d', ino, Fuse.TruncateData(ViewOf(e, d), ino, size).value)
       case FuseWrite(ino, offset, bytes) =>
         var i := Fuse.FromFuse(ino);
         i < |d.inodes| && WriteStopped(e, d, d', i, Spliced(e, d, i, offset, bytes))
       case SetXattr(ino, key, value) =>
         && ino < |d.inodes| && ParseName(key).Ok?
         && X.StoreStopped(e, d, d', ino, SetEntry(Stored(e, d, ino), ParseName(key).value, value))
       case RemoveXattr(ino, key) =>
         && ino < |d.inodes| && ParseName(key).Ok?
         && X.StoreStopped(e, d, d', ino, RemoveKey(Stored(e, d, ino), ParseName(key).value))
       case _ => false
  }

  lemma WroteStep(e: Env, d: Disk, r: Roles, d': Disk, r': Roles, c: Cmd, i: nat, data: Bytes)
    requires Good(e, d, r) && Wrote(e, d, d', r', i, data) && !Stops(e, d, c) && !Fails(e, d, c)
    requires Writes(e.cfg, ViewOf(e, d), i, data, ViewOf(e, d')) ==> Effect(e.cfg, ViewOf(e, d), c, ViewOf(e, d'))
    ensures After(e, d, d', r', c)
  {
    WritesKeepLinks(e.cfg, ViewOf(e, d), i, data, ViewOf(e, d'));
  }

  method ExecCreate(fs: LolelfFs, dir: nat, name: D.Name) returns (clean: bool)
    requires Good(fs.env, fs.Snap(), fs.roles) && Addressable(fs.env, fs.Snap(), dir) && D.ValidName(name)
    modifies fs
    ensures clean ==> After(fs.env, old(fs.Snap()), fs.Snap(), fs.roles, CreateFile(dir, name))
    ensures clean <==> old(CreateError(fs.Snap(), fs.env.geo.nrInodes, dir, name)) != Some(NoIndexBlock)
    ensures !clean ==> InodeLost(old(fs.Snap()), fs.Snap())
  {
    var r := RustCreate.CreateFile(fs, dir, name);
    if r.Ok? {
      CreateIsEffect(fs.env, old(fs.Snap()), fs.Snap(), fs.roles, dir, name, r.value);
    }
    return r != Err(NoIndexBlock);
  }

  lemma CreateIsEffect(e: Env, d: Disk, d': Disk, r': Roles, dir: nat, name: D.Name, i: nat)
    requires Made(e, d, d', r', dir, name, i, A.File(1, map[], Ok([])))
    ensures Effect(e.cfg, ViewOf(e, d), CreateFile(dir, name), ViewOf(e, d'))
  {
  }

  method ExecMkdir(fs: LolelfFs, dir: nat, name: D.Name) returns (clean: bool)
    requires Good(fs.env, fs.Snap(), fs.roles) && Addressable(fs.env, fs.Snap(), dir) && D.ValidName(name)
    modifies fs
    ensures clean ==> After(fs.env, old(fs.Snap()), fs.Snap(), fs.roles, Mkdir(dir, name))
    ensures clean <==> old(CreateError(fs.Snap(), fs.env.geo.nrInodes, dir, name)) != Some(NoIndexBlock)
    ensures !clean ==> InodeLost(old(fs.Snap()), fs.Snap())
  {
    var r := RustCreate.Mkdir(fs, dir, name);
    return r != Err(NoIndexBlock);
  }

  method ExecName(fs: LolelfFs, c: Cmd)
    requires c.Symlink? || c.Link? || c.Unlink? || c.Rmdir?
    requires Good(fs.env, fs.Snap(), fs.roles) && CanRun(fs.env, fs.Snap(), c)
    modifies fs
    ensures After(fs.env, old(fs.Snap()), fs.Snap(), fs.roles, c)
  {
    match c
    case Symlink(dir, name, target) => var _ := RustLink.Symlink(fs, dir, name, target);
    case Link(ino, dir, name) => var _ := RustLink.Link(fs, ino, dir, name);
    case Unlink(dir, name) =>
      ViewAt(fs.env, fs.Snap(), dir);
      var _ := RustRemove.Unlink(fs, dir, name);
    case Rmdir(dir, name) =>
      ViewAt(fs.env, fs.Snap(), dir);
      var _ := RustRemove.Rmdir(fs, dir, name);
  }

  method ExecWrite(fs: LolelfFs, ino: nat, data: Bytes) returns (clean: bool)
    requires Good(fs.env, fs.Snap(), fs.roles) && CanRun(fs.env, fs.Snap(), WriteFile(ino, data)) && UsualExtents(fs.env.cfg)
    modifies fs
    ensures clean ==> After(fs.env, old(fs.Snap()), fs.Snap(), fs.roles, WriteFile(ino, data))
    ensures clean <==> old(!Stops(fs.env, fs.Snap(), WriteFile(ino, data)))
    ensures !clean ==> Breaks(fs.env, old(fs.Snap()), fs.Snap(), WriteFile(ino, data))
  {
    ghost var d, rr := fs.Snap(), fs.roles;
    var r := RustFile.WriteFile(fs, ino, data);
    if r.Ok? { WroteStep(fs.env, d, rr, fs.Snap(), fs.roles, WriteFile(ino, data), ino, data); }
    return r.Ok? || !Dirty(r.error);
  }

  method ExecTruncate(fs: LolelfFs, ino: nat, size: nat) returns (clean: bool)
    requires Good(fs.env, fs.Snap(), fs.roles) && CanRun(fs.env, fs.Snap(), Truncate(ino, size)) && UsualExtents(fs.env.cfg)
    modifies fs
    ensures clean ==> After(fs.env, old(fs.Snap()), fs.Snap(), fs.roles, Truncate(ino, size))
    ensures clean <==> old(!Stops(fs.env, fs.Snap(), Truncate(ino, size)))
    ensures !clean ==> Breaks(fs.env, old(fs.Snap()), fs.Snap(), Truncate(ino, size))
  {
    ghost var d, rr := fs.Snap(), fs.roles;
    ViewAt(fs.env, d, ino);
    var content := ReadFile(fs, ino);
    var r := Fuse.Truncate(fs, ino, size);
    if r.Ok? {
      WroteStep(fs.env, d, rr, fs.Snap(), fs.roles, Truncate(ino, size), ino, Fuse.TruncateData(ViewOf(fs.env, d), ino, size).value);
    }
    return r.Ok? || !Dirty(r.error) || (size > 0 && content.Err?);
  }

  method ExecFuseWrite(fs: LolelfFs, ino: nat, offset: nat, bytes: Bytes) returns (clean: bool)
    requires Good(fs.env, fs.Snap(), fs.roles) && CanRun(fs.env, fs.Snap(), FuseWrite(ino, offset, bytes)) && UsualExtents(fs.env.cfg)
    modifies fs
    ensures clean ==> After(fs.env, old(fs.Snap()), fs.Snap(), fs.roles, FuseWrite(ino, offset, bytes))
    ensures clean <==> old(!Stops(fs.env, fs.Snap(), FuseWrite(ino, offset, bytes)))
    ensures !clean ==> Breaks(fs.env, old(fs.Snap()), fs.Snap(), FuseWrite(ino, offset, bytes))
  {
    ghost var d, rr, i := fs.Snap(), fs.roles, Fuse.FromFuse(ino);
    var r := Fuse.Write(fs, ino, offset, bytes);
    if r.Ok? {
      WroteStep(fs.env, d, rr, fs.Snap(), fs.roles, FuseWrite(ino, offset, bytes), i, Spliced(fs.env, d, i, offset, bytes));
    }
    return r.Ok? || !Dirty(r.error);
  }

  method ExecXattr(fs: LolelfFs, c: Cmd) returns (clean: bool)
    requires c.SetXattr? || c.RemoveXattr?
    requires Good(fs.env, fs.Snap(), fs.roles) && CanRun(fs.env, fs.Snap(), c) && UsualExtents(fs.env.cfg)
    modifies fs
    ensures clean ==> After(fs.env, old(fs.Snap()), fs.Snap(), fs.roles, c)
    ensures clean <==> old(!Stops(fs.env, fs.Snap(), c))
    ensures !clean ==> Breaks(fs.env, old(fs.Snap()), fs.Snap(), c)
  {
    ghost var v := ViewOf(fs.env, fs.Snap());
    var r;
    match c
    case SetXattr(ino, key, value) =>
      r := X.SetXattr(fs, ino, key, value);
      if r.Ok? { XattrsKeepLinks(v, ino, v[ino].xattrs[ParseName(key).value := value]); }
      return r.Ok? || !X.DirtyXattr(r.error);
    case RemoveXattr(ino, key) =>
      r := X.RemoveXattr(fs, ino, key);
      if r.Ok? { XattrsKeepLinks(v, ino, v[ino].xattrs - {ParseName(key).value}); }
      return r.Ok? || !X.DirtyXattr(r.error);
  }

  /** Run one command; `clean` is false when it failed after it had begun to change the disk. */
  method Exec(fs: LolelfFs, c: Cmd) returns (clean: bool)
    requires Good(fs.env, fs.Snap(), fs.roles) && CanRun(fs.env, fs.Snap(), c) && UsualExtents(fs.env.cfg)
    modifies fs
    ensures clean ==> After(fs.env, old(fs.Snap()), fs.Snap(), fs.roles, c)
    ensures clean <==> old(!Stops(fs.env, fs.Snap(), c))
    ensures !clean ==> Breaks(fs.env, old(fs.Snap()), fs.Snap(), c)
  {
    clean := true;
    match c
    case CreateFile(dir, name) => clean := ExecCreate(fs, dir, name);
    case Mkdir(dir, name) => clean := ExecMkdir(fs, dir, name);
    case Symlink(_, _, _) => ExecName(fs, c);
    case Link(_, _, _) => ExecName(fs, c);
    case Unlink(_, _) => ExecName(fs, c);
    case Rmdir(_, _) => ExecName(fs, c);
    case WriteFile(ino, data) => clean := ExecWrite(fs, ino, data);
    case Truncate(ino, size) => clean := ExecTruncate(fs, ino, size);
    case FuseWrite(ino, offset, bytes) => clean := ExecFuseWrite(fs, ino, offset, bytes);
    case SetXattr(_, _, _) => clean := ExecXattr(fs, c);
    case RemoveXattr(_, _) => clean := ExecXattr(fs, c);
  }

  // ---- whole runs ----

  /** The disks after each of the commands. */
  ghost predicate IsTrace(e: Env, trace: seq<Disk>, cmds: seq<Cmd>) {
    |trace| == |cmds| + 1 && forall j :: 0 <= j < |cmds| ==> Step(e, trace[j], cmds[j], trace[j + 1])
  }

  lemma TraceGrows(e: Env, trace: seq<Disk>, cmds: seq<Cmd>, k: nat, d: Disk)
    requires k < |cmds| && IsTrace(e, trace, cmds[..k]) && Step(e, trace[k], cmds[k], d)
    ensures IsTrace(e, trace + [d], cmds[..k + 1])
  {
    var t := trace + [d];
    forall j | 0 <= j < k + 1 ensures Step(e, t[j], cmds[..k + 1][j], t[j + 1]) {
      if j < k { assert cmds[..k][j] == cmds[j]; }
    }
  }

  lemma StepKeepsLinks(e: Env, d: Disk, c: Cmd, d': Disk)
    requires A.Linked(ViewOf(e, d)) && Step(e, d, c, d')
    ensures A.Linked(ViewOf(e, d'))
  {
    if !Fails(e, d, c) {
      EffectKeepsLinks(e.cfg, ViewOf(e, d), c, ViewOf(e, d'));
    }
  }

  /** Along any trace link counts stay exact and every inode stays reachable. */
  lemma {:induction false} TraceLinked(e: Env, trace: seq<Disk>, cmds: seq<Cmd>, j: nat)
    requires IsTrace(e, trace, cmds) && A.Linked(ViewOf(e, trace[0])) && j < |trace|
    ensures A.Linked(ViewOf(e, trace[j]))
  {
    if j > 0 {
      TraceLinked(e, trace, cmds, j - 1);
      StepKeepsLinks(e, trace[j - 1], cmds[j - 1], trace[j]);
    }
  }

  /** Some assignment of uses to blocks satisfies the whole invariant. */
  ghost predicate Sound(e: Env, d: Disk) {
    exists r: Roles :: Good(e, d, r)
  }

  /**
   * Any sequence of commands. The commands run so far form a trace in which each one has its abstract
   * effect or is refused for a reason, and the disk satisfies the whole invariant. A run ends early
   * only at a command outside the model or at one that had to stop half way.
   */
  method Run(fs: LolelfFs, cmds: seq<Cmd>) returns (done: nat, clean: bool, ghost trace: seq<Disk>)
    requires Good(fs.env, fs.Snap(), fs.roles) && UsualExtents(fs.env.cfg)
    modifies fs
    ensures done <= |cmds|
    ensures IsTrace(fs.env, trace, cmds[..done]) && trace[0] == old(fs.Snap())
    ensures forall j :: 0 <= j <= done ==> Sound(fs.env, trace[j])
    ensures clean ==>
      && Good(fs.env, fs.Snap(), fs.roles) && fs.Snap() == trace[done]
      && (done < |cmds| ==> !CanRun(fs.env, fs.Snap(), cmds[done]))
    ensures !clean ==> done < |cmds| && Breaks(fs.env, trace[done], fs.Snap(), cmds[done])
  {
    done := 0;
    trace := [fs.Snap()];
    while done < |cmds|
      invariant done <= |cmds|
      invariant IsTrace(fs.env, trace, cmds[..done]) && trace[0] == old(fs.Snap())
      invariant forall j :: 0 <= j <= done ==> Sound(fs.env, trace[j])
      invariant Good(fs.env, fs.Snap(), fs.roles) && fs.Snap() == trace[done]
    {
      if !CanRun(fs.env, fs.Snap(), cmds[done]) {
        return done, true, trace;
      }
      var ok := Exec(fs, cmds[done]);
      if !ok {
        return done, false, trace;
      }
      TraceGrows(fs.env, trace, cmds, done, fs.Snap());
      trace := trace + [fs.Snap()];
      done := done + 1;
    }
    clean := true;
  }
}
