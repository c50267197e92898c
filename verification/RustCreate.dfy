/** `create_file` (lolelffs-tools/src/file.rs) and `mkdir` (lolelffs-tools/src/dir.rs). */
module RustCreate {
  import opened Layout
  import opened DiskState
  import opened RustFs
  import opened RustPart
  import opened RustEntry
  import opened RustNode
  import opened RustLife
  import D = Directory
  import AbstractFs

  /** Why a name cannot be added, in the order of the tests. */
  function Refusal(v: AbstractFs.View, nrInodes: nat, dir: nat, name: D.Name): Option<Error>
    requires dir < nrInodes ==> dir in v
  {
    if |name| > MAX_FILENAME - 1 then Some(NameTooLong)
    else if dir >= nrInodes then Some(BadInode)
    else if !v[dir].Dir? then Some(NotDirectory)
    else if name in v[dir].entries then Some(Exists)
    else None
  }

  lemma RefusalSeen(e: Env, d: Disk, r: Roles, dir: nat, name: D.Name)
    requires Inv(e, d, r) && (dir < e.geo.nrInodes ==> Live(d, dir))
    ensures dir < e.geo.nrInodes ==> dir in ViewOf(e, d)
    ensures AddRefusal(d, e.geo.nrInodes, dir, name) == Refusal(ViewOf(e, d), e.geo.nrInodes, dir, name)
  {
    if dir < e.geo.nrInodes {
      ViewAt(e, d, dir);
      assert IsDir(d.inodes[dir]) <==> NodeView(e, d, dir).Dir?;
    }
  }

  lemma AddErrorSame(d: Disk, d': Disk, nrInodes: nat, dir: nat, name: D.Name, free: nat)
    requires nrInodes <= |d.inodes| && nrInodes <= |d'.inodes| && (dir < nrInodes ==> DirSame(d, d', dir))
    ensures AddError(d', nrInodes, dir, name, free) == AddError(d, nrInodes, dir, name, free)
  {
  }

  /** The error of `create_file` and `mkdir`; None when they succeed. */
  function CreateError(d: Disk, nrInodes: nat, dir: nat, name: D.Name): Option<Error>
    requires nrInodes <= |d.inodes|
  {
    if d.freeInodes == 0 then Some(NoFreeInode)
    else if d.freeBlocks == 0 then Some(NoIndexBlock)
    else AddError(d, nrInodes, dir, name, d.freeBlocks - 1)
  }

  /** The lowest inode number not in use. */
  ghost predicate LeastFree(v: AbstractFs.View, i: nat) {
    i !in v && forall j: nat :: j < i ==> j in v
  }

  lemma LeastSeen(e: Env, d: Disk, i: nat)
    requires LeastFreeInode(d.ifree, i) && i < |d.inodes| <= |d.ifree|
    ensures LeastFree(ViewOf(e, d), i)
  {
    ViewAt(e, d, i);
    forall j: nat | j < i ensures j in ViewOf(e, d) { ViewAt(e, d, j); }
  }

  /** A new node under a new name. */
  ghost predicate Made(e: Env, d: Disk, d': Disk, r': Roles, dir: nat, name: D.Name, i: nat, node: AbstractFs.Node) {
    && Inv(e, d', r')
    && var v := ViewOf(e, d);
       && AbstractFs.DirIn(v, dir) && LeastFree(v, i)
       && Refusal(v, e.geo.nrInodes, dir, name) == None
       && ViewOf(e, d') == AbstractFs.Create(v, dir, name, i, node)
  }

  /** Bitmaps, counters, ownership and everything visible are as before. */
  ghost predicate RolledBack(e: Env, d: Disk, r: Roles, d': Disk, r': Roles) {
    && Inv(e, d', r') && r' == r
    && d'.ifree == d.ifree && d'.bfree == d.bfree
    && d'.freeInodes == d.freeInodes && d'.freeBlocks == d.freeBlocks
    && ViewOf(e, d') == ViewOf(e, d)
  }

  /** Adding the name completes the creation. */
  lemma BornAndNamed(e: Env, d: Disk, r: Roles, d1: Disk, r1: Roles, d2: Disk, r2: Roles, dir: nat, name: D.Name, i: nat, node: AbstractFs.Node)
    requires Inv(e, d, r) && (dir < e.geo.nrInodes ==> Live(d, dir)) && LeastFreeInode(d.ifree, i) && i < |d.inodes|
    requires Born(e, d, d1, r1, i, node) && Added(e, d1, d2, r2, dir, name, i)
    requires AddRefusal(d1, e.geo.nrInodes, dir, name) == None
    ensures Made(e, d, d2, r2, dir, name, i, node)
  {
    BornRefusal(e, d, r, d1, r1, dir, name, i, node);
    LeastSeen(e, d, i);
  }

  lemma BornRefusal(e: Env, d: Disk, r: Roles, d1: Disk, r1: Roles, dir: nat, name: D.Name, i: nat, node: AbstractFs.Node)
    requires Inv(e, d, r) && (dir < e.geo.nrInodes ==> Live(d, dir)) && !Live(d, i)
    requires Born(e, d, d1, r1, i, node)
    ensures dir < e.geo.nrInodes ==> Live(d1, dir)
    ensures dir < e.geo.nrInodes ==> dir in ViewOf(e, d)
    ensures AddRefusal(d1, e.geo.nrInodes, dir, name) == Refusal(ViewOf(e, d), e.geo.nrInodes, dir, name)
  {
    ViewAt(e, d1, dir);
    RefusalSeen(e, d, r, dir, name);
    RefusalSeen(e, d1, r1, dir, name);
  }

  /** The first half of `create_file` and `mkdir`: inode and index block allocated and written. */
  method BearIndexed(fs: LolelfFs, mode: nat, nlink: nat) returns (r: Result<(nat, nat)>)
    requires Inv(fs.env, fs.Snap(), fs.roles) && FreshInode(Template(mode, nlink, 0), 0)
    modifies fs
    ensures r.Ok? ==> Birth(fs.env, old(fs.Snap()), old(fs.roles), fs.Snap(), fs.roles, r.value.0, r.value.1, FreshNode(Template(mode, nlink, 0)))
    ensures r.Err? <==> old(fs.freeInodes) == 0 || old(fs.freeBlocks) == 0
    ensures r.Err? ==>
      && fs.roles == old(fs.roles)
      && r.error == (if old(fs.freeInodes) == 0 then NoFreeInode else NoIndexBlock)
      && if r.error == NoFreeInode then fs.Snap() == old(fs.Snap()) else InodeLost(old(fs.Snap()), fs.Snap())
  {
    ghost var d, rr := fs.Snap(), fs.roles;
    var c := ClaimNode(fs);
    if c.Err? {
      return c;
    }
    var (i, b) := c.value;
    var n := Template(mode, nlink, b);
    fs.inodes := fs.inodes[i := n];
    fs.blocks := fs.blocks[b := Index(EmptyIndex())];
    ghost var d' := fs.Snap();
    IndexedBorn(fs.env, d, rr, d', i, b, n, HeadMaker(i, false));
    return c;
  }

  /** Inode `i` with index block `b` has come into being and nothing else happened. */
  ghost predicate Birth(e: Env, d: Disk, r: Roles, d': Disk, r': Roles, i: nat, b: nat, node: AbstractFs.Node) {
    && Born(e, d, d', r', i, node) && SameDirs(d, d')
    && LeastFreeInode(d.ifree, i) && i < |d.inodes| && b < |d.blocks| && b < |d.bfree| && d.bfree[b]
    && d'.ifree == d.ifree[i := false] && d'.freeInodes + 1 == d.freeInodes
    && d'.bfree == d.bfree[b := false] && d'.freeBlocks + 1 == d.freeBlocks
    && r' == Assigned(r, b, 1, HeadMaker(i, false))
  }

  lemma BirthUndone(e: Env, d: Disk, r: Roles, d1: Disk, r1: Roles, d2: Disk, r2: Roles, i: nat, b: nat, node: AbstractFs.Node)
    requires Inv(e, d, r) && Birth(e, d, r, d1, r1, i, b, node)
    requires d2 == d1.(ifree := d1.ifree[i := true], freeInodes := d1.freeInodes + 1, bfree := d1.bfree[b := true], freeBlocks := d1.freeBlocks + 1)
    requires r2 == Assigned(r1, b, 1, _ => Free) && Shape(e, d2) && BitsOk(e, d2, r2)
    ensures RolledBack(e, d, r, d2, r2)
  {
    assert r[b].Free?;
    FreeInodeOwnsNothing(e, d, r, i, false);
    FreeInodeOwnsNothing(e, d, r, i, true);
    assert r2 == r;
    assert Disowned(r1, i) == r;
    NodeRemoved(e, d1, r1, d2, i);
    ViewAt(e, d, i);
  }

  /** Give back the inode and the index block of a creation that failed. */
  method UndoBirth(fs: LolelfFs, i: nat, b: nat, ghost d: Disk, ghost r: Roles, ghost node: AbstractFs.Node)
    requires Inv(fs.env, d, r) && Birth(fs.env, d, r, fs.Snap(), fs.roles, i, b, node)
    modifies fs
    ensures RolledBack(fs.env, d, r, fs.Snap(), fs.roles)
  {
    ghost var d1, r1 := fs.Snap(), fs.roles;
    assert r[b].Free?;
    var _ := fs.FreeInode(i);
    fs.FreeBlock(b);
    BirthUndone(fs.env, d, r, d1, r1, fs.Snap(), fs.roles, i, b, node);
  }

  /** A creation that fails restores everything, or loses an inode when no block is left. */
  ghost predicate CreateFailed(e: Env, d: Disk, r: Roles, d': Disk, r': Roles, error: Error) {
    if error == NoIndexBlock then r' == r && InodeLost(d, d') else RolledBack(e, d, r, d', r')
  }

  lemma FailedIsGood(e: Env, d: Disk, r: Roles, d': Disk, r': Roles, error: Error)
    requires Good(e, d, r) && CreateFailed(e, d, r, d', r', error)
    ensures error != NoIndexBlock ==> Good(e, d', r')
  {
  }

  /** `create_file` and `mkdir` up to the new name. */
  method CreateIndexed(fs: LolelfFs, parent: nat, name: D.Name, mode: nat, nlink: nat) returns (r: Result<nat>)
    requires Inv(fs.env, fs.Snap(), fs.roles) && D.ValidName(name)
    requires parent < fs.env.geo.nrInodes ==> Live(fs.Snap(), parent)
    requires FreshInode(Template(mode, nlink, 0), 0)
    modifies fs
    ensures r.Ok? ==> Made(fs.env, old(fs.Snap()), fs.Snap(), fs.roles, parent, name, r.value, FreshNode(Template(mode, nlink, 0)))
    ensures r.Err? ==> CreateFailed(fs.env, old(fs.Snap()), old(fs.roles), fs.Snap(), fs.roles, r.error)
    ensures var why := CreateError(old(fs.Snap()), fs.env.geo.nrInodes, parent, name); if why.Some? then r == Err(why.value) else r.Ok?
  {
    ghost var d, rr := fs.Snap(), fs.roles;
    ghost var node := FreshNode(Template(mode, nlink, 0));
    var c := BearIndexed(fs, mode, nlink);
    if c.Err? {
      return Err(c.error);
    }
    r := NameOrUndo(fs, c.value.0, c.value.1, parent, name, d, rr, node);
  }

  /** Add the name of a new inode, or give the inode and its index block back. */
  method NameOrUndo(fs: LolelfFs, i: nat, b: nat, parent: nat, name: D.Name, ghost d: Disk, ghost rr: Roles, ghost node: AbstractFs.Node)
    returns (r: Result<nat>)
    requires Inv(fs.env, d, rr) && Birth(fs.env, d, rr, fs.Snap(), fs.roles, i, b, node) && D.ValidName(name)
    requires parent < fs.env.geo.nrInodes ==> Live(d, parent)
    modifies fs
    ensures r.Ok? ==> r.value == i && Made(fs.env, d, fs.Snap(), fs.roles, parent, name, i, node)
    ensures r.Err? ==> RolledBack(fs.env, d, rr, fs.Snap(), fs.roles)
    ensures d.freeBlocks > 0
    ensures var why := AddError(d, fs.env.geo.nrInodes, parent, name, d.freeBlocks - 1); if why.Some? then r == Err(why.value) else r.Ok?
  {
    ghost var d1, r1 := fs.Snap(), fs.roles;
    BornRefusal(fs.env, d, rr, d1, r1, parent, name, i, node);
    AddErrorSame(d, d1, fs.env.geo.nrInodes, parent, name, d1.freeBlocks);
    var a := AddDirEntry(fs, parent, name, i);
    if a.Err? {
      UndoBirth(fs, i, b, d, rr, node);
      return Err(a.error);
    }
    BornAndNamed(fs.env, d, rr, d1, r1, fs.Snap(), fs.roles, parent, name, i, node);
    return Ok(i);
  }

  /**
   * `create_file`. Success adds an empty file under the new name and nothing else. Failure leaves
   * everything as it was, except that a disk without a free block loses the inode.
   */
  method CreateFile(fs: LolelfFs, parent: nat, name: D.Name) returns (r: Result<nat>)
    requires Good(fs.env, fs.Snap(), fs.roles) && D.ValidName(name)
    requires parent < fs.env.geo.nrInodes ==> Live(fs.Snap(), parent)
    modifies fs
    ensures r.Ok? ==> Made(fs.env, old(fs.Snap()), fs.Snap(), fs.roles, parent, name, r.value, AbstractFs.File(1, map[], Ok([])))
    ensures r.Err? ==> CreateFailed(fs.env, old(fs.Snap()), old(fs.roles), fs.Snap(), fs.roles, r.error)
    ensures var why := CreateError(old(fs.Snap()), fs.env.geo.nrInodes, parent, name); if why.Some? then r == Err(why.value) else r.Ok?
    ensures r != Err(NoIndexBlock) ==> Good(fs.env, fs.Snap(), fs.roles)
  {
    ghost var v := ViewOf(fs.env, fs.Snap());
    r := CreateIndexed(fs, parent, name, S_IFREG + 0x1A4, 1);
    if r.Ok? {
      AbstractFs.CreateKeepsLinks(v, parent, name, r.value, AbstractFs.File(1, map[], Ok([])));
    } else {
      FailedIsGood(fs.env, old(fs.Snap()), old(fs.roles), fs.Snap(), fs.roles, r.error);
    }
  }

  /** A new empty directory; its parent gains a link. */
  ghost predicate MadeDir(e: Env, d: Disk, d': Disk, r': Roles, dir: nat, name: D.Name, i: nat) {
    && Inv(e, d', r')
    && var v := ViewOf(e, d);
       && AbstractFs.DirIn(v, dir) && LeastFree(v, i)
       && Refusal(v, e.geo.nrInodes, dir, name) == None
       && ViewOf(e, d') == AbstractFs.Mkdir(v, dir, name, i)
  }

  lemma MkdirIs(v: AbstractFs.View, dir: nat, name: D.Name, i: nat)
    requires AbstractFs.DirIn(v, dir) && i != dir
    ensures var w := AbstractFs.Create(v, dir, name, i, AbstractFs.Dir(2, map[], map[]));
      && w[dir].nlink == v[dir].nlink
      && AbstractFs.Relink(w, dir, w[dir].nlink + 1) == AbstractFs.Mkdir(v, dir, name, i)
  {
  }

  lemma MadeAndLinked(e: Env, d: Disk, d1: Disk, r1: Roles, d2: Disk, r2: Roles, dir: nat, name: D.Name, i: nat, k: nat)
    requires Made(e, d, d1, r1, dir, name, i, AbstractFs.Dir(2, map[], map[]))
    requires Relinked(e, d1, d2, r2, dir, k) && k == ViewOf(e, d1)[dir].nlink + 1
    ensures MadeDir(e, d, d2, r2, dir, name, i)
  {
    MkdirIs(ViewOf(e, d), dir, name, i);
  }

  lemma MadeDirGood(e: Env, d: Disk, r: Roles, d': Disk, r': Roles, dir: nat, name: D.Name, i: nat)
    requires Good(e, d, r) && MadeDir(e, d, d', r', dir, name, i)
    ensures Good(e, d', r')
  {
    AbstractFs.MkdirKeepsLinks(ViewOf(e, d), dir, name, i);
  }

  /** The last step of `mkdir`. */
  method LinkParent(fs: LolelfFs, parent: nat, ghost name: D.Name, ghost i: nat, ghost d: Disk, ghost r: Roles)
    requires Good(fs.env, d, r) && Made(fs.env, d, fs.Snap(), fs.roles, parent, name, i, AbstractFs.Dir(2, map[], map[]))
    modifies fs`inodes
    ensures MadeDir(fs.env, d, fs.Snap(), fs.roles, parent, name, i)
    ensures Good(fs.env, fs.Snap(), fs.roles)
  {
    ghost var d1 := fs.Snap();
    LinksSeen(fs.env, d1, parent);
    SetLinks(fs, parent, fs.inodes[parent].nlink + 1);
    MadeAndLinked(fs.env, d, d1, fs.roles, fs.Snap(), fs.roles, parent, name, i, d1.inodes[parent].nlink + 1);
    MadeDirGood(fs.env, d, r, fs.Snap(), fs.roles, parent, name, i);
  }

  /** `mkdir`: an empty directory with two links under the new name, one more link on its parent. */
  method Mkdir(fs: LolelfFs, parent: nat, name: D.Name) returns (r: Result<nat>)
    requires Good(fs.env, fs.Snap(), fs.roles) && D.ValidName(name)
    requires parent < fs.env.geo.nrInodes ==> Live(fs.Snap(), parent)
    modifies fs
    ensures r.Ok? ==> MadeDir(fs.env, old(fs.Snap()), fs.Snap(), fs.roles, parent, name, r.value)
    ensures r.Err? ==> CreateFailed(fs.env, old(fs.Snap()), old(fs.roles), fs.Snap(), fs.roles, r.error)
    ensures var why := CreateError(old(fs.Snap()), fs.env.geo.nrInodes, parent, name); if why.Some? then r == Err(why.value) else r.Ok?
    ensures r != Err(NoIndexBlock) ==> Good(fs.env, fs.Snap(), fs.roles)
  {
    ghost var d, rr := fs.Snap(), fs.roles;
    r := CreateIndexed(fs, parent, name, S_IFDIR + 0x1ED, 2);
    if r.Ok? {
      LinkParent(fs, parent, name, r.value, d, rr);
    } else {
      FailedIsGood(fs.env, d, rr, fs.Snap(), fs.roles, r.error);
    }
  }
}
