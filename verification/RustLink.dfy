/** `symlink` and `link` (lolelffs-tools/src/file.rs). */
module RustLink {
  import opened Layout
  import opened Bits
  import opened DiskState
  import opened RustFs
  import opened RustEntry
  import opened RustNode
  import opened RustLife
  import opened RustCreate
  import D = Directory
  import AbstractFs

  // ---- symbolic links ----

  /** The target in the 28 bytes of `i_data`. */
  function TargetField(target: Bytes): (r: Bytes)
    requires |target| <= 27
    ensures |r| == 28 && r[27] == 0
  {
    target + seq(28 - |target|, _ => 0)
  }

  /** A stored target reads back as its part before the first NUL: all of it, exactly when it has none. */
  lemma {:induction false} TargetReadsBack(target: Bytes, zeros: Bytes)
    requires zeros != [] && zeros[0] == 0
    ensures CString(target + zeros) == target <==> 0 !in target
  {
    if target == [] {
      assert target + zeros == zeros;
    } else {
      assert (target + zeros)[1..] == target[1..] + zeros;
      assert target == [target[0]] + target[1..];
      TargetReadsBack(target[1..], zeros);
    }
  }

  /** The inode record that `symlink` writes. */
  function LinkTemplate(target: Bytes): Inode
    requires |target| <= 27
  {
    Inode(S_IFLNK + 0x1FF, 0, 0, |target|, 0, 0, 0, 0, 1, 0, 0, TargetField(target))
  }

  function LinkNode(target: Bytes): AbstractFs.Node
    requires |target| <= 27
  {
    AbstractFs.Symlink(1, map[], CString(TargetField(target)))
  }

  /** Inode `i` is taken and written; nothing else changed. */
  predicate InodeTaken(d: Disk, d': Disk, i: nat, n: Inode) {
    && d.freeInodes > 0 && LeastFreeInode(d.ifree, i) && i < |d.inodes|
    && d' == d.(ifree := d.ifree[i := false], freeInodes := d.freeInodes - 1, inodes := d.inodes[i := n])
  }

  lemma BlocklessBorn(e: Env, d: Disk, r: Roles, d': Disk, i: nat, n: Inode)
    requires Inv(e, d, r) && InodeTaken(d, d', i, n) && Shape(e, d') && BitsOk(e, d', r)
    requires IsSymlink(n) && SymlinkOk(n) && SmallInode(n) && n.xattr == 0
    ensures Born(e, d, d', r, i, AbstractFs.Symlink(n.nlink, map[], CString(n.data))) && SameDirs(d, d')
  {
    FreeInodeOwnsNothing(e, d, r, i, false);
    FreeInodeOwnsNothing(e, d, r, i, true);
    forall c | 0 <= c < |r| ensures TouchedFor(d, r, d', r, i, false, c) {}
    OthersSame(e, d, r, d', r, i);
    NodeBorn(e, d, r, d', r, i);
  }

  lemma BlocklessUndone(e: Env, d: Disk, r: Roles, d1: Disk, d2: Disk, i: nat, n: Inode, node: AbstractFs.Node)
    requires Inv(e, d, r) && InodeTaken(d, d1, i, n) && Born(e, d, d1, r, i, node)
    requires d2 == d1.(ifree := d1.ifree[i := true], freeInodes := d1.freeInodes + 1)
    requires Shape(e, d2) && BitsOk(e, d2, r)
    ensures RolledBack(e, d, r, d2, r)
  {
    FreeInodeOwnsNothing(e, d, r, i, false);
    FreeInodeOwnsNothing(e, d, r, i, true);
    assert Disowned(r, i) == r;
    NodeRemoved(e, d1, r, d2, i);
    ViewAt(e, d, i);
  }

  /** The first half of `symlink`. */
  method BearLink(fs: LolelfFs, target: Bytes) returns (r: Result<nat>)
    requires Inv(fs.env, fs.Snap(), fs.roles) && |target| <= 27
    modifies fs
    ensures r.Ok? ==>
      && InodeTaken(old(fs.Snap()), fs.Snap(), r.value, LinkTemplate(target)) && fs.roles == old(fs.roles)
      && Born(fs.env, old(fs.Snap()), fs.Snap(), fs.roles, r.value, LinkNode(target)) && SameDirs(old(fs.Snap()), fs.Snap())
    ensures r.Err? <==> old(fs.freeInodes) == 0
    ensures r.Err? ==> r.error == NoFreeInode && old(fs.freeInodes) == 0 && fs.Snap() == old(fs.Snap()) && fs.roles == old(fs.roles)
  {
    ghost var d := fs.Snap();
    CountPositive(fs.IfreeBits());
    r := fs.AllocInode();
    if r.Err? {
      return;
    }
    var n := LinkTemplate(target);
    fs.inodes := fs.inodes[r.value := n];
    LinkBorn(fs.env, d, fs.roles, fs.Snap(), r.value, target);
  }

  lemma LinkBorn(e: Env, d: Disk, r: Roles, d': Disk, i: nat, target: Bytes)
    requires Inv(e, d, r) && |target| <= 27 && InodeTaken(d, d', i, LinkTemplate(target)) && Shape(e, d') && BitsOk(e, d', r)
    ensures Born(e, d, d', r, i, LinkNode(target)) && SameDirs(d, d')
  {
    BlocklessBorn(e, d, r, d', i, LinkTemplate(target));
  }

  /** The error of `symlink`; None when it succeeds. */
  function SymlinkError(d: Disk, nrInodes: nat, dir: nat, name: D.Name, target: Bytes): Option<Error>
    requires nrInodes <= |d.inodes|
  {
    if |target| > 27 then Some(TargetTooLong)
    else if d.freeInodes == 0 then Some(NoFreeInode)
    else AddError(d, nrInodes, dir, name, d.freeBlocks)
  }

  /** `symlink`: like `create_file`, without a block, so that no failure loses anything. */
  method Symlink(fs: LolelfFs, parent: nat, name: D.Name, target: Bytes) returns (r: Result<nat>)
    requires Good(fs.env, fs.Snap(), fs.roles) && D.ValidName(name)
    requires parent < fs.env.geo.nrInodes ==> Live(fs.Snap(), parent)
    modifies fs
    ensures Good(fs.env, fs.Snap(), fs.roles)
    ensures r.Ok? ==> |target| <= 27 && Made(fs.env, old(fs.Snap()), fs.Snap(), fs.roles, parent, name, r.value, LinkNode(target))
    ensures r.Err? ==> RolledBack(fs.env, old(fs.Snap()), old(fs.roles), fs.Snap(), fs.roles)
    ensures var why := SymlinkError(old(fs.Snap()), fs.env.geo.nrInodes, parent, name, target);
      if why.Some? then r == Err(why.value) else r.Ok?
  {
    ghost var d, rr := fs.Snap(), fs.roles;
    if |target| > 27 {
      return Err(TargetTooLong);
    }
    r := BearLink(fs, target);
    if r.Err? {
      return;
    }
    r := NameLink(fs, r.value, parent, name, target, d, rr);
    if r.Ok? {
      AbstractFs.CreateKeepsLinks(ViewOf(fs.env, d), parent, name, r.value, LinkNode(target));
    }
  }

  /** Add the name of a new symbolic link, or give its inode back. */
  method NameLink(fs: LolelfFs, i: nat, parent: nat, name: D.Name, ghost target: Bytes, ghost d: Disk, ghost rr: Roles) returns (r: Result<nat>)
    requires |target| <= 27 && Inv(fs.env, d, rr) && InodeTaken(d, fs.Snap(), i, LinkTemplate(target)) && fs.roles == rr
    requires Born(fs.env, d, fs.Snap(), fs.roles, i, LinkNode(target)) && SameDirs(d, fs.Snap()) && D.ValidName(name)
    requires parent < fs.env.geo.nrInodes ==> Live(d, parent)
    modifies fs
    ensures r.Ok? ==> r.value == i && Made(fs.env, d, fs.Snap(), fs.roles, parent, name, i, LinkNode(target))
    ensures r.Err? ==> RolledBack(fs.env, d, rr, fs.Snap(), fs.roles)
    ensures var why := AddError(d, fs.env.geo.nrInodes, parent, name, d.freeBlocks); if why.Some? then r == Err(why.value) else r.Ok?
  {
    ghost var d1 := fs.Snap();
    BornRefusal(fs.env, d, rr, d1, rr, parent, name, i, LinkNode(target));
    AddErrorSame(d, d1, fs.env.geo.nrInodes, parent, name, d1.freeBlocks);
    var a := AddDirEntry(fs, parent, name, i);
    if a.Err? {
      var _ := fs.FreeInode(i);
      BlocklessUndone(fs.env, d, rr, d1, fs.Snap(), i, LinkTemplate(target), LinkNode(target));
      return Err(a.error);
    }
    BornAndNamed(fs.env, d, rr, d1, rr, fs.Snap(), fs.roles, parent, name, i, LinkNode(target));
    return Ok(i);
  }

  // ---- hard links ----

  /** The error of `link`; None when it succeeds. */
  function LinkError(d: Disk, nrInodes: nat, target: nat, dir: nat, name: D.Name): Option<Error>
    requires nrInodes <= |d.inodes|
  {
    if target >= nrInodes then Some(BadInode)
    else if IsDir(d.inodes[target]) then Some(IsADirectory)
    else AddError(d, nrInodes, dir, name, d.freeBlocks)
  }

  /** One more name and one more link for `i`. */
  ghost predicate Hardlinked(e: Env, d: Disk, d': Disk, r': Roles, i: nat, dir: nat, name: D.Name) {
    && Inv(e, d', r')
    && var v := ViewOf(e, d);
       && AbstractFs.DirIn(v, dir) && i in v && !v[i].Dir? && name !in v[dir].entries
       && ViewOf(e, d') == AbstractFs.Hardlink(v, i, dir, name)
  }

  lemma RelinkSame(e: Env, d: Disk, r: Roles, d1: Disk, i: nat, k: nat, dir: nat)
    requires Inv(e, d, r) && Live(d, i) && Live(d, dir) && d1 == d.(inodes := d.inodes[i := d.inodes[i].(nlink := k)])
    ensures DirSame(d, d1, dir)
  {
    NodeSound(e, d, r, dir);
    BlocksAgree(d, r, d1, dir, false);
    PartFrame(d, r, d1, r, dir, false);
  }

  lemma RelinkedAndNamed(e: Env, d: Disk, r: Roles, d1: Disk, r1: Roles, d2: Disk, r2: Roles, i: nat, k: nat, dir: nat, name: D.Name)
    requires Good(e, d, r) && Relinked(e, d, d1, r1, i, k) && k == ViewOf(e, d)[i].nlink + 1 && !ViewOf(e, d)[i].Dir?
    requires dir in ViewOf(e, d) && ViewOf(e, d)[dir].Dir? && name !in ViewOf(e, d)[dir].entries
    requires Added(e, d1, d2, r2, dir, name, i)
    ensures Hardlinked(e, d, d2, r2, i, dir, name) && Good(e, d2, r2)
  {
    AbstractFs.HardlinkKeepsLinks(ViewOf(e, d), i, dir, name);
  }

  /** `link` once its target is known to be a live non-directory. */
  method AddLink(fs: LolelfFs, target: nat, parent: nat, name: D.Name) returns (r: Result<()>)
    requires Good(fs.env, fs.Snap(), fs.roles) && D.ValidName(name)
    requires parent < fs.env.geo.nrInodes ==> Live(fs.Snap(), parent)
    requires Live(fs.Snap(), target) && !IsDir(fs.inodes[target])
    modifies fs`freeBlocks, fs`bfree, fs`roles, fs`blocks, fs`inodes
    ensures r.Ok? ==> Good(fs.env, fs.Snap(), fs.roles) && Hardlinked(fs.env, old(fs.Snap()), fs.Snap(), fs.roles, target, parent, name)
    ensures r.Err? ==> fs.Snap() == old(fs.Snap()) && fs.roles == old(fs.roles)
    ensures var why := AddError(old(fs.Snap()), fs.env.geo.nrInodes, parent, name, old(fs.freeBlocks));
      if why.Some? then r == Err(why.value) else r.Ok?
  {
    ghost var d, rr := fs.Snap(), fs.roles;
    RefusalSeen(fs.env, d, rr, parent, name);
    LinksSeen(fs.env, d, target);
    var n := fs.inodes[target];
    SetLinks(fs, target, n.nlink + 1);
    ghost var d1 := fs.Snap();
    if parent < fs.env.geo.nrInodes { RelinkSame(fs.env, d, rr, d1, target, n.nlink + 1, parent); }
    AddErrorSame(d, d1, fs.env.geo.nrInodes, parent, name, d.freeBlocks);
    r := AddDirEntry(fs, parent, name, target);
    if r.Err? {
      fs.inodes := fs.inodes[target := n];
      assert fs.inodes == d.inodes;
      return;
    }
    RelinkedAndNamed(fs.env, d, rr, d1, rr, fs.Snap(), fs.roles, target, n.nlink + 1, parent, name);
  }

  /** `link`: one more name and one more link, or nothing at all. */
  method Link(fs: LolelfFs, target: nat, parent: nat, name: D.Name) returns (r: Result<()>)
    requires Good(fs.env, fs.Snap(), fs.roles) && D.ValidName(name)
    requires parent < fs.env.geo.nrInodes ==> Live(fs.Snap(), parent)
    requires target < fs.env.geo.nrInodes ==> Live(fs.Snap(), target)
    modifies fs`freeBlocks, fs`bfree, fs`roles, fs`blocks, fs`inodes
    ensures Good(fs.env, fs.Snap(), fs.roles)
    ensures r.Ok? ==> Hardlinked(fs.env, old(fs.Snap()), fs.Snap(), fs.roles, target, parent, name)
    ensures r.Err? ==> fs.Snap() == old(fs.Snap()) && fs.roles == old(fs.roles)
    ensures var why := LinkError(old(fs.Snap()), fs.env.geo.nrInodes, target, parent, name);
      if why.Some? then r == Err(why.value) else r.Ok?
  {
    if target >= fs.env.geo.nrInodes {
      return Err(BadInode);
    }
    if IsDir(fs.inodes[target]) {
      return Err(IsADirectory);
    }
    r := AddLink(fs, target, parent, name);
  }
}
