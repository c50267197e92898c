/** `unlink` (lolelffs-tools/src/file.rs) and `rmdir` (lolelffs-tools/src/dir.rs). */
module RustRemove {
  import opened Layout
  import opened DiskState
  import opened RustFs
  import opened RustDir
  import opened RustEntry
  import opened RustList
  import opened RustNode
  import opened RustLife
  import D = Directory
  import AbstractFs

  /** The errors `unlink` and `rmdir` share, in the order of their tests. */
  function MissingName(v: AbstractFs.View, nrInodes: nat, dir: nat, name: D.Name): Option<Error>
    requires dir < nrInodes ==> dir in v
  {
    if dir >= nrInodes then Some(BadInode)
    else if !v[dir].Dir? then Some(NotDirectory)
    else if name !in v[dir].entries then Some(NotFound)
    else None
  }

  /** Find a name; the inode found is live and its type can be read. */
  method Resolve(fs: LolelfFs, parent: nat, name: D.Name) returns (r: Result<nat>)
    requires Good(fs.env, fs.Snap(), fs.roles)
    requires parent < fs.env.geo.nrInodes ==> Live(fs.Snap(), parent)
    ensures parent < fs.env.geo.nrInodes ==> parent in ViewOf(fs.env, fs.Snap())
    ensures r.Err? ==> MissingName(ViewOf(fs.env, fs.Snap()), fs.env.geo.nrInodes, parent, name) == Some(r.error)
    ensures r.Ok? ==> var v := ViewOf(fs.env, fs.Snap());
      && MissingName(v, fs.env.geo.nrInodes, parent, name) == None
      && parent < fs.env.geo.nrInodes && AbstractFs.IsName(v, parent, name, r.value)
      && IsDir(fs.inodes[parent]) && name in D.Entries(DirSlots(fs.Snap(), parent))
      && r.value in v && Live(fs.Snap(), r.value) && (IsDir(fs.inodes[r.value]) <==> AbstractFs.DirIn(v, r.value))
  {
    ViewAt(fs.env, fs.Snap(), parent);
    var found := Lookup(fs, parent, name);
    if found.Err? {
      return Err(found.error);
    }
    if found.value.None? {
      return Err(NotFound);
    }
    ghost var v := ViewOf(fs.env, fs.Snap());
    assert AbstractFs.IsName(v, parent, name, found.value.value);
    LinksSeen(fs.env, fs.Snap(), found.value.value);
    return Ok(found.value.value);
  }

  ghost predicate Unlinked(e: Env, d: Disk, d': Disk, r': Roles, dir: nat, name: D.Name) {
    && Inv(e, d', r')
    && var v := ViewOf(e, d);
       && AbstractFs.DirIn(v, dir) && name in v[dir].entries && v[dir].entries[name] in v && v[dir].entries[name] != dir
       && ViewOf(e, d') == AbstractFs.Unlink(v, dir, name)
  }

  /** The name is gone: drop one link, or the inode with its last one. */
  lemma LinkDropped(e: Env, d: Disk, r: Roles, d1: Disk, r1: Roles, d2: Disk, r2: Roles, dir: nat, name: D.Name, i: nat)
    requires Good(e, d, r) && AbstractFs.IsName(ViewOf(e, d), dir, name, i) && !AbstractFs.DirIn(ViewOf(e, d), i)
    requires i in ViewOf(e, d) && Dropped(e, d, d1, r1, dir, name)
    requires var k := AbstractFs.Decrement(ViewOf(e, d)[i].nlink);
      if k == 0 then Removed(e, d1, d2, r2, i) else Relinked(e, d1, d2, r2, i, k)
    ensures Unlinked(e, d, d2, r2, dir, name) && Good(e, d2, r2)
  {
    AbstractFs.UnlinkKeepsLinks(ViewOf(e, d), dir, name, i);
  }

  /** The second half of `unlink`. */
  method DropLink(fs: LolelfFs, i: nat, ghost d: Disk, ghost r: Roles, ghost parent: nat, ghost name: D.Name)
    requires Good(fs.env, d, r) && AbstractFs.IsName(ViewOf(fs.env, d), parent, name, i) && !AbstractFs.DirIn(ViewOf(fs.env, d), i)
    requires i in ViewOf(fs.env, d) && i != parent && Dropped(fs.env, d, fs.Snap(), fs.roles, parent, name)
    modifies fs
    ensures Unlinked(fs.env, d, fs.Snap(), fs.roles, parent, name) && Good(fs.env, fs.Snap(), fs.roles)
  {
    ghost var d1, r1 := fs.Snap(), fs.roles;
    LinksSeen(fs.env, d1, i);
    var k := SaturatingSub(fs.inodes[i].nlink, 1);
    if k == 0 {
      Destroy(fs, i, false);
    } else {
      SetLinks(fs, i, k);
    }
    LinkDropped(fs.env, d, r, d1, r1, fs.Snap(), fs.roles, parent, name, i);
  }

  /**
   * `unlink`: exactly this name goes; the inode and every block it owns go with its last name.
   * On failure nothing has changed.
   */
  method Unlink(fs: LolelfFs, parent: nat, name: D.Name) returns (r: Result<()>)
    requires Good(fs.env, fs.Snap(), fs.roles)
    requires parent < fs.env.geo.nrInodes ==> Live(fs.Snap(), parent)
    modifies fs
    ensures Good(fs.env, fs.Snap(), fs.roles)
    ensures parent < fs.env.geo.nrInodes ==> parent in old(ViewOf(fs.env, fs.Snap()))
    ensures r.Ok? ==> Unlinked(fs.env, old(fs.Snap()), fs.Snap(), fs.roles, parent, name)
    ensures r.Err? ==> fs.Snap() == old(fs.Snap()) && fs.roles == old(fs.roles)
    ensures var v := old(ViewOf(fs.env, fs.Snap())); var why := MissingName(v, fs.env.geo.nrInodes, parent, name);
      if why.Some? then r == Err(why.value)
      else r == if AbstractFs.DirIn(v, v[parent].entries[name]) then Err(IsADirectory) else Ok(())
  {
    ghost var d, rr := fs.Snap(), fs.roles;
    var i := Resolve(fs, parent, name);
    if i.Err? {
      return Err(i.error);
    }
    if IsDir(fs.inodes[i.value]) {
      return Err(IsADirectory);
    }
    var removed := RemoveDirEntry(fs, parent, name);
    assert removed.Ok?;
    DropLink(fs, i.value, d, rr, parent, name);
    return Ok(());
  }

  ghost predicate DirRemoved(e: Env, d: Disk, d': Disk, r': Roles, dir: nat, name: D.Name) {
    && Inv(e, d', r')
    && var v := ViewOf(e, d);
       && AbstractFs.DirIn(v, dir) && name in v[dir].entries && v[dir].entries[name] != dir
       && ViewOf(e, d') == AbstractFs.Rmdir(v, dir, name)
  }

  lemma RmdirIs(v: AbstractFs.View, dir: nat, name: D.Name, i: nat)
    requires AbstractFs.IsName(v, dir, name, i) && i != dir
    ensures var w := AbstractFs.DropName(v, dir, name) - {i};
      && dir in w && w[dir].nlink == v[dir].nlink
      && AbstractFs.Relink(w, dir, AbstractFs.Decrement(w[dir].nlink)) == AbstractFs.Rmdir(v, dir, name)
  {
  }

  /** Entry, node and parent link gone in turn: together that is `rmdir`. */
  lemma DirDropped(e: Env, d: Disk, r: Roles, d1: Disk, r1: Roles, d2: Disk, r2: Roles, d3: Disk, r3: Roles, dir: nat, name: D.Name, i: nat, k: nat)
    requires Good(e, d, r) && AbstractFs.IsName(ViewOf(e, d), dir, name, i) && i != dir
    requires AbstractFs.DirIn(ViewOf(e, d), i) && ViewOf(e, d)[i].entries == map[]
    requires Dropped(e, d, d1, r1, dir, name) && Removed(e, d1, d2, r2, i)
    requires Relinked(e, d2, d3, r3, dir, k) && k == AbstractFs.Decrement(ViewOf(e, d2)[dir].nlink)
    ensures DirRemoved(e, d, d3, r3, dir, name) && Good(e, d3, r3)
  {
    RmdirIs(ViewOf(e, d), dir, name, i);
    AbstractFs.RmdirKeepsLinks(ViewOf(e, d), dir, name, i);
  }

  /** The second half of `rmdir`. */
  method DropDir(fs: LolelfFs, i: nat, parent: nat, ghost d: Disk, ghost r: Roles, ghost name: D.Name)
    requires Good(fs.env, d, r) && AbstractFs.IsName(ViewOf(fs.env, d), parent, name, i) && i != parent
    requires AbstractFs.DirIn(ViewOf(fs.env, d), i) && ViewOf(fs.env, d)[i].entries == map[]
    requires Dropped(fs.env, d, fs.Snap(), fs.roles, parent, name)
    modifies fs
    ensures DirRemoved(fs.env, d, fs.Snap(), fs.roles, parent, name) && Good(fs.env, fs.Snap(), fs.roles)
  {
    ghost var d1, r1 := fs.Snap(), fs.roles;
    LinksSeen(fs.env, d1, i);
    Destroy(fs, i, true);
    ghost var d2, r2 := fs.Snap(), fs.roles;
    LinksSeen(fs.env, d2, parent);
    SetLinks(fs, parent, SaturatingSub(fs.inodes[parent].nlink, 1));
    DirDropped(fs.env, d, r, d1, r1, d2, r2, fs.Snap(), fs.roles, parent, name, i, SaturatingSub(d2.inodes[parent].nlink, 1));
  }

  /** Listing a directory tells whether it is empty. */
  method IsEmptyDir(fs: LolelfFs, dir: nat) returns (empty: bool)
    requires Good(fs.env, fs.Snap(), fs.roles) && Live(fs.Snap(), dir) && IsDir(fs.inodes[dir])
    ensures AbstractFs.DirIn(ViewOf(fs.env, fs.Snap()), dir)
    ensures empty <==> ViewOf(fs.env, fs.Snap())[dir].entries == map[]
  {
    DirFacts(fs.env, fs.Snap(), fs.roles, dir);
    var list := ListDir(fs, dir);
    D.ListedIsMap(DirSlots(fs.Snap(), dir));
    return list.value == [];
  }

  /** `rmdir`: an empty directory and its name go, and its parent loses a link; otherwise nothing changes. */
  method Rmdir(fs: LolelfFs, parent: nat, name: D.Name) returns (r: Result<()>)
    requires Good(fs.env, fs.Snap(), fs.roles)
    requires parent < fs.env.geo.nrInodes ==> Live(fs.Snap(), parent)
    modifies fs
    ensures Good(fs.env, fs.Snap(), fs.roles)
    ensures parent < fs.env.geo.nrInodes ==> parent in old(ViewOf(fs.env, fs.Snap()))
    ensures r.Ok? ==> DirRemoved(fs.env, old(fs.Snap()), fs.Snap(), fs.roles, parent, name)
    ensures r.Err? ==> fs.Snap() == old(fs.Snap()) && fs.roles == old(fs.roles)
    ensures var v := old(ViewOf(fs.env, fs.Snap())); var why := MissingName(v, fs.env.geo.nrInodes, parent, name);
      if why.Some? then r == Err(why.value)
      else
        var i := v[parent].entries[name];
        r == if !AbstractFs.DirIn(v, i) then Err(NotDirectory) else if v[i].entries != map[] then Err(NotEmpty) else Ok(())
  {
    ghost var d, rr := fs.Snap(), fs.roles;
    var i := Resolve(fs, parent, name);
    if i.Err? {
      return Err(i.error);
    }
    if !IsDir(fs.inodes[i.value]) {
      return Err(NotDirectory);
    }
    var empty := IsEmptyDir(fs, i.value);
    if !empty {
      return Err(NotEmpty);
    }
    var removed := RemoveDirEntry(fs, parent, name);
    assert removed.Ok?;
    AbstractFs.RmdirKeepsLinks(ViewOf(fs.env, d), parent, name, i.value);
    DropDir(fs, i.value, parent, d, rr, name);
    return Ok(());
  }
}
