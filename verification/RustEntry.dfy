/** `add_dir_entry` and `remove_dir_entry` (lolelffs-tools/src/dir.rs). */
module RustEntry {
  import opened Layout
  import opened Bits
  import opened Extents
  import opened DiskState
  import opened RustFs
  import opened RustPlan
  import opened RustScan
  import opened RustDir
  import opened RustDirGrow
  import D = Directory
  import AbstractFs

  /** Why `add_dir_entry` refuses, in the order of its tests; None when it goes on to find a slot. */
  function AddRefusal(fs: Disk, nrInodes: nat, dir: nat, name: D.Name): Option<Error>
    requires nrInodes <= |fs.inodes|
  {
    if |name| > MAX_FILENAME - 1 then Some(NameTooLong)
    else if dir >= nrInodes then Some(BadInode)
    else if !IsDir(fs.inodes[dir]) then Some(NotDirectory)
    else if name in D.Entries(DirSlots(fs, dir)) then Some(Exists)
    else None
  }

  /** Why there is no room for one more entry: no free slot, and no extent or no block for a new one. */
  function RoomError(nrExtents: nat, slots: seq<Slot>, free: nat): Option<Error> {
    if exists p :: 0 <= p < |slots| && WantEmpty()(slots[p]) then None
    else if nrExtents == MAX_EXTENTS then Some(DirectoryFull)
    else if free == 0 then Some(NoSpace)
    else None
  }

  /** The error of `add_dir_entry` with `free` blocks left; None when it succeeds. */
  function AddError(d: Disk, nrInodes: nat, dir: nat, name: D.Name, free: nat): Option<Error>
    requires nrInodes <= |d.inodes|
  {
    var why := AddRefusal(d, nrInodes, dir, name);
    if why.Some? then why else RoomError(|Table(d, dir, false)|, DirSlots(d, dir), free)
  }

  lemma FillFacts(slots: seq<Slot>, p: nat, name: D.Name, ino: nat)
    requires D.WellFormed(slots) && FirstHit(slots, WantEmpty(), p) && D.ValidName(name) && name !in D.Entries(slots)
    ensures D.WellFormed(slots[p := Slot(ino, name)])
    ensures D.CountVisible(slots[p := Slot(ino, name)]) == D.CountVisible(slots) + 1
    ensures D.Entries(slots[p := Slot(ino, name)]) == D.Entries(slots)[name := ino]
  {
    assert WantEmpty()(slots[p]);
    D.FillIsAdd(slots, p, name, ino);
    D.CountUpdate(slots, p, Slot(ino, name));
  }

  /** From `d` to `d'` directory `i` gained the name `name` for `ino`; nothing else in the view changed. */
  ghost predicate Added(e: Env, d: Disk, d': Disk, r': Roles, i: nat, name: D.Name, ino: nat) {
    && Inv(e, d', r')
    && i in ViewOf(e, d) && ViewOf(e, d)[i].Dir?
    && ViewOf(e, d') == AbstractFs.AddName(ViewOf(e, d), i, name, ino)
  }

  /** Index, size and view of a directory all follow its slots. */
  lemma DirCounts(e: Env, d: Disk, r: Roles, i: nat)
    requires Inv(e, d, r) && Live(d, i) && IsDir(d.inodes[i])
    ensures var h := d.inodes[i].ei;
      && h < |d.blocks| && d.blocks[h].Index? && D.WellFormed(DirSlots(d, i))
      && d.blocks[h].ei.nrFiles == D.CountVisible(DirSlots(d, i))
      && d.inodes[i].size == FILE_ENTRY_SIZE * d.blocks[h].ei.nrFiles
      && i in ViewOf(e, d) && ViewOf(e, d)[i].Dir? && ViewOf(e, d)[i].entries == D.Entries(DirSlots(d, i))
  {
    DirFacts(e, d, r, i);
    DirShape(e, d, r, i);
  }

  /** Writing the entry into a free slot of a sound directory. */
  lemma FillKeeps(e: Env, d: Disk, r: Roles, i: nat, p: Place, name: D.Name, ino: nat)
    requires Inv(e, d, r) && Live(d, i) && IsDir(d.inodes[i]) && IsPlace(d, i, p)
    requires FirstHit(DirSlots(d, i), WantEmpty(), p.pos) && D.ValidName(name) && name !in D.Entries(DirSlots(d, i))
    ensures d.inodes[i].ei < |d.blocks| && d.blocks[d.inodes[i].ei].Index?
    ensures d.blocks[p.block].DirBlock? && p.slot < |d.blocks[p.block].slots|
    ensures d.inodes[i].size == FILE_ENTRY_SIZE * d.blocks[d.inodes[i].ei].ei.nrFiles
    ensures Added(e, d, SlotSet(d, i, p, Slot(ino, name), d.blocks[d.inodes[i].ei].ei.nrFiles + 1), r, i, name, ino)
  {
    DirCounts(e, d, r, i);
    FillFacts(DirSlots(d, i), p.pos, name, ino);
    SlotSetKeeps(e, d, r, i, p, Slot(ino, name), d.blocks[d.inodes[i].ei].ei.nrFiles + 1);
  }

  /** The tail of `add_dir_entry`: entry, index and inode are written. */
  method WriteEntry(fs: LolelfFs, dir: nat, p: Place, name: D.Name, ino: nat)
    requires Inv(fs.env, fs.Snap(), fs.roles) && Live(fs.Snap(), dir) && IsDir(fs.inodes[dir]) && IsPlace(fs.Snap(), dir, p)
    requires FirstHit(DirSlots(fs.Snap(), dir), WantEmpty(), p.pos) && D.ValidName(name)
    requires name !in D.Entries(DirSlots(fs.Snap(), dir))
    modifies fs`blocks, fs`inodes
    ensures Added(fs.env, old(fs.Snap()), fs.Snap(), fs.roles, dir, name, ino)
  {
    ghost var d, r := fs.Snap(), fs.roles;
    FillKeeps(fs.env, d, r, dir, p, name, ino);
    var n := fs.inodes[dir];
    var ei := fs.blocks[n.ei].ei;
    ghost var d' := SlotSet(d, dir, p, Slot(ino, name), ei.nrFiles + 1);
    assert Added(fs.env, d, d', r, dir, name, ino);
    fs.blocks := fs.blocks[p.block := DirBlock(fs.blocks[p.block].slots[p.slot := Slot(ino, name)])]
                          [n.ei := Index(ExtentIndex(ei.nrFiles + 1, ei.extents))];
    fs.inodes := fs.inodes[dir := n.(size := n.size + FILE_ENTRY_SIZE)];
    assert fs.roles == r;
    assert fs.Snap() == d';
  }

  lemma NewBlockHit(slots: seq<Slot>, k: nat)
    requires |slots| == 15 * k && NoneBefore(slots, WantEmpty(), |slots|)
    ensures FirstHit(slots + seq(15, _ => EMPTY_SLOT), WantEmpty(), 15 * k)
    ensures (15 * k) / 15 == k && (15 * k) % 15 == 0
  {
    var t := slots + seq(15, _ => EMPTY_SLOT);
    forall p | 0 <= p < 15 * k ensures !WantEmpty()(t[p]) {
      assert t[p] == slots[p];
    }
    assert t[15 * k] == EMPTY_SLOT;
  }

  /** A place for a new entry: the first free slot, in a state with an unchanged view. */
  ghost predicate Roomy(e: Env, d: Disk, d': Disk, r': Roles, i: nat, p: Place) {
    && i < |d.inodes|
    && Inv(e, d', r') && Live(d', i) && IsDir(d'.inodes[i]) && IsPlace(d', i, p)
    && ViewOf(e, d') == ViewOf(e, d)
    && FirstHit(DirSlots(d', i), WantEmpty(), p.pos)
    && D.Entries(DirSlots(d', i)) == D.Entries(DirSlots(d, i))
  }

  lemma AppendIsRoomy(e: Env, d: Disk, r: Roles, i: nat, b: nat, d1: Disk, ei: ExtentIndex)
    requires Inv(e, d, r) && Live(d, i) && IsDir(d.inodes[i]) && b < e.geo.nrBlocks && d.bfree[b]
    requires Shape(e, d1) && BitsOk(e, d1, AppendRoles(d, r, i, b)) && d1 == d.(bfree := d1.bfree, freeBlocks := d1.freeBlocks)
    requires d.inodes[i].ei < |d.blocks| && d.blocks[d.inodes[i].ei].Index?
    requires var ei0 := d.blocks[d.inodes[i].ei].ei;
      UsedCount(ei0.extents) < |ei0.extents| == MAX_EXTENTS && ei == AppendedIndex(ei0, |MapOf(d, i, false)|, b)
    requires NoneBefore(DirSlots(d, i), WantEmpty(), |DirSlots(d, i)|)
    ensures Roomy(e, d, BlockAppended(d, d1, i, b, ei), AppendRoles(d, r, i, b), i, Place(b, 0, 15 * |MapOf(d, i, false)|))
  {
    DirFacts(e, d, r, i);
    AppendKeeps(e, d, r, i, b, d1, ei);
    NewBlockHit(DirSlots(d, i), |MapOf(d, i, false)|);
    D.AppendEmpty(DirSlots(d, i), 15);
  }

  /** Take one free block for logical block `next` of the directory. */
  method ClaimDirBlock(fs: LolelfFs, dir: nat, next: nat) returns (r: Result<nat>)
    requires fs.Sound() && dir < |fs.inodes| && next == |MapOf(fs.Snap(), dir, false)|
    modifies fs`freeBlocks, fs`bfree, fs`roles
    ensures r.Err? <==> old(fs.freeBlocks) == 0
    ensures r.Err? ==> r.error == NoSpace && fs.Snap() == old(fs.Snap()) && fs.roles == old(fs.roles)
    ensures r.Ok? ==>
      && r.value < fs.env.geo.nrBlocks && old(fs.bfree)[r.value]
      && fs.Sound() && fs.roles == AppendRoles(old(fs.Snap()), old(fs.roles), dir, r.value)
      && fs.Snap() == old(fs.Snap()).(bfree := fs.bfree, freeBlocks := fs.freeBlocks)
  {
    OneBlockFits(fs.env, fs.Snap(), fs.roles);
    assert fs.BfreeBits() == fs.Snap().bfree[..fs.env.geo.nrBlocks];
    r := fs.AllocBlocks(1, Maker(dir, false, next));
    if r.Ok? {
      assert old(fs.bfree)[..fs.env.geo.nrBlocks][r.value];
    }
  }

  /** A full directory gains a zeroed block; the view stays, and its first slot is the free one. */
  method AppendDirBlock(fs: LolelfFs, dir: nat) returns (r: Result<Place>)
    requires Inv(fs.env, fs.Snap(), fs.roles) && Live(fs.Snap(), dir) && IsDir(fs.inodes[dir])
    requires NoneBefore(DirSlots(fs.Snap(), dir), WantEmpty(), |DirSlots(fs.Snap(), dir)|)
    modifies fs`freeBlocks, fs`bfree, fs`roles, fs`blocks, fs`inodes
    ensures r.Err? ==> fs.Snap() == old(fs.Snap()) && fs.roles == old(fs.roles)
    ensures var n := |Table(old(fs.Snap()), dir, false)|;
      if n == MAX_EXTENTS then r == Err(DirectoryFull) else if old(fs.freeBlocks) == 0 then r == Err(NoSpace) else r.Ok?
    ensures r.Ok? ==> Roomy(fs.env, old(fs.Snap()), fs.Snap(), fs.roles, dir, r.value)
  {
    ghost var d, rr := fs.Snap(), fs.roles;
    DirShape(fs.env, d, rr, dir);
    var ei := fs.blocks[fs.inodes[dir].ei].ei;
    var u := UsedCount(ei.extents);
    if u == |ei.extents| {
      return Err(DirectoryFull);
    }
    var next := if u == 0 then 0 else ei.extents[u - 1].block + ei.extents[u - 1].len;
    NextLogical(ei.extents);
    var b := ClaimDirBlock(fs, dir, next);
    if b.Err? {
      return Err(b.error);
    }
    var ei' := AppendedIndex(ei, next, b.value);
    AppendIsRoomy(fs.env, d, rr, dir, b.value, fs.Snap(), ei');
    LinkDirBlock(fs, dir, b.value, ei', d, Place(b.value, 0, 15 * next));
    return Ok(Place(b.value, 0, 15 * next));
  }

  /** Zero the new block and point index and inode at it. */
  method LinkDirBlock(fs: LolelfFs, dir: nat, b: nat, ei: ExtentIndex, ghost d: Disk, ghost p: Place)
    requires dir < |fs.inodes| && fs.inodes[dir].ei < |fs.blocks| && b < |fs.blocks|
    requires Roomy(fs.env, d, BlockAppended(d, fs.Snap(), dir, b, ei), fs.roles, dir, p)
    modifies fs`blocks, fs`inodes
    ensures Roomy(fs.env, d, fs.Snap(), fs.roles, dir, p)
  {
    ghost var d' := BlockAppended(d, fs.Snap(), dir, b, ei);
    var n := fs.inodes[dir];
    fs.blocks := fs.blocks[b := EmptyDirBlock()][n.ei := Index(ei)];
    fs.inodes := fs.inodes[dir := n.(blocks := n.blocks + 1)];
    assert fs.Snap() == d';
  }

  /** The loop that finds the logical block after the last used extent. */
  lemma NextLogical(exts: seq<Extent>)
    requires ValidIndex(exts)
    ensures var u := UsedCount(exts); |Phys(Used(exts))| == if u == 0 then 0 else exts[u - 1].block + exts[u - 1].len
  {
    TilesChained(Used(exts));
  }

  /** Find or make room for a new entry; the view does not change. */
  method FindRoom(fs: LolelfFs, dir: nat) returns (r: Result<Place>)
    requires Inv(fs.env, fs.Snap(), fs.roles) && Live(fs.Snap(), dir) && IsDir(fs.inodes[dir])
    modifies fs`freeBlocks, fs`bfree, fs`roles, fs`blocks, fs`inodes
    ensures r.Err? ==> fs.Snap() == old(fs.Snap()) && fs.roles == old(fs.roles)
    ensures r.Ok? ==> Roomy(fs.env, old(fs.Snap()), fs.Snap(), fs.roles, dir, r.value)
    ensures var why := RoomError(|Table(old(fs.Snap()), dir, false)|, DirSlots(old(fs.Snap()), dir), old(fs.freeBlocks));
      if why.Some? then r == Err(why.value) else r.Ok?
  {
    DirFacts(fs.env, fs.Snap(), fs.roles, dir);
    var p := Scan(fs, fs.blocks[fs.inodes[dir].ei].ei.extents, WantEmpty());
    if p.Some? {
      return Ok(p.value);
    }
    r := AppendDirBlock(fs, dir);
  }

  /**
   * `add_dir_entry`: on success exactly this name is added; on every failure nothing has changed.
   */
  method AddDirEntry(fs: LolelfFs, dir: nat, name: D.Name, ino: nat) returns (r: Result<()>)
    requires Inv(fs.env, fs.Snap(), fs.roles) && D.ValidName(name)
    requires dir < fs.env.geo.nrInodes ==> Live(fs.Snap(), dir)
    modifies fs`freeBlocks, fs`bfree, fs`roles, fs`blocks, fs`inodes
    ensures r.Ok? ==> Added(fs.env, old(fs.Snap()), fs.Snap(), fs.roles, dir, name, ino)
    ensures r.Err? ==> fs.Snap() == old(fs.Snap()) && fs.roles == old(fs.roles)
    ensures var why := AddError(old(fs.Snap()), fs.env.geo.nrInodes, dir, name, old(fs.freeBlocks));
      if why.Some? then r == Err(why.value) else r.Ok?
  {
    if |name| > MAX_FILENAME - 1 {
      return Err(NameTooLong);
    }
    var found := Lookup(fs, dir, name);
    if found.Err? {
      return Err(found.error);
    }
    if found.value.Some? {
      return Err(Exists);
    }
    ghost var d := fs.Snap();
    var p := FindRoom(fs, dir);
    if p.Err? {
      return Err(p.error);
    }
    WriteEntry(fs, dir, p.value, name, ino);
    assert Added(fs.env, d, fs.Snap(), fs.roles, dir, name, ino);
    return Ok(());
  }

  // ---- removing ----

  ghost predicate Dropped(e: Env, d: Disk, d': Disk, r': Roles, i: nat, name: D.Name) {
    && Inv(e, d', r')
    && i in ViewOf(e, d) && ViewOf(e, d)[i].Dir?
    && ViewOf(e, d') == AbstractFs.DropName(ViewOf(e, d), i, name)
  }

  lemma ClearFacts(slots: seq<Slot>, p: nat, name: D.Name)
    requires D.WellFormed(slots) && FirstHit(slots, WantName(name), p)
    ensures D.WellFormed(slots[p := EMPTY_SLOT])
    ensures D.CountVisible(slots) > 0 && D.CountVisible(slots[p := EMPTY_SLOT]) == D.CountVisible(slots) - 1
    ensures D.Entries(slots[p := EMPTY_SLOT]) == D.Entries(slots) - {name}
  {
    assert WantName(name)(slots[p]);
    D.ClearIsRemove(slots, p);
    D.CountUpdate(slots, p, EMPTY_SLOT);
  }

  lemma ClearKeeps(e: Env, d: Disk, r: Roles, i: nat, p: Place, name: D.Name)
    requires Inv(e, d, r) && Live(d, i) && IsDir(d.inodes[i]) && IsPlace(d, i, p)
    requires FirstHit(DirSlots(d, i), WantName(name), p.pos)
    ensures d.inodes[i].ei < |d.blocks| && d.blocks[d.inodes[i].ei].Index?
    ensures d.blocks[p.block].DirBlock? && p.slot < |d.blocks[p.block].slots|
    ensures d.inodes[i].size == FILE_ENTRY_SIZE * d.blocks[d.inodes[i].ei].ei.nrFiles && d.blocks[d.inodes[i].ei].ei.nrFiles > 0
    ensures Dropped(e, d, SlotSet(d, i, p, EMPTY_SLOT, d.blocks[d.inodes[i].ei].ei.nrFiles - 1), r, i, name)
  {
    DirCounts(e, d, r, i);
    ClearFacts(DirSlots(d, i), p.pos, name);
    SlotSetKeeps(e, d, r, i, p, EMPTY_SLOT, d.blocks[d.inodes[i].ei].ei.nrFiles - 1);
  }

  function SaturatingSub(a: nat, b: nat): nat { if a < b then 0 else a - b }

  method ClearEntry(fs: LolelfFs, dir: nat, p: Place, name: D.Name)
    requires Inv(fs.env, fs.Snap(), fs.roles) && Live(fs.Snap(), dir) && IsDir(fs.inodes[dir]) && IsPlace(fs.Snap(), dir, p)
    requires FirstHit(DirSlots(fs.Snap(), dir), WantName(name), p.pos)
    modifies fs`blocks, fs`inodes
    ensures Dropped(fs.env, old(fs.Snap()), fs.Snap(), fs.roles, dir, name)
  {
    ghost var d, r := fs.Snap(), fs.roles;
    ClearKeeps(fs.env, d, r, dir, p, name);
    var n := fs.inodes[dir];
    var ei := fs.blocks[n.ei].ei;
    ghost var d' := SlotSet(d, dir, p, EMPTY_SLOT, ei.nrFiles - 1);
    assert Dropped(fs.env, d, d', r, dir, name);
    fs.blocks := fs.blocks[p.block := DirBlock(fs.blocks[p.block].slots[p.slot := EMPTY_SLOT])]
                          [n.ei := Index(ExtentIndex(SaturatingSub(ei.nrFiles, 1), ei.extents))];
    fs.inodes := fs.inodes[dir := n.(size := SaturatingSub(n.size, FILE_ENTRY_SIZE))];
    assert fs.roles == r;
    assert fs.Snap() == d';
  }

  /** `remove_dir_entry`: exactly this name goes, and its inode number is returned. */
  method RemoveDirEntry(fs: LolelfFs, dir: nat, name: D.Name) returns (r: Result<nat>)
    requires Inv(fs.env, fs.Snap(), fs.roles)
    requires dir < fs.env.geo.nrInodes ==> Live(fs.Snap(), dir)
    modifies fs`blocks, fs`inodes
    ensures r.Ok? ==>
      && dir < fs.env.geo.nrInodes && IsDir(old(fs.inodes)[dir])
      && name in old(D.Entries(DirSlots(fs.Snap(), dir))) && r.value == old(D.Entries(DirSlots(fs.Snap(), dir)))[name]
      && Dropped(fs.env, old(fs.Snap()), fs.Snap(), fs.roles, dir, name)
    ensures r.Err? ==>
      && fs.Snap() == old(fs.Snap())
      && r.error == if dir >= fs.env.geo.nrInodes then BadInode else if !IsDir(fs.inodes[dir]) then NotDirectory else NotFound
    ensures r.Err? <==> dir >= fs.env.geo.nrInodes || !IsDir(old(fs.inodes)[dir]) || name !in old(D.Entries(DirSlots(fs.Snap(), dir)))
  {
    if dir >= fs.env.geo.nrInodes {
      return Err(BadInode);
    }
    if !IsDir(fs.inodes[dir]) {
      return Err(NotDirectory);
    }
    DirFacts(fs.env, fs.Snap(), fs.roles, dir);
    ghost var slots := DirSlots(fs.Snap(), dir);
    var p := Scan(fs, fs.blocks[fs.inodes[dir].ei].ei.extents, WantName(name));
    if p.None? {
      MissIsAbsent(slots, name);
      return Err(NotFound);
    }
    HitIsPos(slots, name, p.value.pos);
    SlotPlace(fs.Snap(), dir, p.value);
    var removed := fs.blocks[p.value.block].slots[p.value.slot].ino;
    ClearEntry(fs, dir, p.value, name);
    return Ok(removed);
  }
}
