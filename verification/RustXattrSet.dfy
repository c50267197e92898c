/** `set_xattr` and `remove_xattr` (lolelffs-tools/src/fs.rs). */
module RustXattrSet {
  import opened Layout
  import opened DiskState
  import opened RustFs
  import opened RustPlan
  import opened RustPart
  import opened RustNode
  import opened RustLife
  import opened RustXattrStore
  import opened RustXattrWrite
  import opened XattrCodec
  import opened RustXattr
  import AbstractFs

  /** Attribute `k` of inode `i` is now `value`; nothing else in the view changed. */
  ghost predicate XattrSet(e: Env, d: Disk, d': Disk, r': Roles, i: nat, k: Key, value: Bytes) {
    && Inv(e, d', r')
    && i in ViewOf(e, d)
    && ViewOf(e, d') == AbstractFs.SetXattrs(ViewOf(e, d), i, ViewOf(e, d)[i].xattrs[k := value])
  }

  lemma SetDone(e: Env, d: Disk, r: Roles, d': Disk, r': Roles, i: nat, k: Key, value: Bytes)
    requires Inv(e, d, r) && Live(d, i) && Rewritten(e, d, d', r', i, SetEntry(Stored(e, d, i), k, value))
    requires Fits(Entry(k, value)) && e.utf8(k.name) && |Serialize(SetEntry(Stored(e, d, i), k, value))| <= MAX_SIZE
    ensures XattrSet(e, d, d', r', i, k, value)
  {
    var es := Stored(e, d, i);
    XattrsSeen(e, d, r, i);
    SetKeepsDistinct(es, k, value);
    SetKeepsFit(es, k, value, e.utf8);
    SetIsUpdate(es, k, value);
  }

  /** The name is a string and the new list is within the 32-bit size fields. */
  predicate Storable(e: Env, d: Disk, ino: nat, name: Bytes, value: Bytes) {
    ino < |d.inodes| && ParseName(name).Ok? ==>
      && e.utf8(ParseName(name).value.name)
      && |Serialize(SetEntry(Stored(e, d, ino), ParseName(name).value, value))| <= MAX_SIZE
  }

  /** What a successful `set_xattr` has done. */
  ghost predicate SetOutcome(e: Env, d: Disk, d': Disk, r': Roles, i: nat, k: Key, value: Bytes) {
    && i < |d.inodes| && i < |d'.inodes|
    && StoreBytes(d', i) == Serialize(SetEntry(Stored(e, d, i), k, value))
    && (Fits(Entry(k, value)) ==> XattrSet(e, d, d', r', i, k, value))
  }

  /** Why the list `es` cannot be stored for inode `i`. */
  ghost function StoreError(e: Env, d: Disk, i: nat, es: seq<Entry>): Option<Error>
    requires Shape(e, d) && i < |d.inodes|
  {
    PartError(e, d, i, true, NumBlocks(|Serialize(es)|))
  }

  /** Why `set_xattr` fails, decided by the disk before it. */
  ghost function SetError(e: Env, d: Disk, ino: nat, name: Bytes, value: Bytes): Option<Error>
    requires Shape(e, d)
  {
    if ino >= e.geo.nrInodes then Some(BadInode)
    else if ParseName(name).Err? then Some(ParseName(name).error)
    else StoreError(e, d, ino, SetEntry(Stored(e, d, ino), ParseName(name).value, value))
  }

  /** Why `remove_xattr` fails, decided by the disk before it. */
  ghost function RemoveError(e: Env, d: Disk, ino: nat, name: Bytes): Option<Error>
    requires Shape(e, d)
  {
    if GetAnswer(ViewOf(e, d), ino, name).Err? then Some(GetAnswer(ViewOf(e, d), ino, name).error)
    else if ino >= e.geo.nrInodes || ParseName(name).Err? then Some(BadInode)
    else
      var kept := RemoveKey(Stored(e, d, ino), ParseName(name).value);
      if kept == [] then None else StoreError(e, d, ino, kept)
  }

  /** `set_xattr` fails after it has begun: there is no room for the new list. */
  ghost predicate SetStops(e: Env, d: Disk, ino: nat, name: Bytes, value: Bytes)
    requires Shape(e, d)
  {
    SetError(e, d, ino, name, value).Some? && DirtyXattr(SetError(e, d, ino, name, value).value)
  }

  ghost predicate RemoveStops(e: Env, d: Disk, ino: nat, name: Bytes)
    requires Shape(e, d)
  {
    RemoveError(e, d, ino, name).Some? && DirtyXattr(RemoveError(e, d, ino, name).value)
  }

  /** What an attribute change that stops leaves. */
  ghost predicate StoreStopped(e: Env, d: Disk, d': Disk, i: nat, es: seq<Entry>)
    requires Shape(e, d) && i < |d.inodes|
  {
    PartStopped(e, d, d', i, true, NumBlocks(|Serialize(es)|))
  }

  /** Errors of `set_xattr` and `remove_xattr` after the old blocks are given back. */
  predicate DirtyXattr(error: Error) {
    error == NoSpace || error == ZeroBlocks
  }

  /** Read the current list, change it, and give back its blocks. */
  method PrepareSet(fs: LolelfFs, ino: nat, k: Key, value: Bytes) returns (es: seq<Entry>)
    requires Inv(fs.env, fs.Snap(), fs.roles) && Live(fs.Snap(), ino)
    modifies fs`freeBlocks, fs`bfree, fs`roles
    ensures es == old(SetEntry(Stored(fs.env, fs.Snap(), ino), k, value))
    ensures GivenBack(fs.env, old(fs.Snap()), old(fs.roles), fs.Snap(), fs.roles, ino, true)
  {
    es := [];
    if fs.inodes[ino].xattr != 0 {
      var read := ReadXattrs(fs, ino);
      es := read.value;
    }
    var i := FindEntry(es, k);
    if i < |es| {
      es := es[i := Entry(k, value)];
    } else {
      es := es + [Entry(k, value)];
    }
    var _ := FreePart(fs, ino, true);
  }

  /** `set_xattr` once the name is parsed. */
  method SetKey(fs: LolelfFs, ino: nat, k: Key, value: Bytes) returns (r: Result<()>)
    requires Inv(fs.env, fs.Snap(), fs.roles) && Live(fs.Snap(), ino)
    requires fs.env.cfg.maxLarge == 0 || fs.env.cfg.maxLarge >= MAX_EXTENT_BLOCKS_LARGE
    requires fs.env.utf8(k.name) && |Serialize(SetEntry(Stored(fs.env, fs.Snap(), ino), k, value))| <= MAX_SIZE
    modifies fs`freeBlocks, fs`bfree, fs`roles, fs`blocks, fs`inodes
    ensures r.Ok? ==> SetOutcome(fs.env, old(fs.Snap()), fs.Snap(), fs.roles, ino, k, value)
    ensures ErrorOf(r) == old(StoreError(fs.env, fs.Snap(), ino, SetEntry(Stored(fs.env, fs.Snap(), ino), k, value)))
    ensures r.Err? && !DirtyXattr(r.error) ==> fs.Snap() == old(fs.Snap()) && fs.roles == old(fs.roles)
    ensures r.Err? && DirtyXattr(r.error) ==>
      StoreStopped(fs.env, old(fs.Snap()), fs.Snap(), ino, old(SetEntry(Stored(fs.env, fs.Snap(), ino), k, value)))
  {
    ghost var d, rr := fs.Snap(), fs.roles;
    var es := PrepareSet(fs, ino, k, value);
    r := RewriteStore(fs, ino, es, d, rr);
    if r.Ok? && Fits(Entry(k, value)) {
      SetDone(fs.env, d, rr, fs.Snap(), fs.roles, ino, k, value);
    }
  }

  /**
   * `set_xattr`: on success the store holds the serialized new list. When the new entry fits its
   * record, that is exactly an update of the attribute map; refusals before the first change leave
   * everything as it was.
   */
  method SetXattr(fs: LolelfFs, ino: nat, name: Bytes, value: Bytes) returns (r: Result<()>)
    requires Inv(fs.env, fs.Snap(), fs.roles)
    requires ino < fs.env.geo.nrInodes ==> Live(fs.Snap(), ino)
    requires fs.env.cfg.maxLarge == 0 || fs.env.cfg.maxLarge >= MAX_EXTENT_BLOCKS_LARGE
    requires Storable(fs.env, fs.Snap(), ino, name, value)
    modifies fs`freeBlocks, fs`bfree, fs`roles, fs`blocks, fs`inodes
    ensures r.Ok? ==> ParseName(name).Ok? && SetOutcome(fs.env, old(fs.Snap()), fs.Snap(), fs.roles, ino, ParseName(name).value, value)
    ensures ErrorOf(r) == old(SetError(fs.env, fs.Snap(), ino, name, value))
    ensures r.Err? && !DirtyXattr(r.error) ==> fs.Snap() == old(fs.Snap()) && fs.roles == old(fs.roles)
    ensures r.Err? && DirtyXattr(r.error) ==>
      && ParseName(name).Ok? && ino < |old(fs.inodes)|
      && StoreStopped(fs.env, old(fs.Snap()), fs.Snap(), ino, old(SetEntry(Stored(fs.env, fs.Snap(), ino), ParseName(name).value, value)))
  {
    if ino >= fs.env.geo.nrInodes {
      return Err(BadInode);
    }
    var k := ParseName(name);
    if k.Err? {
      return Err(k.error);
    }
    r := SetKey(fs, ino, k.value, value);
  }

  // ---- removing ----

  /** Attribute `k` of inode `i` is gone; nothing else in the view changed. */
  ghost predicate XattrGone(e: Env, d: Disk, d': Disk, r': Roles, i: nat, k: Key) {
    && Inv(e, d', r')
    && i in ViewOf(e, d) && k in ViewOf(e, d)[i].xattrs
    && ViewOf(e, d') == AbstractFs.SetXattrs(ViewOf(e, d), i, ViewOf(e, d)[i].xattrs - {k})
  }

  lemma RemoveDone(e: Env, d: Disk, r: Roles, d': Disk, r': Roles, i: nat, k: Key)
    requires Inv(e, d, r) && Live(d, i) && Has(Stored(e, d, i), k)
    requires Rewritten(e, d, d', r', i, RemoveKey(Stored(e, d, i), k))
    ensures XattrGone(e, d, d', r', i, k)
  {
    var es := Stored(e, d, i);
    XattrsSeen(e, d, r, i);
    RemoveKeepsDistinct(es, k);
    RemoveKeepsFit(es, k, e.utf8);
    RemoveShrinks(es, k);
    RemoveIsRemoval(es, k);
  }

  /** An inode whose whole attribute part was given back. */
  lemma XattrsDropped(e: Env, d: Disk, r: Roles, d': Disk, i: nat)
    requires Inv(e, d, r) && Live(d, i)
    requires d' == d.(bfree := d'.bfree, freeBlocks := d'.freeBlocks, inodes := d.inodes[i := d.inodes[i].(xattr := 0)])
    requires Shape(e, d') && BitsOk(e, d', Emptied(r, i, true))
    ensures Inv(e, d', Emptied(r, i, true)) && i in ViewOf(e, d)
    ensures ViewOf(e, d') == AbstractFs.SetXattrs(ViewOf(e, d), i, map[])
  {
    var r' := Emptied(r, i, true);
    forall b | 0 <= b < |r| ensures TouchedFor(d, r, d', r', i, true, b) {}
    assert Touches(d, r, d', r', i, true);
    TouchesAgree(d, r, d', r', i, true, i, false);
    DataPartKept(e, d, r, d', r', i, 0);
    assert PartOk(d', r', i, true);
    AsMapEmpty([]);
    assert XattrView(e, d', i) == map[];
    OneNodeChanged(e, d, r, d', r', i, true);
    ViewAt(e, d, i);
  }

  /** The last attribute goes: every block of the attribute part is given back. */
  method DropXattrs(fs: LolelfFs, ino: nat)
    requires Inv(fs.env, fs.Snap(), fs.roles) && Live(fs.Snap(), ino)
    modifies fs`freeBlocks, fs`bfree, fs`roles, fs`inodes
    ensures fs.roles == Emptied(old(fs.roles), ino, true)
    ensures Inv(fs.env, fs.Snap(), fs.roles) && ino in old(ViewOf(fs.env, fs.Snap()))
    ensures ViewOf(fs.env, fs.Snap()) == AbstractFs.SetXattrs(old(ViewOf(fs.env, fs.Snap())), ino, map[])
  {
    ghost var d, r := fs.Snap(), fs.roles;
    NodeSound(fs.env, d, r, ino);
    DropPart(fs, ino, true, false);
    fs.inodes := fs.inodes[ino := fs.inodes[ino].(xattr := 0)];
    ghost var d' := fs.Snap();
    XattrsDropped(fs.env, d, r, d', ino);
  }

  /** `remove_xattr` once the key is known to be there. */
  method RemoveFound(fs: LolelfFs, ino: nat, k: Key, es: seq<Entry>) returns (r: Result<()>)
    requires Inv(fs.env, fs.Snap(), fs.roles) && Live(fs.Snap(), ino) && fs.inodes[ino].xattr != 0
    requires fs.env.cfg.maxLarge == 0 || fs.env.cfg.maxLarge >= MAX_EXTENT_BLOCKS_LARGE
    requires es == RemoveKey(Stored(fs.env, fs.Snap(), ino), k) && Has(Stored(fs.env, fs.Snap(), ino), k)
    modifies fs`freeBlocks, fs`bfree, fs`roles, fs`blocks, fs`inodes
    ensures r.Ok? ==> XattrGone(fs.env, old(fs.Snap()), fs.Snap(), fs.roles, ino, k)
    ensures ErrorOf(r) == if es == [] then None else old(StoreError(fs.env, fs.Snap(), ino, es))
    ensures r.Err? ==> DirtyXattr(r.error) && StoreStopped(fs.env, old(fs.Snap()), fs.Snap(), ino, es)
    ensures es == [] ==> fs.roles == Emptied(old(fs.roles), ino, true)
  {
    ghost var d, rr := fs.Snap(), fs.roles;
    XattrsSeen(fs.env, d, rr, ino);
    RemoveIsRemoval(Stored(fs.env, d, ino), k);
    RemoveShrinks(Stored(fs.env, d, ino), k);
    if es == [] {
      AsMapEmpty(es);
      DropXattrs(fs, ino);
      return Ok(());
    }
    var _ := FreePart(fs, ino, true);
    r := RewriteStore(fs, ino, es, d, rr);
    if r.Ok? {
      RemoveDone(fs.env, d, rr, fs.Snap(), fs.roles, ino, k);
    }
  }

  /** The tests of `remove_xattr`: the key and the list without it. */
  method FindXattr(fs: LolelfFs, ino: nat, name: Bytes) returns (r: Result<(Key, seq<Entry>)>)
    requires Inv(fs.env, fs.Snap(), fs.roles)
    requires ino < fs.env.geo.nrInodes ==> Live(fs.Snap(), ino)
    ensures var answer := GetAnswer(ViewOf(fs.env, fs.Snap()), ino, name);
      if answer.Err? then r == Err(answer.error) else r.Ok? && ParseName(name) == Ok(r.value.0)
    ensures r.Ok? ==> var (k, kept) := r.value;
      && ino < fs.env.geo.nrInodes && fs.inodes[ino].xattr != 0
      && Has(Stored(fs.env, fs.Snap(), ino), k) && kept == RemoveKey(Stored(fs.env, fs.Snap(), ino), k)
      && (ViewOf(fs.env, fs.Snap())[ino].xattrs.Keys == {k} ==> kept == [])
  {
    XattrsSeen(fs.env, fs.Snap(), fs.roles, ino);
    if ino >= fs.env.geo.nrInodes {
      return Err(BadInode);
    }
    if fs.inodes[ino].xattr == 0 {
      return Err(NoXattr);
    }
    var k := ParseName(name);
    if k.Err? {
      return Err(k.error);
    }
    var es := ReadXattrs(fs, ino);
    var kept := RemoveKey(es.value, k.value);
    RemoveKeepsDistinct(es.value, k.value);
    if |kept| == |es.value| {
      return Err(NoXattr);
    }
    LastKey(es.value, k.value);
    return Ok((k.value, kept));
  }

  lemma LastKey(es: seq<Entry>, k: Key)
    requires DistinctKeys(es)
    ensures AsMap(es).Keys == {k} ==> RemoveKey(es, k) == []
  {
    RemoveIsRemoval(es, k);
    if AsMap(es).Keys == {k} {
      assert AsMap(es) - {k} == map[];
    }
    AsMapEmpty(RemoveKey(es, k));
  }

  /**
   * `remove_xattr`: exactly this key goes. With the last key every block of the store is given
   * back; refusals before the first change leave everything as it was.
   */
  method RemoveXattr(fs: LolelfFs, ino: nat, name: Bytes) returns (r: Result<()>)
    requires Inv(fs.env, fs.Snap(), fs.roles)
    requires ino < fs.env.geo.nrInodes ==> Live(fs.Snap(), ino)
    requires fs.env.cfg.maxLarge == 0 || fs.env.cfg.maxLarge >= MAX_EXTENT_BLOCKS_LARGE
    modifies fs`freeBlocks, fs`bfree, fs`roles, fs`blocks, fs`inodes
    ensures r.Ok? ==> ParseName(name).Ok? && XattrGone(fs.env, old(fs.Snap()), fs.Snap(), fs.roles, ino, ParseName(name).value)
    ensures r.Ok? && old(ViewOf(fs.env, fs.Snap()))[ino].xattrs.Keys == {ParseName(name).value} ==>
      fs.roles == Emptied(old(fs.roles), ino, true)
    ensures ErrorOf(r) == old(RemoveError(fs.env, fs.Snap(), ino, name))
    ensures r.Err? && !DirtyXattr(r.error) ==> fs.Snap() == old(fs.Snap()) && fs.roles == old(fs.roles)
    ensures r.Err? && DirtyXattr(r.error) ==>
      && ParseName(name).Ok? && ino < |old(fs.inodes)|
      && StoreStopped(fs.env, old(fs.Snap()), fs.Snap(), ino, old(RemoveKey(Stored(fs.env, fs.Snap(), ino), ParseName(name).value)))
  {
    var f := FindXattr(fs, ino, name);
    if f.Err? {
      return Err(f.error);
    }
    r := RemoveFound(fs, ino, f.value.0, f.value.1);
  }
}
