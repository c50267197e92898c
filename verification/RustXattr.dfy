/** `get_xattr` and `list_xattrs` (lolelffs-tools/src/fs.rs). */
module RustXattr {
  import opened Layout
  import opened DiskState
  import opened RustFs
  import opened RustXattrStore
  import opened XattrCodec
  import AbstractFs

  lemma AsMapEmpty(es: seq<Entry>)
    ensures AsMap(es) == map[] <==> es == []
  {
    if es != [] {
      assert IndexOf(es, es[0].key) == 0;
      assert es[0].key in AsMap(es);
    }
  }

  /** An inode has an attribute block exactly when it has attributes. */
  lemma XattrsSeen(e: Env, d: Disk, r: Roles, i: nat)
    requires Inv(e, d, r) && (i < e.geo.nrInodes ==> Live(d, i))
    ensures i in ViewOf(e, d) <==> i < e.geo.nrInodes
    ensures i < e.geo.nrInodes ==>
      && ViewOf(e, d)[i].xattrs == AsMap(Stored(e, d, i)) && WellStored(e, Stored(e, d, i))
      && (d.inodes[i].xattr == 0 <==> ViewOf(e, d)[i].xattrs == map[])
  {
    ViewAt(e, d, i);
    if i < e.geo.nrInodes {
      StoredFacts(e, d, r, i);
      AsMapEmpty(Stored(e, d, i));
    }
  }

  /** The first entry with the key, as both the search loops find it. */
  method FindEntry(es: seq<Entry>, k: Key) returns (i: nat)
    ensures i == IndexOf(es, k)
  {
    i := 0;
    while i < |es| && es[i].key != k
      invariant i <= IndexOf(es, k)
    {
      i := i + 1;
    }
  }

  /** What `get_xattr` answers, in terms of the attribute map. */
  function GetAnswer(v: AbstractFs.View, ino: nat, name: Bytes): Result<Bytes> {
    if ino !in v then Err(BadInode)
    else if v[ino].xattrs == map[] then Err(NoXattr)
    else
      match ParseName(name)
      case Err(error) => Err(error)
      case Ok(k) => if k in v[ino].xattrs then Ok(v[ino].xattrs[k]) else Err(NoXattr)
  }

  /** `get_xattr` agrees with the map. */
  method GetXattr(fs: LolelfFs, ino: nat, name: Bytes) returns (r: Result<Bytes>)
    requires Inv(fs.env, fs.Snap(), fs.roles)
    requires ino < fs.env.geo.nrInodes ==> Live(fs.Snap(), ino)
    ensures r == GetAnswer(ViewOf(fs.env, fs.Snap()), ino, name)
  {
    XattrsSeen(fs.env, fs.Snap(), fs.roles, ino);
    if ino >= fs.env.geo.nrInodes {
      return Err(BadInode);
    }
    if fs.inodes[ino].xattr == 0 {
      return Err(NoXattr);
    }
    var k := ParseName(name);
    if k.Err? {
      return Err(k.error);
    }
    var es := ReadXattrs(fs, ino);
    var i := FindEntry(es.value, k.value);
    if i < |es.value| {
      return Ok(es.value[i].value);
    }
    return Err(NoXattr);
  }

  function FullNames(es: seq<Entry>): (r: seq<Bytes>)
    ensures |r| == |es|
  {
    seq(|es|, i requires 0 <= i < |es| => FullName(es[i].key))
  }

  /** `names` lists exactly the keys of `x`, each once. */
  ghost predicate Lists(names: seq<Bytes>, x: map<Key, Bytes>) {
    (forall k :: FullName(k) in names <==> k in x) && |names| == |x|
  }

  lemma NamesAreKeys(es: seq<Entry>)
    requires DistinctKeys(es)
    ensures Lists(FullNames(es), AsMap(es))
  {
    var ns := FullNames(es);
    KeySetSize(es);
    assert AsMap(es).Keys == KeySet(es);
    forall k ensures FullName(k) in ns <==> k in AsMap(es) {
      ParseInvertsFullName(k);
      if FullName(k) in ns {
        var i :| 0 <= i < |es| && ns[i] == FullName(k);
        ParseInvertsFullName(es[i].key);
        assert es[i].key == k;
      }
      if k in AsMap(es) {
        assert ns[IndexOf(es, k)] == FullName(k);
      }
    }
  }

  method NamesOf(es: seq<Entry>) returns (names: seq<Bytes>)
    ensures names == FullNames(es)
  {
    names := [];
    for i := 0 to |es|
      invariant names == FullNames(es)[..i]
    {
      names := names + [FullName(es[i].key)];
    }
  }

  /** `list_xattrs`: the names of all attributes, each once. */
  method ListXattrs(fs: LolelfFs, ino: nat) returns (r: Result<seq<Bytes>>)
    requires Inv(fs.env, fs.Snap(), fs.roles)
    requires ino < fs.env.geo.nrInodes ==> Live(fs.Snap(), ino)
    ensures r.Err? <==> ino !in ViewOf(fs.env, fs.Snap())
    ensures r.Err? ==> r.error == BadInode
    ensures r.Ok? ==> Lists(r.value, ViewOf(fs.env, fs.Snap())[ino].xattrs)
  {
    XattrsSeen(fs.env, fs.Snap(), fs.roles, ino);
    if ino >= fs.env.geo.nrInodes {
      return Err(BadInode);
    }
    if fs.inodes[ino].xattr == 0 {
      return Ok([]);
    }
    var es := ReadXattrs(fs, ino);
    NamesAreKeys(es.value);
    var names := NamesOf(es.value);
    return Ok(names);
  }
}
