/** The attribute store of an inode: reading it and writing its blocks (lolelffs-tools/src/fs.rs and xattr.rs). */
module RustXattrStore {
  import opened Layout
  import opened Extents
  import opened Content
  import opened DiskState
  import opened RustFs
  import opened RustFile
  import opened XattrCodec
  import Wire
  import RustList

  // ---- bytes over blocks ----

  /** The blocks the store is cut into. */
  function Padded(data: Bytes): (r: seq<Result<Bytes>>)
    ensures |r| == NumBlocks(|data|)
  {
    seq(NumBlocks(|data|), k requires 0 <= k < NumBlocks(|data|) => Ok(Pad(Chunk(data, k))))
  }

  lemma {:induction false} ConcatPadded(data: Bytes, raws: seq<Bytes>, n: nat)
    requires n <= NumBlocks(|data|) <= |raws|
    requires forall k :: 0 <= k < n ==> raws[k] == Pad(Chunk(data, k))
    ensures |Wire.Join(raws[..n])| == 4096 * n
    ensures Truncated(Wire.Join(raws[..n]), |data|) == data[..Min(4096 * n, |data|)]
  {
    if n > 0 {
      var k := n - 1;
      ConcatPadded(data, raws, k);
      assert raws[..n][..k] == raws[..k];
      assert Wire.Join(raws[..n]) == Wire.Join(raws[..k]) + raws[k];
      PadStep(data, Wire.Join(raws[..k]), k);
    }
  }

  lemma PadStep(data: Bytes, c: Bytes, k: nat)
    requires k < NumBlocks(|data|) && |c| == 4096 * k && c == data[..4096 * k]
    ensures Truncated(c + Pad(Chunk(data, k)), |data|) == data[..Min(4096 * k + 4096, |data|)]
  {
    var chunk := Chunk(data, k);
    assert chunk == data[4096 * k..Min(4096 * k + 4096, |data|)];
    assert data[..4096 * k] + chunk == data[..Min(4096 * k + 4096, |data|)];
    assert (c + Pad(chunk))[..|c| + |chunk|] == c + chunk;
  }

  // ---- reading ----

  /** The bytes in the attribute store of inode `i`. */
  function StoreBytes(d: Disk, i: nat): Bytes
    requires i < |d.inodes|
  {
    var b := BlockAt(d, d.inodes[i].xattr);
    if d.inodes[i].xattr != 0 && b.XIndex? then XattrBytes(b.xi.totalSize, Picked(d, MapOf(d, i, true))) else []
  }

  /** The entries stored for inode `i`. */
  function Stored(e: Env, d: Disk, i: nat): seq<Entry>
    requires i < |d.inodes|
  {
    var es := Parse(StoreBytes(d, i), e.utf8);
    if d.inodes[i].xattr != 0 && es.Ok? then es.value else []
  }

  predicate WellStored(e: Env, es: seq<Entry>) {
    DistinctKeys(es) && AllFit(es) && AllText(es, e.utf8) && |Serialize(es)| <= MAX_SIZE
  }

  /** What the invariant says about a stored list. */
  lemma StoredFacts(e: Env, d: Disk, r: Roles, i: nat)
    requires Inv(e, d, r) && Live(d, i)
    ensures WellStored(e, Stored(e, d, i))
    ensures AsMap(Stored(e, d, i)) == XattrView(e, d, i)
    ensures d.inodes[i].xattr != 0 ==> Parse(StoreBytes(d, i), e.utf8) == Ok(Stored(e, d, i)) && Stored(e, d, i) != []
  {
    NodeSound(e, d, r, i);
    SerializeEmpty([]);
  }

  lemma StoreBlocks(e: Env, d: Disk, r: Roles, i: nat)
    requires Inv(e, d, r) && Live(d, i) && d.inodes[i].xattr != 0
    ensures var b := d.inodes[i].xattr; var m := MapOf(d, i, true);
      && b < |d.blocks| && d.blocks[b].XIndex? && ValidIndex(d.blocks[b].xi.extents)
      && m == Phys(Used(d.blocks[b].xi.extents))
      && (forall k :: 0 <= k < |m| ==> m[k] < |d.blocks|)
      && AllRaw(Picked(d, m))
      && StoreBytes(d, i) == XattrBytes(d.blocks[b].xi.totalSize, Picked(d, m))
  {
    NodeSound(e, d, r, i);
    assert PartOk(d, r, i, true);
  }

  /** `read_xattr_data`: all blocks of all extents, cut to the recorded size. */
  method ReadStore(fs: LolelfFs, xi: XattrIndex) returns (data: Bytes)
    requires ValidIndex(xi.extents)
    requires forall k :: 0 <= k < |Phys(Used(xi.extents))| ==> Phys(Used(xi.extents))[k] < |fs.blocks|
    requires AllRaw(Picked(fs.Snap(), Phys(Used(xi.extents))))
    ensures data == XattrBytes(xi.totalSize, Picked(fs.Snap(), Phys(Used(xi.extents))))
  {
    var bs := RustList.ReadBlocks(fs, xi.extents);
    ghost var raws := RawsOf(bs);
    data := [];
    for k := 0 to |bs|
      invariant data == Wire.Join(raws[..k])
    {
      Wire.JoinStep(raws, k);
      data := data + bs[k].bytes;
    }
    assert raws[..|bs|] == raws;
    data := Truncated(data, xi.totalSize);
  }

  /** Read and parse the attributes of an inode. */
  method ReadXattrs(fs: LolelfFs, ino: nat) returns (r: Result<seq<Entry>>)
    requires Inv(fs.env, fs.Snap(), fs.roles) && Live(fs.Snap(), ino) && fs.inodes[ino].xattr != 0
    ensures r == Ok(Stored(fs.env, fs.Snap(), ino))
  {
    StoreBlocks(fs.env, fs.Snap(), fs.roles, ino);
    StoredFacts(fs.env, fs.Snap(), fs.roles, ino);
    var data := ReadStore(fs, fs.blocks[fs.inodes[ino].xattr].xi);
    r := ParseEntries(data, fs.env.utf8);
  }
}
