/**
 * The on-disk state of the Rust library over typed blocks, the ownership invariant that ties
 * bitmaps, counters and inodes together, and the view it stands for.
 */
module DiskState {
  import opened Layout
  import opened Bits
  import opened Extents
  import opened Content
  import Wire
  import XattrCodec
  import Directory
  import AbstractFs

  datatype Block =
    | Raw(bytes: Bytes)
    | Index(ei: ExtentIndex)
    | DirBlock(slots: seq<Slot>)
    | XIndex(xi: XattrIndex)

  datatype Disk = Disk(freeInodes: nat, freeBlocks: nat, inodes: seq<Inode>,
                       ifree: seq<bool>, bfree: seq<bool>, blocks: seq<Block>)

  /** Everything the superblock fixes at creation, plus the UTF-8 check. */
  datatype Env = Env(geo: Geometry, cfg: Config, utf8: Bytes -> bool)

  /** What one block is used for: the ghost inverse of all the block maps. */
  datatype Role =
    | Free
    | Meta
    | Idx(ino: nat)
    | Data(ino: nat, k: nat)
    | XIdx(ino: nat)
    | XData(ino: nat, k: nat)

  type Roles = seq<Role>

  predicate Owned(r: Role) { !r.Free? && !r.Meta? }

  predicate OwnedBy(r: Role, i: nat) { Owned(r) && r.ino == i }

  /** An inode owns two parts: its data (x false) and its extended attributes (x true). */
  predicate InPart(r: Role, i: nat, x: bool) {
    OwnedBy(r, i) && (r.XIdx? || r.XData? <==> x)
  }

  function HeadRole(i: nat, x: bool): Role { if x then XIdx(i) else Idx(i) }

  function DataRole(i: nat, x: bool, k: nat): Role { if x then XData(i, k) else Data(i, k) }

  predicate Live(d: Disk, i: nat) { i < |d.inodes| && i < |d.ifree| && !d.ifree[i] }

  // ---- block maps ----

  /** The index block of a part; 0 when there is none. */
  function Head(n: Inode, x: bool): nat { if x then n.xattr else n.ei }

  predicate IsHead(b: Block, x: bool) { if x then b.XIndex? else b.Index? }

  function HeadExtents(b: Block, x: bool): seq<Extent>
    requires IsHead(b, x)
  {
    if x then b.xi.extents else b.ei.extents
  }

  function TableAt(d: Disk, b: nat, x: bool): seq<Extent> {
    if 0 < b < |d.blocks| && IsHead(d.blocks[b], x) then Used(HeadExtents(d.blocks[b], x)) else []
  }

  function Table(d: Disk, i: nat, x: bool): seq<Extent>
    requires i < |d.inodes|
  {
    TableAt(d, Head(d.inodes[i], x), x)
  }

  function MapOf(d: Disk, i: nat, x: bool): seq<nat>
    requires i < |d.inodes|
  {
    Phys(Table(d, i, x))
  }

  // ---- reading through a block map ----

  function BlockAt(d: Disk, b: nat): Block {
    if b < |d.blocks| then d.blocks[b] else Raw([])
  }

  function Picked(d: Disk, m: seq<nat>): (r: seq<Block>)
    ensures |r| == |m|
  {
    seq(|m|, k requires 0 <= k < |m| => BlockAt(d, m[k]))
  }

  function RawsOf(bs: seq<Block>): (r: seq<Bytes>)
    ensures |r| == |bs|
  {
    seq(|bs|, k requires 0 <= k < |bs| => if bs[k].Raw? then bs[k].bytes else [])
  }

  function SlotsOf(bs: seq<Block>): (r: seq<Slot>)
    ensures |r| == 15 * |bs|
  {
    seq(15 * |bs|, p requires 0 <= p < 15 * |bs| =>
      var b := bs[p / 15];
      if b.DirBlock? && p % 15 < |b.slots| then b.slots[p % 15] else EMPTY_SLOT)
  }

  function AlgosOf(tab: seq<Extent>): (r: seq<Algo>)
    ensures |r| == |Phys(tab)|
  {
    seq(|Phys(tab)|, k requires 0 <= k < |Phys(tab)| =>
      var j := Find(tab, k);
      if j < |tab| then Algo(tab[j].comp, tab[j].enc) else Algo(0, 0))
  }

  /** The result of `read_file`. */
  function FileContent(cfg: Config, n: Inode, tab: seq<Extent>, bs: seq<Block>): Result<Bytes> {
    if n.ei == 0 || n.size == 0 then Ok([])
    else if NumBlocks(n.size) <= |bs| && NumBlocks(n.size) <= |Phys(tab)| then
      Load(cfg, AlgosOf(tab), RawsOf(bs), n.size, NumBlocks(n.size))
    else Err(BadBlock)
  }

  function Truncated(b: Bytes, n: nat): Bytes {
    if n <= |b| then b[..n] else b
  }

  /** The result of `read_xattr_data`. */
  function XattrBytes(total: nat, bs: seq<Block>): Bytes {
    Truncated(Wire.Join(RawsOf(bs)), total)
  }

  /** The NUL-terminated string in `i_data`. */
  function CString(b: Bytes): Bytes {
    if b == [] || b[0] == 0 then [] else [b[0]] + CString(b[1..])
  }

  // ---- the abstract node ----

  /** Parsed attributes under the index block `b`. */
  function XattrEntries(e: Env, b: Block, bs: seq<Block>): Result<seq<XattrCodec.Entry>> {
    if b.XIndex? then XattrCodec.Parse(XattrBytes(b.xi.totalSize, bs), e.utf8) else Ok([])
  }

  function XattrView(e: Env, d: Disk, i: nat): map<XattrCodec.Key, Bytes>
    requires i < |d.inodes|
  {
    var es := if d.inodes[i].xattr == 0 then Ok([])
              else XattrEntries(e, BlockAt(d, d.inodes[i].xattr), Picked(d, MapOf(d, i, true)));
    if es.Ok? then XattrCodec.AsMap(es.value) else map[]
  }

  function MakeNode(cfg: Config, n: Inode, x: map<XattrCodec.Key, Bytes>, tab: seq<Extent>, bs: seq<Block>): AbstractFs.Node {
    if IsDir(n) then AbstractFs.Dir(n.nlink, x, Directory.Entries(SlotsOf(bs)))
    else if IsSymlink(n) then AbstractFs.Symlink(n.nlink, x, CString(n.data))
    else AbstractFs.File(n.nlink, x, FileContent(cfg, n, tab, bs))
  }

  function NodeView(e: Env, d: Disk, i: nat): AbstractFs.Node
    requires i < |d.inodes|
  {
    MakeNode(e.cfg, d.inodes[i], XattrView(e, d, i), Table(d, i, false), Picked(d, MapOf(d, i, false)))
  }

  function ViewBelow(e: Env, d: Disk, n: nat): AbstractFs.View
    requires n <= |d.inodes|
  {
    if n == 0 then map[]
    else
      var v := ViewBelow(e, d, n - 1);
      if Live(d, n - 1) then v[n - 1 := NodeView(e, d, n - 1)] else v
  }

  /** What a caller sees of the disk: every allocated inode and its node. */
  function ViewOf(e: Env, d: Disk): AbstractFs.View {
    ViewBelow(e, d, |d.inodes|)
  }

  // ---- the ownership invariant ----

  predicate GeoOk(g: Geometry) {
    && 0 < g.DataStart() < g.nrBlocks < U32
    && 0 < g.nrInodes < U32
  }

  predicate Shape(e: Env, d: Disk) {
    && GeoOk(e.geo) && SmallAlgos(e.cfg)
    && |d.inodes| == e.geo.nrInodes <= |d.ifree| == e.geo.nrIfree * BITS_PER_BLOCK
    && |d.blocks| == e.geo.nrBlocks <= |d.bfree| == e.geo.nrBfree * BITS_PER_BLOCK
  }

  /** Bitmap bits, counters and roles agree; exactly the metadata region is reserved. */
  ghost predicate BitsOk(e: Env, d: Disk, r: Roles)
    requires Shape(e, d)
  {
    && |r| == e.geo.nrBlocks
    && (forall b {:trigger r[b]} :: 0 <= b < |r| ==> (r[b].Meta? <==> b < e.geo.DataStart()))
    && (forall b {:trigger r[b]} :: 0 <= b < |r| ==> (d.bfree[b] <==> r[b].Free?))
    && d.freeBlocks == Count(d.bfree[..e.geo.nrBlocks])
    && d.freeInodes == Count(d.ifree[..e.geo.nrInodes])
  }

  ghost predicate NoOrphans(d: Disk, r: Roles) {
    forall b {:trigger r[b]} :: 0 <= b < |r| && Owned(r[b]) ==> Live(d, r[b].ino)
  }

  /** The blocks of a map carry the roles that point back to it. */
  ghost predicate Backed(r: Roles, m: seq<nat>, i: nat, x: bool) {
    forall k {:trigger m[k]} :: 0 <= k < |m| ==> m[k] < |r| && r[m[k]] == DataRole(i, x, k)
  }

  /** A role owned by `i` names the one place where `i` refers to block `b`. */
  predicate Justified(head: nat, m: seq<nat>, role: Role, b: nat) {
    match role
    case Data(_, k) => k < |m| && m[k] == b
    case XData(_, k) => k < |m| && m[k] == b
    case _ => head == b
  }

  ghost predicate OwnsOnly(r: Roles, head: nat, m: seq<nat>, i: nat, x: bool) {
    forall b {:trigger r[b]} :: 0 <= b < |r| && InPart(r[b], i, x) ==> Justified(head, m, r[b], b)
  }

  predicate HeadOk(d: Disk, r: Roles, i: nat, x: bool, b: nat) {
    b != 0 ==> b < |r| && b < |d.blocks| && r[b] == HeadRole(i, x) && IsHead(d.blocks[b], x) &&
               ValidIndex(HeadExtents(d.blocks[b], x))
  }

  /** One part of inode `i`: index block and mapped blocks are its own, and nothing else is. */
  ghost predicate PartOk(d: Disk, r: Roles, i: nat, x: bool)
    requires i < |d.inodes|
  {
    var b := Head(d.inodes[i], x);
    && HeadOk(d, r, i, x, b)
    && Backed(r, TableMap(d, b, x), i, x)
    && OwnsOnly(r, b, TableMap(d, b, x), i, x)
  }

  function TableMap(d: Disk, b: nat, x: bool): seq<nat> {
    Phys(TableAt(d, b, x))
  }

  predicate AllRaw(bs: seq<Block>) {
    forall k :: 0 <= k < |bs| ==> bs[k].Raw? && |bs[k].bytes| == BLOCK_SIZE
  }

  predicate AllDirs(bs: seq<Block>) {
    forall k :: 0 <= k < |bs| ==> bs[k].DirBlock? && |bs[k].slots| == FILES_PER_BLOCK
  }

  const MAX_SIZE: nat := 0xFFFF_F000

  predicate FileOk(n: Inode, bs: seq<Block>) {
    && n.size <= MAX_SIZE
    && n.blocks == |bs| == NumBlocks(n.size)
    && AllRaw(bs)
  }

  predicate DirOk(n: Inode, nrFiles: nat, bs: seq<Block>) {
    && n.ei != 0
    && AllDirs(bs)
    && Directory.WellFormed(SlotsOf(bs))
    && nrFiles == Directory.CountVisible(SlotsOf(bs))
    && n.size == FILE_ENTRY_SIZE * nrFiles
    && n.blocks == |bs|
  }

  predicate SymlinkOk(n: Inode) {
    n.ei == 0 && |n.data| == 28 && n.data[27] == 0 && n.size < 28 && n.blocks == 0
  }

  /** The bytes of the attribute store parse to distinct, fitting, non-empty entries. */
  predicate XattrOk(e: Env, xi: XattrIndex, bs: seq<Block>) {
    && AllRaw(bs)
    && xi.totalSize <= 4096 * |bs| && xi.totalSize <= MAX_SIZE
    && var es := XattrCodec.Parse(XattrBytes(xi.totalSize, bs), e.utf8);
       && es.Ok? && es.value != []
       && XattrCodec.DistinctKeys(es.value) && XattrCodec.AllFit(es.value) && XattrCodec.AllText(es.value, e.utf8)
       && xi.count == |es.value|
       && xi.totalSize == |XattrCodec.Serialize(es.value)|
  }

  function NrFiles(b: Block): nat {
    if b.Index? then b.ei.nrFiles else 0
  }

  /** Directories grow by one plain block at a time. */
  predicate PlainHead(b: Block) {
    b.Index? ==> PlainTable(Used(b.ei.extents))
  }

  /** The fields that no operation computes with fit their places on disk. */
  predicate SmallInode(n: Inode) {
    n.mode < U32 && n.uid < U32 && n.gid < U32 && n.ctime < U32 && n.atime < U32 && n.mtime < U32 && |n.data| == 28
  }

  predicate NodePayload(n: Inode, head: Block, bs: seq<Block>) {
    SmallInode(n) && if IsDir(n) then DirOk(n, NrFiles(head), bs) && PlainHead(head)
    else if IsSymlink(n) then SymlinkOk(n)
    else FileOk(n, bs) && (n.ei != 0 ==> NrFiles(head) == 0)
  }

  predicate PayloadOk(d: Disk, i: nat)
    requires i < |d.inodes|
  {
    NodePayload(d.inodes[i], BlockAt(d, d.inodes[i].ei), Picked(d, MapOf(d, i, false)))
  }

  predicate XPayloadOk(e: Env, d: Disk, i: nat)
    requires i < |d.inodes|
  {
    var b := d.inodes[i].xattr;
    b != 0 ==> b < |d.blocks| && d.blocks[b].XIndex? && XattrOk(e, d.blocks[b].xi, Picked(d, MapOf(d, i, true)))
  }

  /** One inode: both parts are sound and what they hold is well formed. */
  ghost predicate NodeOk(e: Env, d: Disk, r: Roles, i: nat)
    requires i < |d.inodes|
  {
    PartOk(d, r, i, false) && PartOk(d, r, i, true) && PayloadOk(d, i) && XPayloadOk(e, d, i)
  }

  /** Every allocated inode below `n` is sound. */
  ghost predicate SoundBelow(e: Env, d: Disk, r: Roles, n: nat)
    requires n <= |d.inodes|
  {
    n == 0 || (SoundBelow(e, d, r, n - 1) && (Live(d, n - 1) ==> NodeOk(e, d, r, n - 1)))
  }

  /** The global invariant. */
  ghost predicate Inv(e: Env, d: Disk, r: Roles) {
    Shape(e, d) && BitsOk(e, d, r) && NoOrphans(d, r) && SoundBelow(e, d, r, |d.inodes|)
  }

  /** The invariant together with sound link counts: what every completed operation keeps. */
  ghost predicate Good(e: Env, d: Disk, r: Roles) {
    Inv(e, d, r) && AbstractFs.Linked(ViewOf(e, d))
  }

  lemma {:induction false} SoundAt(e: Env, d: Disk, r: Roles, n: nat, i: nat)
    requires n <= |d.inodes| && SoundBelow(e, d, r, n) && i < n && Live(d, i)
    ensures NodeOk(e, d, r, i)
  {
    assert SoundBelow(e, d, r, n - 1) && (Live(d, n - 1) ==> NodeOk(e, d, r, n - 1));
    if i < n - 1 { SoundAt(e, d, r, n - 1, i); }
  }

  /** The invariant at one allocated inode. */
  lemma NodeSound(e: Env, d: Disk, r: Roles, i: nat)
    requires Inv(e, d, r) && Live(d, i)
    ensures NodeOk(e, d, r, i)
  {
    SoundAt(e, d, r, |d.inodes|, i);
  }

  lemma {:induction false} AllSound(e: Env, d: Disk, r: Roles, n: nat)
    requires n <= |d.inodes|
    requires forall i {:trigger NodeOk(e, d, r, i)} :: 0 <= i < n && Live(d, i) ==> NodeOk(e, d, r, i)
    ensures SoundBelow(e, d, r, n)
  {
    if n > 0 { AllSound(e, d, r, n - 1); }
  }

  lemma {:induction false} ViewBelowAt(e: Env, d: Disk, n: nat, i: nat)
    requires n <= |d.inodes|
    ensures i in ViewBelow(e, d, n) <==> i < n && Live(d, i)
    ensures i < n && Live(d, i) ==> ViewBelow(e, d, n)[i] == NodeView(e, d, i)
  {
    if n > 0 { ViewBelowAt(e, d, n - 1, i); }
  }

  /** The view holds exactly the allocated inodes. */
  lemma ViewAt(e: Env, d: Disk, i: nat)
    ensures i in ViewOf(e, d) <==> Live(d, i)
    ensures Live(d, i) ==> ViewOf(e, d)[i] == NodeView(e, d, i)
  {
    ViewBelowAt(e, d, |d.inodes|, i);
  }

  lemma ViewIs(e: Env, d: Disk, v: AbstractFs.View)
    requires forall i: nat :: i in v <==> Live(d, i)
    requires forall i: nat :: i in v ==> Live(d, i) && v[i] == NodeView(e, d, i)
    ensures ViewOf(e, d) == v
  {
    forall i: nat ensures i in ViewOf(e, d) <==> i in v { ViewAt(e, d, i); }
    forall i: nat | i in v ensures ViewOf(e, d)[i] == v[i] { ViewAt(e, d, i); }
  }

  // ---- framing ----

  /** Block `b` looks the same to a part of inode `i` in both states. */
  predicate SameFor(d: Disk, r: Roles, d': Disk, r': Roles, i: nat, x: bool, b: nat)
    requires b < |r| && b < |r'| && b < |d.blocks| && b < |d'.blocks|
  {
    InPart(r[b], i, x) || InPart(r'[b], i, x) ==> r[b] == r'[b] && d.blocks[b] == d'.blocks[b]
  }

  /** A part of inode `i` and everything in it is untouched. */
  ghost predicate Agree(d: Disk, r: Roles, d': Disk, r': Roles, i: nat, x: bool) {
    && i < |d.inodes| && i < |d'.inodes| && Head(d.inodes[i], x) == Head(d'.inodes[i], x)
    && |r| == |r'| == |d.blocks| == |d'.blocks|
    && forall b {:trigger r[b]} {:trigger r'[b]} :: 0 <= b < |r| ==> SameFor(d, r, d', r', i, x, b)
  }

  lemma PickedSame(d: Disk, r: Roles, d': Disk, r': Roles, i: nat, m: seq<nat>, x: bool)
    requires Agree(d, r, d', r', i, x) && Backed(r, m, i, x)
    ensures Picked(d, m) == Picked(d', m) && Backed(r', m, i, x)
  {
    forall k | 0 <= k < |m|
      ensures BlockAt(d, m[k]) == BlockAt(d', m[k]) && r'[m[k]] == r[m[k]]
    {
      assert InPart(r[m[k]], i, x);
      assert SameFor(d, r, d', r', i, x, m[k]);
    }
  }

  lemma OwnsOnlySame(d: Disk, r: Roles, d': Disk, r': Roles, i: nat, x: bool, head: nat, m: seq<nat>)
    requires Agree(d, r, d', r', i, x) && OwnsOnly(r, head, m, i, x)
    ensures OwnsOnly(r', head, m, i, x)
  {
    forall b | 0 <= b < |r'| && InPart(r'[b], i, x) ensures Justified(head, m, r'[b], b) {
      assert SameFor(d, r, d', r', i, x, b);
      assert r[b] == r'[b];
    }
  }

  /** An untouched part keeps its invariant, its map and its blocks. */
  lemma PartFrame(d: Disk, r: Roles, d': Disk, r': Roles, i: nat, x: bool)
    requires Agree(d, r, d', r', i, x) && PartOk(d, r, i, x)
    ensures PartOk(d', r', i, x)
    ensures Table(d', i, x) == Table(d, i, x)
    ensures Picked(d', MapOf(d', i, x)) == Picked(d, MapOf(d, i, x))
    ensures Head(d.inodes[i], x) != 0 ==> BlockAt(d', Head(d.inodes[i], x)) == BlockAt(d, Head(d.inodes[i], x))
  {
    var b := Head(d.inodes[i], x);
    if b != 0 {
      assert SameFor(d, r, d', r', i, x, b);
    }
    PickedSame(d, r, d', r', i, MapOf(d, i, x), x);
    OwnsOnlySame(d, r, d', r', i, x, b, MapOf(d, i, x));
  }

  /** The attribute part of an inode is kept when only the rest of it changes. */
  lemma XPartFrame(e: Env, d: Disk, r: Roles, d': Disk, r': Roles, i: nat)
    requires Agree(d, r, d', r', i, true) && PartOk(d, r, i, true) && XPayloadOk(e, d, i)
    ensures PartOk(d', r', i, true) && XPayloadOk(e, d', i)
    ensures XattrView(e, d', i) == XattrView(e, d, i)
  {
    PartFrame(d, r, d', r', i, true);
  }

  /** An untouched inode keeps its invariant and its view. */
  lemma NodeFrame(e: Env, d: Disk, r: Roles, d': Disk, r': Roles, i: nat)
    requires Agree(d, r, d', r', i, false) && Agree(d, r, d', r', i, true) && d.inodes[i] == d'.inodes[i]
    requires NodeOk(e, d, r, i)
    ensures NodeOk(e, d', r', i)
    ensures NodeView(e, d', i) == NodeView(e, d, i)
  {
    PartFrame(d, r, d', r', i, false);
    XPartFrame(e, d, r, d', r', i);
    if d.inodes[i].ei == 0 {
      assert MapOf(d, i, false) == [];
      HeadlessPayload(d, d', i);
    }
  }

  lemma HeadlessPayload(d: Disk, d': Disk, i: nat)
    requires i < |d.inodes| && i < |d'.inodes| && d.inodes[i] == d'.inodes[i] && d.inodes[i].ei == 0
    requires PayloadOk(d, i) && Picked(d', MapOf(d', i, false)) == Picked(d, MapOf(d, i, false))
    ensures PayloadOk(d', i)
  {
  }

  /** Role of a block that an operation on part `x` of inode `i` must not change. */
  predicate Foreign(r: Role, i: nat, x: bool) {
    !r.Free? && !InPart(r, i, x)
  }

  predicate TouchedFor(d: Disk, r: Roles, d': Disk, r': Roles, i: nat, x: bool, b: nat)
    requires b < |r| && b < |r'| && b < |d.blocks| && b < |d'.blocks|
  {
    if Foreign(r[b], i, x) || Foreign(r'[b], i, x) then r[b] == r'[b] && d.blocks[b] == d'.blocks[b] else true
  }

  /** Only inode `i`, the blocks of its part `x` and free blocks may differ. */
  ghost predicate Touches(d: Disk, r: Roles, d': Disk, r': Roles, i: nat, x: bool) {
    && i < |d.inodes| == |d'.inodes| && |r| == |r'| == |d.blocks| == |d'.blocks|
    && (forall j {:trigger d.inodes[j]} {:trigger d'.inodes[j]} :: 0 <= j < |d.inodes| && j != i ==> d.inodes[j] == d'.inodes[j])
    && (forall b {:trigger r[b]} {:trigger r'[b]} :: 0 <= b < |r| ==> TouchedFor(d, r, d', r', i, x, b))
  }

  lemma TouchesRefl(d: Disk, r: Roles, i: nat, x: bool)
    requires i < |d.inodes| && |r| == |d.blocks|
    ensures Touches(d, r, d, r, i, x)
  {
    forall b | 0 <= b < |r| ensures TouchedFor(d, r, d, r, i, x, b) {}
  }

  lemma TouchesTrans(d: Disk, r: Roles, d1: Disk, r1: Roles, d2: Disk, r2: Roles, i: nat, x: bool)
    requires Touches(d, r, d1, r1, i, x) && Touches(d1, r1, d2, r2, i, x)
    ensures Touches(d, r, d2, r2, i, x)
  {
    forall b | 0 <= b < |r| ensures TouchedFor(d, r, d2, r2, i, x, b) {
      assert TouchedFor(d, r, d1, r1, i, x, b);
      assert TouchedFor(d1, r1, d2, r2, i, x, b);
    }
    forall j | 0 <= j < |d.inodes| && j != i ensures d.inodes[j] == d2.inodes[j] {
      assert d1.inodes[j] == d1.inodes[j];
    }
  }

  lemma TouchesAgree(d: Disk, r: Roles, d': Disk, r': Roles, i: nat, x: bool, j: nat, y: bool)
    requires Touches(d, r, d', r', i, x) && j < |d.inodes| && (j != i || y != x)
    requires Head(d.inodes[j], y) == Head(d'.inodes[j], y)
    ensures Agree(d, r, d', r', j, y)
  {
    forall b | 0 <= b < |r| ensures SameFor(d, r, d', r', j, y, b) {
      assert TouchedFor(d, r, d', r', i, x, b);
    }
  }

  lemma OtherKept(e: Env, d: Disk, r: Roles, d': Disk, r': Roles, i: nat, x: bool, j: nat)
    requires Touches(d, r, d', r', i, x) && j < |d.inodes| && j != i && NodeOk(e, d, r, j)
    ensures NodeOk(e, d', r', j) && NodeView(e, d', j) == NodeView(e, d, j)
  {
    TouchesAgree(d, r, d', r', i, x, j, false);
    TouchesAgree(d, r, d', r', i, x, j, true);
    NodeFrame(e, d, r, d', r', j);
  }

  /**
   * Framing for a whole operation on one inode: once that inode is well formed again, so is the
   * disk, and the view changes at that inode only.
   */
  lemma OneNodeChanged(e: Env, d: Disk, r: Roles, d': Disk, r': Roles, i: nat, x: bool)
    requires Inv(e, d, r) && Live(d, i) && Touches(d, r, d', r', i, x)
    requires Shape(e, d') && BitsOk(e, d', r') && d'.ifree == d.ifree
    requires NodeOk(e, d', r', i)
    ensures Inv(e, d', r')
    ensures ViewOf(e, d') == ViewOf(e, d)[i := NodeView(e, d', i)]
  {
    forall j | 0 <= j < |d.inodes| && Live(d', j) ensures NodeOk(e, d', r', j) {
      if j != i {
        NodeSound(e, d, r, j);
        OtherKept(e, d, r, d', r', i, x, j);
      }
    }
    AllSound(e, d', r', |d'.inodes|);
    NoOrphansKept(d, r, d', r', i, x);
    OneViewChanged(e, d, r, d', r', i, x);
  }

  lemma OneViewChanged(e: Env, d: Disk, r: Roles, d': Disk, r': Roles, i: nat, x: bool)
    requires Inv(e, d, r) && Live(d, i) && Touches(d, r, d', r', i, x) && d'.ifree == d.ifree
    ensures ViewOf(e, d') == ViewOf(e, d)[i := NodeView(e, d', i)]
  {
    var v := ViewOf(e, d)[i := NodeView(e, d', i)];
    forall j: nat ensures j in v <==> Live(d', j) { ViewAt(e, d, j); }
    forall j: nat | j in v ensures Live(d', j) && v[j] == NodeView(e, d', j) {
      ViewAt(e, d, j);
      if j != i {
        NodeSound(e, d, r, j);
        OtherKept(e, d, r, d', r', i, x, j);
      }
    }
    ViewIs(e, d', v);
  }

  lemma NoOrphansKept(d: Disk, r: Roles, d': Disk, r': Roles, i: nat, x: bool)
    requires NoOrphans(d, r) && Live(d', i) && Touches(d, r, d', r', i, x) && d'.ifree == d.ifree
    ensures NoOrphans(d', r')
  {
    forall b | 0 <= b < |r'| && Owned(r'[b]) ensures Live(d', r'[b].ino) {
      assert TouchedFor(d, r, d', r', i, x, b);
      if r'[b].ino != i { assert r[b] == r'[b]; }
    }
  }

  // ---- elementary steps ----

  lemma WriteBlockTouches(d: Disk, r: Roles, b: nat, v: Block, i: nat, x: bool)
    requires i < |d.inodes| && |r| == |d.blocks| && b < |r| && InPart(r[b], i, x)
    ensures Touches(d, r, d.(blocks := d.blocks[b := v]), r, i, x)
  {
    var d' := d.(blocks := d.blocks[b := v]);
    forall c | 0 <= c < |r| ensures TouchedFor(d, r, d', r, i, x, c) {}
  }

  lemma WriteInodeTouches(d: Disk, r: Roles, n: Inode, i: nat, x: bool)
    requires i < |d.inodes| && |r| == |d.blocks|
    ensures Touches(d, r, d.(inodes := d.inodes[i := n]), r, i, x)
  {
    var d' := d.(inodes := d.inodes[i := n]);
    forall c | 0 <= c < |r| ensures TouchedFor(d, r, d', r, i, x, c) {}
  }

  /** Roles moved only between free and the part. */
  ghost predicate RolesMoved(r: Roles, r': Roles, i: nat, x: bool) {
    |r| == |r'| && forall b {:trigger r[b]} {:trigger r'[b]} :: 0 <= b < |r| && r[b] != r'[b] ==> !Foreign(r[b], i, x) && !Foreign(r'[b], i, x)
  }

  lemma RolesMovedTouches(d: Disk, r: Roles, d': Disk, r': Roles, i: nat, x: bool)
    requires i < |d.inodes| && |r| == |d.blocks| && RolesMoved(r, r', i, x)
    requires d'.inodes == d.inodes && d'.blocks == d.blocks
    ensures Touches(d, r, d', r', i, x)
  {
    forall c | 0 <= c < |r| ensures TouchedFor(d, r, d', r', i, x, c) {}
  }
}
