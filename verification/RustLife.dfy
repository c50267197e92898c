/** Creating and destroying inodes together with their blocks. */
module RustLife {
  import opened Layout
  import opened Bits
  import opened Extents
  import opened DiskState
  import opened RustFs
  import opened RustPart
  import opened RustNode
  import AbstractFs

  // ---- death ----

  /** A part owns its index block, its mapped blocks and nothing else. */
  lemma PartMembers(e: Env, d: Disk, r: Roles, i: nat, x: bool, b: nat)
    requires Shape(e, d) && BitsOk(e, d, r) && i < |d.inodes| && PartOk(d, r, i, x) && b < |r|
    ensures InPart(r[b], i, x) <==> (b != 0 && b == Head(d.inodes[i], x)) || b in MapOf(d, i, x)
  {
    var m, head := MapOf(d, i, x), Head(d.inodes[i], x);
    assert r[0].Meta?;
    if InPart(r[b], i, x) {
      assert Justified(head, m, r[b], b);
    }
    if b in m {
      var k :| 0 <= k < |m| && m[k] == b;
      assert r[m[k]] == DataRole(i, x, k);
    }
  }

  lemma PartHead(e: Env, d: Disk, r: Roles, i: nat, x: bool)
    requires Shape(e, d) && BitsOk(e, d, r) && i < |d.inodes| && PartOk(d, r, i, x)
    ensures var h := Head(d.inodes[i], x);
      && h !in MapOf(d, i, x)
      && (h == 0 ==> Emptied(r, i, x) == r)
      && (h != 0 ==>
            && e.geo.DataStart() <= h < e.geo.nrBlocks && !d.bfree[h] && IsHead(d.blocks[h], x)
            && MapOf(d, i, x) == Phys(Used(HeadExtents(d.blocks[h], x)))
            && Backed(r, MapOf(d, i, x), i, x))
  {
    var m, h := MapOf(d, i, x), Head(d.inodes[i], x);
    if h != 0 {
      assert r[h] == HeadRole(i, x);
    } else {
      forall b | 0 <= b < |r| ensures Emptied(r, i, x)[b] == r[b] { PartMembers(e, d, r, i, x, b); }
    }
    forall k | 0 <= k < |m| ensures m[k] != h {
      assert r[m[k]] == DataRole(i, x, k);
      assert r[0].Meta?;
    }
  }

  lemma PartGone(e: Env, d: Disk, r: Roles, i: nat, x: bool, f: nat -> Role)
    requires Shape(e, d) && BitsOk(e, d, r) && i < |d.inodes| && PartOk(d, r, i, x) && Head(d.inodes[i], x) != 0
    requires forall t: nat :: f(t) == Free
    ensures var m, h := MapOf(d, i, x), Head(d.inodes[i], x);
      && Assigned(Released(r, m), h, 1, f) == Emptied(r, i, x)
      && Released(Assigned(r, h, 1, f), m) == Emptied(r, i, x)
      && Backed(Assigned(r, h, 1, f), m, i, x)
  {
    var m, h := MapOf(d, i, x), Head(d.inodes[i], x);
    PartHead(e, d, r, i, x);
    forall b | 0 <= b < |r| ensures Emptied(r, i, x)[b] == if b == h || b in m then Free else r[b] {
      PartMembers(e, d, r, i, x, b);
    }
  }

  /**
   * Free a whole part. Files and attributes give back the mapped blocks first, directories the
   * index block first (which is then still read).
   */
  method DropPart(fs: LolelfFs, i: nat, x: bool, headFirst: bool)
    requires fs.Sound() && i < |fs.inodes| && PartOk(fs.Snap(), fs.roles, i, x)
    modifies fs`freeBlocks, fs`bfree, fs`roles
    ensures fs.Sound()
    ensures fs.roles == Emptied(old(fs.roles), i, x)
  {
    var head := Head(fs.inodes[i], x);
    PartHead(fs.env, fs.Snap(), fs.roles, i, x);
    if head == 0 {
      return;
    }
    PartGone(fs.env, fs.Snap(), fs.roles, i, x, _ => Free);
    if headFirst {
      fs.FreeBlock(head);
      var _ := FreeTable(fs, HeadExtents(fs.blocks[head], x), i, x);
    } else {
      var _ := FreeTable(fs, HeadExtents(fs.blocks[head], x), i, x);
      fs.FreeBlock(head);
    }
  }

  lemma BothParts(d: Disk, r: Roles, d': Disk, i: nat)
    requires |r| == |d.blocks| && d'.blocks == d.blocks && d'.inodes == d.inodes && i < |d.inodes|
    ensures Agree(d, r, d', Emptied(r, i, false), i, true)
    ensures Emptied(Emptied(r, i, false), i, true) == Disowned(r, i)
  {
    var r' := Emptied(r, i, false);
    forall b | 0 <= b < |r| ensures SameFor(d, r, d', r', i, true, b) {}
  }

  /** Free every block of an inode and the inode itself. */
  method Destroy(fs: LolelfFs, i: nat, headFirst: bool)
    requires Inv(fs.env, fs.Snap(), fs.roles) && Live(fs.Snap(), i)
    modifies fs`freeBlocks, fs`bfree, fs`roles, fs`ifree, fs`freeInodes
    ensures Removed(fs.env, old(fs.Snap()), fs.Snap(), fs.roles, i)
    ensures fs.roles == Disowned(old(fs.roles), i)
  {
    ghost var d, r := fs.Snap(), fs.roles;
    NodeSound(fs.env, d, r, i);
    DropPart(fs, i, false, headFirst);
    BothParts(d, r, fs.Snap(), i);
    PartFrame(d, r, fs.Snap(), fs.roles, i, true);
    DropPart(fs, i, true, false);
    var _ := fs.FreeInode(i);
    ghost var d' := fs.Snap();
    NodeRemoved(fs.env, d, r, d', i);
  }

  // ---- birth ----

  /** The node of a fresh inode that has an empty index block. */
  function FreshNode(n: Inode): AbstractFs.Node {
    if IsDir(n) then AbstractFs.Dir(n.nlink, map[], map[]) else AbstractFs.File(n.nlink, map[], Ok([]))
  }

  predicate FreshInode(n: Inode, b: nat) {
    n.ei == b && n.xattr == 0 && n.size == 0 && n.blocks == 0 && SmallInode(n) && (IsDir(n) || !IsSymlink(n))
  }

  lemma FreshPayload(e: Env, d: Disk, i: nat, b: nat)
    requires i < |d.inodes| && 0 < b < |d.blocks| && d.blocks[b] == Index(EmptyIndex())
    requires FreshInode(d.inodes[i], b)
    ensures MapOf(d, i, false) == [] && MapOf(d, i, true) == []
    ensures PayloadOk(d, i) && XPayloadOk(e, d, i) && NodeView(e, d, i) == FreshNode(d.inodes[i])
    ensures ValidIndex(EmptyIndex().extents)
  {
  }

  /** Inode `i` and index block `b` are taken and written; everything else is as before. */
  predicate Claimed(d: Disk, d': Disk, i: nat, b: nat, n: Inode) {
    && i < |d.inodes| && i < |d.ifree| && d.ifree[i] && b < |d.blocks|
    && d' == d.(ifree := d.ifree[i := false], freeInodes := d'.freeInodes, bfree := d'.bfree, freeBlocks := d'.freeBlocks,
                inodes := d.inodes[i := n], blocks := d.blocks[b := Index(EmptyIndex())])
  }

  lemma ClaimTouches(e: Env, d: Disk, r: Roles, d': Disk, i: nat, b: nat, n: Inode, mk: nat -> Role)
    requires Inv(e, d, r) && Claimed(d, d', i, b, n) && d.bfree[b] && mk(0) == Idx(i)
    ensures b != 0 && Touches(d, r, d', Assigned(r, b, 1, mk), i, false)
    ensures OwnsOnly(Assigned(r, b, 1, mk), b, [], i, false) && OwnsOnly(Assigned(r, b, 1, mk), 0, [], i, true)
  {
    var r' := Assigned(r, b, 1, mk);
    FreeInodeOwnsNothing(e, d, r, i, false);
    FreeInodeOwnsNothing(e, d, r, i, true);
    assert r[0].Meta? && r[b].Free?;
    forall c | 0 <= c < |r| ensures TouchedFor(d, r, d', r', i, false, c) {}
    forall c | 0 <= c < |r'| ensures !InPart(r'[c], i, true) {}
  }

  /** An inode with a fresh empty index block. */
  lemma IndexedBorn(e: Env, d: Disk, r: Roles, d': Disk, i: nat, b: nat, n: Inode, mk: nat -> Role)
    requires Inv(e, d, r) && Claimed(d, d', i, b, n) && d.bfree[b] && mk(0) == Idx(i)
    requires FreshInode(n, b) && Shape(e, d') && BitsOk(e, d', Assigned(r, b, 1, mk))
    ensures Born(e, d, d', Assigned(r, b, 1, mk), i, FreshNode(n)) && SameDirs(d, d')
  {
    ClaimTouches(e, d, r, d', i, b, n, mk);
    OthersSame(e, d, r, d', Assigned(r, b, 1, mk), i);
    FreshPayload(e, d', i, b);
    NodeBorn(e, d, r, d', Assigned(r, b, 1, mk), i);
  }

  /** The inode record that `create_file` and `mkdir` write. */
  function Template(mode: nat, nlink: nat, ei: nat): Inode {
    Inode(mode, 0, 0, 0, 0, 0, 0, 0, nlink, ei, 0, seq(28, _ => 0))
  }

  /** An inode was marked taken and nothing else happened: it is lost. */
  ghost predicate InodeLost(d: Disk, d': Disk) {
    && d.freeInodes > 0
    && exists i: nat ::
      && LeastFreeInode(d.ifree, i)
      && d' == d.(ifree := d.ifree[i := false], freeInodes := d.freeInodes - 1)
  }

  /** The allocations that `create_file` and `mkdir` start with. */
  method ClaimNode(fs: LolelfFs) returns (r: Result<(nat, nat)>)
    requires fs.Sound()
    modifies fs`freeInodes, fs`ifree, fs`freeBlocks, fs`bfree, fs`roles
    ensures fs.Sound()
    ensures r.Ok? ==>
      && LeastFreeInode(old(fs.ifree), r.value.0) && r.value.0 < |fs.inodes|
      && fs.ifree == old(fs.ifree)[r.value.0 := false] && fs.freeInodes + 1 == old(fs.freeInodes)
      && r.value.1 < |fs.blocks| && old(fs.bfree)[r.value.1]
      && fs.bfree == old(fs.bfree)[r.value.1 := false] && fs.freeBlocks + 1 == old(fs.freeBlocks)
      && fs.roles == Assigned(old(fs.roles), r.value.1, 1, HeadMaker(r.value.0, false))
      && FirstFit(old(fs.BfreeBits()), fs.env.geo.DataStart(), r.value.1, 1)
    ensures r.Err? <==> old(fs.freeInodes) == 0 || old(fs.freeBlocks) == 0
    ensures r.Err? ==>
      && r.error == (if old(fs.freeInodes) == 0 then NoFreeInode else NoIndexBlock)
      && fs.roles == old(fs.roles)
      && (r.error == NoFreeInode ==> fs.Snap() == old(fs.Snap()))
      && (r.error == NoIndexBlock ==> InodeLost(old(fs.Snap()), fs.Snap()))
  {
    ghost var d, rr := fs.Snap(), fs.roles;
    CountPositive(fs.IfreeBits());
    var i := fs.AllocInode();
    if i.Err? {
      return Err(i.error);
    }
    ghost var d1 := fs.Snap();
    assert LeastFreeInode(d.ifree, i.value);
    OneBlockFits(fs.env, d1, rr);
    assert fs.BfreeBits() == d1.bfree[..fs.env.geo.nrBlocks];
    var b := fs.AllocBlocks(1, HeadMaker(i.value, false));
    if b.Err? {
      return Err(NoIndexBlock);
    }
    OneBlockTaken(d1.bfree, fs.env.geo.nrBlocks, fs.env.geo.DataStart(), b.value);
    return Ok((i.value, b.value));
  }

  predicate LeastFreeInode(ifree: seq<bool>, i: nat) {
    i < |ifree| && ifree[i] && forall j :: 0 <= j < i ==> !ifree[j]
  }

  lemma OneBlockTaken(s: seq<bool>, nr: nat, from: nat, b: nat)
    requires nr <= |s| && FirstFit(s[..nr], from, b, 1)
    ensures b < nr && s[b] && SetRange(s, b, 1, false) == s[b := false]
  {
    assert s[..nr][b];
  }
}
