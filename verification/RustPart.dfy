/**
 * Rebuilding one part of an inode (its data or its attributes): free the old blocks, make sure
 * there is an index block, allocate the new extents, point the index at them.
 */
module RustPart {
  import opened Layout
  import opened Bits
  import opened Extents
  import opened Content
  import opened DiskState
  import opened RustFs
  import opened RustPlan

  /**
   * Part `x` of inode `i` is being rebuilt: it owns the index block `head` (0: none) and the
   * blocks `m`, everything else is as in the start state.
   */
  ghost predicate Rebuilding(e: Env, d0: Disk, r0: Roles, d: Disk, r: Roles, i: nat, x: bool, head: nat, m: seq<nat>) {
    && Shape(e, d) && BitsOk(e, d, r)
    && Touches(d0, r0, d, r, i, x)
    && d.inodes == d0.inodes && d.ifree == d0.ifree
    && OwnsOnly(r, head, m, i, x) && Backed(r, m, i, x)
    && (head != 0 ==> head < |r| && r[head] == HeadRole(i, x))
  }

  /** Part `x` of inode `i` is half rebuilt; bitmap, counter and everything else are in order. */
  ghost predicate Stalled(e: Env, d0: Disk, r0: Roles, d: Disk, r: Roles, i: nat, x: bool) {
    Shape(e, d) && BitsOk(e, d, r) && Touches(d0, r0, d, r, i, x) && d.ifree == d0.ifree
  }

  /** Every other inode looks as before, and the counter equals the bitmap. */
  ghost predicate Contained(e: Env, d0: Disk, d: Disk, i: nat) {
    && Shape(e, d) && d.freeBlocks == Count(d.bfree[..e.geo.nrBlocks])
    && ViewOf(e, d).Keys == ViewOf(e, d0).Keys
    && forall j :: j in ViewOf(e, d0) && j != i ==> ViewOf(e, d)[j] == ViewOf(e, d0)[j]
  }

  /** A rebuild that stops half way harms only its own inode. */
  lemma StalledIsContained(e: Env, d0: Disk, r0: Roles, d: Disk, r: Roles, i: nat, x: bool)
    requires Inv(e, d0, r0) && Live(d0, i) && Stalled(e, d0, r0, d, r, i, x)
    ensures Contained(e, d0, d, i)
  {
    OneViewChanged(e, d0, r0, d, r, i, x);
    ViewAt(e, d0, i);
  }

  lemma StartRelease(e: Env, d0: Disk, r0: Roles, d: Disk, i: nat, x: bool)
    requires Inv(e, d0, r0) && Live(d0, i)
    requires d == d0.(bfree := d.bfree, freeBlocks := d.freeBlocks)
    requires Shape(e, d) && BitsOk(e, d, Released(r0, MapOf(d0, i, x)))
    ensures Rebuilding(e, d0, r0, d, Released(r0, MapOf(d0, i, x)), i, x, Head(d0.inodes[i], x), [])
  {
    NodeSound(e, d0, r0, i);
    assert PartOk(d0, r0, i, x);
    var m, head := MapOf(d0, i, x), Head(d0.inodes[i], x);
    ReleasedPart(r0, head, m, i, x);
    RolesMovedTouches(d0, r0, d, Released(r0, m), i, x);
    forall k | 0 <= k < |m| ensures m[k] != head {
      assert r0[m[k]] == DataRole(i, x, k);
    }
  }

  /** Nothing freed yet: a part as it stands. */
  lemma StartInPlace(e: Env, d: Disk, r: Roles, i: nat, x: bool)
    requires Inv(e, d, r) && Live(d, i)
    ensures Rebuilding(e, d, r, d, r, i, x, Head(d.inodes[i], x), MapOf(d, i, x))
  {
    NodeSound(e, d, r, i);
    assert PartOk(d, r, i, x);
    TouchesRefl(d, r, i, x);
  }

  /** Free all mapped blocks of a part; its index block stays. */
  method FreePart(fs: LolelfFs, ino: nat, x: bool) returns (r: Result<()>)
    requires Inv(fs.env, fs.Snap(), fs.roles) && Live(fs.Snap(), ino)
    modifies fs`freeBlocks, fs`bfree, fs`roles
    ensures r.Ok?
    ensures GivenBack(fs.env, old(fs.Snap()), old(fs.roles), fs.Snap(), fs.roles, ino, x)
  {
    NodeSound(fs.env, fs.Snap(), fs.roles, ino);
    assert PartOk(fs.Snap(), fs.roles, ino, x);
    ghost var d0, r0 := fs.Snap(), fs.roles;
    var head := Head(fs.inodes[ino], x);
    if head != 0 {
      r := FreeTable(fs, HeadExtents(fs.blocks[head], x), ino, x);
    } else {
      assert Released(r0, []) == r0 && FreedBits(fs.bfree, []) == fs.bfree;
    }
    StartRelease(fs.env, d0, r0, fs.Snap(), ino, x);
    return Ok(());
  }

  lemma HeadAllocated(e: Env, d0: Disk, r0: Roles, d: Disk, r: Roles, i: nat, x: bool, d': Disk, b: nat, mk: nat -> Role)
    requires Rebuilding(e, d0, r0, d, r, i, x, 0, [])
    requires b < e.geo.nrBlocks && d.bfree[b] && mk(0) == HeadRole(i, x)
    requires Shape(e, d') && BitsOk(e, d', Assigned(r, b, 1, mk)) && d' == d.(bfree := d'.bfree, freeBlocks := d'.freeBlocks)
    ensures Rebuilding(e, d0, r0, d', Assigned(r, b, 1, mk), i, x, b, [])
  {
    var r' := Assigned(r, b, 1, mk);
    AssignedHead(e, d, r, b, i, x, mk);
    RolesMovedTouches(d, r, d', r', i, x);
    TouchesTrans(d0, r0, d, r, d', r', i, x);
  }

  function HeadMaker(i: nat, x: bool): (f: nat -> Role)
    ensures forall t: nat :: f(t) == HeadRole(i, x) && Owned(f(t))
  {
    (t: nat) => HeadRole(i, x)
  }

  /** The free bits once a missing index block is taken. */
  ghost function WithHead(bits: seq<bool>, lo: nat, head: nat): seq<bool> {
    if head == 0 && RunFrom(bits, lo, 1) then Took(bits, lo, 1) else bits
  }

  /** The free bits when a part is planned: its blocks are given back, and a missing index block is taken. */
  ghost function ReadyBits(e: Env, d: Disk, i: nat, x: bool): seq<bool>
    requires Shape(e, d) && i < |d.inodes|
  {
    WithHead(FreedBits(d.bfree, MapOf(d, i, x))[..e.geo.nrBlocks], e.geo.DataStart(), Head(d.inodes[i], x))
  }

  /** The plan for `n` blocks of part `x` of inode `i`, decided before anything happens. */
  ghost function PlanFor(e: Env, d: Disk, i: nat, x: bool, n: nat): Plan
    requires Shape(e, d) && i < |d.inodes|
  {
    PlanOn(e, ReadyBits(e, d, i, x), 0, n)
  }

  /** Why a part cannot be rebuilt with `n` blocks; everything but a missing index block shows only after the old blocks are gone. */
  ghost function PartError(e: Env, d: Disk, i: nat, x: bool, n: nat): Option<Error>
    requires Shape(e, d) && i < |d.inodes|
  {
    if Head(d.inodes[i], x) == 0 && d.freeBlocks == 0 then Some(NoIndexBlock) else PlanFor(e, d, i, x, n).error
  }

  /** Only the bitmap changed, to `bits`, and the counter with it. */
  ghost predicate BitmapOnly(e: Env, d: Disk, d': Disk, bits: seq<bool>) {
    d' == d.(bfree := d'.bfree, freeBlocks := Count(bits)) && e.geo.nrBlocks <= |d'.bfree| && d'.bfree[..e.geo.nrBlocks] == bits
  }

  /** What a rebuild without room leaves: every other inode as it was, and nothing changed but the bitmap. */
  ghost predicate PartStopped(e: Env, d: Disk, d': Disk, i: nat, x: bool, n: nat)
    requires Shape(e, d) && i < |d.inodes|
  {
    Contained(e, d, d', i) && BitmapOnly(e, d, d', PlanFor(e, d, i, x, n).bits)
  }

  /** Allocate the index block when the part has none. */
  method EnsureHead(fs: LolelfFs, head: nat, ghost ino: nat, ghost x: bool, ghost d0: Disk, ghost r0: Roles) returns (r: Result<nat>)
    requires Rebuilding(fs.env, d0, r0, fs.Snap(), fs.roles, ino, x, head, [])
    modifies fs`freeBlocks, fs`bfree, fs`roles
    ensures r.Err? <==> head == 0 && old(fs.freeBlocks) == 0
    ensures r.Err? ==> r.error == NoSpace && fs.Snap() == old(fs.Snap()) && fs.roles == old(fs.roles)
    ensures r.Ok? ==> r.value != 0 && Rebuilding(fs.env, d0, r0, fs.Snap(), fs.roles, ino, x, r.value, [])
    ensures r.Ok? ==> fs.BfreeBits() == WithHead(old(fs.BfreeBits()), fs.env.geo.DataStart(), head)
  {
    if head != 0 {
      return Ok(head);
    }
    ghost var d, rr := fs.Snap(), fs.roles;
    OneBlockFits(fs.env, d, rr);
    assert fs.BfreeBits() == d.bfree[..fs.env.geo.nrBlocks];
    r := fs.AllocBlocks(1, HeadMaker(ino, x));
    if r.Ok? {
      assert d.bfree[..fs.env.geo.nrBlocks][r.value];
      BitsTaken(d.bfree, fs.env.geo.nrBlocks, fs.env.geo.DataStart(), r.value, 1);
      HeadAllocated(fs.env, d0, r0, d, rr, ino, x, fs.Snap(), r.value, HeadMaker(ino, x));
    }
  }

  lemma ExtentsAllocated(e: Env, d0: Disk, r0: Roles, d: Disk, r: Roles, i: nat, x: bool, head: nat,
                         d': Disk, r': Roles, tab: seq<Extent>, n: nat, max: nat)
    requires Rebuilding(e, d0, r0, d, r, i, x, head, []) && head != 0
    requires Shape(e, d') && BitsOk(e, d', r') && d' == d.(bfree := d'.bfree, freeBlocks := d'.freeBlocks)
    requires OnPlan(r, r', tab, n, max, i, x)
    ensures Rebuilding(e, d0, r0, d', r', i, x, head, Phys(tab))
  {
    GrownPart(r, r', head, [], Phys(tab), i, x);
    RolesMovedTouches(d, r, d', r', i, x);
    TouchesTrans(d0, r0, d, r, d', r', i, x);
    assert r[head] == HeadRole(i, x);
  }

  /** Allocate the extents for `n` blocks; a plan never needs more than the 170 slots. */
  method GrowPart(fs: LolelfFs, head: nat, n: nat, ghost ino: nat, ghost x: bool, ghost d0: Disk, ghost r0: Roles) returns (r: Result<seq<Extent>>)
    requires Rebuilding(fs.env, d0, r0, fs.Snap(), fs.roles, ino, x, head, []) && head != 0
    requires fs.env.cfg.maxLarge == 0 || fs.env.cfg.maxLarge >= MAX_EXTENT_BLOCKS_LARGE
    requires n <= 0x10_0000
    modifies fs`freeBlocks, fs`bfree, fs`roles
    ensures r.Err? ==> r.error == NoSpace || r.error == ZeroBlocks
    ensures fs.env.geo.nrBlocks <= |fs.bfree| && fs.freeBlocks == Count(fs.BfreeBits())
    ensures PlanOn(fs.env, old(fs.BfreeBits()), 0, n) == Plan(ErrorOf(r), fs.BfreeBits())
    ensures r.Err? ==> Stalled(fs.env, d0, r0, fs.Snap(), fs.roles, ino, x)
    ensures r.Ok? ==>
      && Planned(r.value, n, MAX_EXTENT_BLOCKS_LARGE) && |Phys(r.value)| == n && |r.value| <= 19
      && Rebuilding(fs.env, d0, r0, fs.Snap(), fs.roles, ino, x, head, Phys(r.value))
  {
    ghost var d, rr := fs.Snap(), fs.roles;
    r := AllocExtents(fs, n, ino, x);
    if r.Ok? {
      PlanFits(r.value, n);
      ExtentsAllocated(fs.env, d0, r0, d, rr, ino, x, head, fs.Snap(), fs.roles, r.value, n, MAX_EXTENT_BLOCKS_LARGE);
    } else {
      RolesMovedTouches(d, rr, fs.Snap(), fs.roles, ino, x);
      TouchesTrans(d0, r0, d, rr, fs.Snap(), fs.roles, ino, x);
    }
  }

  /** The old blocks of a part are given back and nothing else has happened. */
  ghost predicate GivenBack(e: Env, d0: Disk, r0: Roles, d: Disk, r: Roles, i: nat, x: bool) {
    && Inv(e, d0, r0) && Live(d0, i)
    && Rebuilding(e, d0, r0, d, r, i, x, Head(d0.inodes[i], x), [])
    && d == d0.(bfree := FreedBits(d0.bfree, MapOf(d0, i, x)), freeBlocks := d.freeBlocks)
    && (Head(d0.inodes[i], x) == 0 ==> d == d0 && r == r0)
  }

  /** Index block and extents for `n` blocks of a part whose old blocks are given back. */
  method ClaimPart(fs: LolelfFs, ino: nat, x: bool, n: nat, ghost d0: Disk, ghost r0: Roles) returns (r: Result<(nat, seq<Extent>)>)
    requires GivenBack(fs.env, d0, r0, fs.Snap(), fs.roles, ino, x)
    requires fs.env.cfg.maxLarge == 0 || fs.env.cfg.maxLarge >= MAX_EXTENT_BLOCKS_LARGE
    requires n <= 0x10_0000
    modifies fs`freeBlocks, fs`bfree, fs`roles
    ensures fs.Sound() && ErrorOf(r) == PartError(fs.env, d0, ino, x, n)
    ensures r == Err(NoIndexBlock) ==> Head(d0.inodes[ino], x) == 0 && fs.Snap() == d0 && fs.roles == r0
    ensures r.Err? && r.error != NoIndexBlock ==>
      (r.error == NoSpace || r.error == ZeroBlocks) && PartStopped(fs.env, d0, fs.Snap(), ino, x, n)
    ensures r.Ok? ==> var (head, tab) := r.value;
      && head != 0 && Planned(tab, n, MAX_EXTENT_BLOCKS_LARGE) && |Phys(tab)| == n && |tab| <= 19
      && Rebuilding(fs.env, d0, r0, fs.Snap(), fs.roles, ino, x, head, Phys(tab))
  {
    var head := EnsureHead(fs, Head(fs.inodes[ino], x), ino, x, d0, r0);
    if head.Err? {
      return Err(NoIndexBlock);
    }
    assert fs.BfreeBits() == ReadyBits(fs.env, d0, ino, x);
    var tab := GrowPart(fs, head.value, n, ino, x, d0, r0);
    if tab.Err? {
      StalledIsContained(fs.env, d0, r0, fs.Snap(), fs.roles, ino, x);
      return Err(tab.error);
    }
    return Ok((head.value, tab.value));
  }

  /** A part in place extended by one freshly allocated run. */
  lemma PartExtended(e: Env, d0: Disk, r0: Roles, d: Disk, r: Roles, i: nat, x: bool, head: nat, m: seq<nat>,
                     d': Disk, b: nat, len: nat)
    requires Rebuilding(e, d0, r0, d, r, i, x, head, m) && head != 0
    requires b + len <= e.geo.nrBlocks && forall c :: b <= c < b + len ==> d.bfree[c]
    requires Shape(e, d') && BitsOk(e, d', Assigned(r, b, len, Maker(i, x, |m|)))
    requires d' == d.(bfree := d'.bfree, freeBlocks := d'.freeBlocks)
    ensures Rebuilding(e, d0, r0, d', Assigned(r, b, len, Maker(i, x, |m|)), i, x, head, m + Range(b, len))
  {
    var r', m' := Assigned(r, b, len, Maker(i, x, |m|)), m + Range(b, len);
    ExtendBacked(e, d, r, r, m, b, len, i, x);
    GrownPart(r, r', head, m, m', i, x);
    RolesMovedTouches(d, r, d', r', i, x);
    TouchesTrans(d0, r0, d, r, d', r', i, x);
    assert r[head] == HeadRole(i, x) && !(b <= head < b + len);
  }

  /** Writing a block of the part keeps the rebuild going. */
  lemma PartBlockWritten(e: Env, d0: Disk, r0: Roles, d: Disk, r: Roles, i: nat, x: bool, head: nat, m: seq<nat>, b: nat, v: Block)
    requires Rebuilding(e, d0, r0, d, r, i, x, head, m)
    requires b < |r| && InPart(r[b], i, x)
    ensures Rebuilding(e, d0, r0, d.(blocks := d.blocks[b := v]), r, i, x, head, m)
  {
    WriteBlockTouches(d, r, b, v, i, x);
    TouchesTrans(d0, r0, d, r, d.(blocks := d.blocks[b := v]), r, i, x);
  }

  lemma RebuiltTouches(e: Env, d0: Disk, r0: Roles, d: Disk, r: Roles, i: nat, x: bool, head: nat, m: seq<nat>, n: Inode)
    requires Rebuilding(e, d0, r0, d, r, i, x, head, m) && Head(n, !x) == Head(d0.inodes[i], !x)
    ensures i < |d.inodes|
    ensures var d' := d.(inodes := d.inodes[i := n]); Touches(d0, r0, d', r, i, x) && Agree(d0, r0, d', r, i, !x)
  {
    var d' := d.(inodes := d.inodes[i := n]);
    WriteInodeTouches(d, r, n, i, x);
    TouchesTrans(d0, r0, d, r, d', r, i, x);
    TouchesAgree(d0, r0, d', r, i, x, i, !x);
  }

  lemma RebuiltPartOk(e: Env, d0: Disk, r0: Roles, d: Disk, r: Roles, i: nat, x: bool, head: nat, m: seq<nat>, n: Inode)
    requires Rebuilding(e, d0, r0, d, r, i, x, head, m) && Head(n, x) == head
    requires head != 0 ==> IsHead(d.blocks[head], x) && ValidIndex(HeadExtents(d.blocks[head], x))
    requires Phys(TableAt(d, head, x)) == m
    ensures i < |d.inodes|
    ensures var d' := d.(inodes := d.inodes[i := n]); PartOk(d', r, i, x) && Table(d', i, x) == TableAt(d, head, x)
  {
  }

  /** The index and the inode point at the rebuilt part: both parts are sound again. */
  lemma PartRebuilt(e: Env, d0: Disk, r0: Roles, d: Disk, r: Roles, i: nat, x: bool, head: nat, m: seq<nat>, n: Inode)
    requires Inv(e, d0, r0) && Live(d0, i) && Rebuilding(e, d0, r0, d, r, i, x, head, m)
    requires Head(n, x) == head && Head(n, !x) == Head(d0.inodes[i], !x)
    requires head != 0 ==> IsHead(d.blocks[head], x) && ValidIndex(HeadExtents(d.blocks[head], x))
    requires Phys(TableAt(d, head, x)) == m
    ensures var d' := d.(inodes := d.inodes[i := n]);
      && Touches(d0, r0, d', r, i, x)
      && PartOk(d', r, i, x) && Table(d', i, x) == TableAt(d, head, x)
      && Agree(d0, r0, d', r, i, !x)
      && PartOk(d0, r0, i, !x)
  {
    RebuiltTouches(e, d0, r0, d, r, i, x, head, m, n);
    RebuiltPartOk(e, d0, r0, d, r, i, x, head, m, n);
    NodeSound(e, d0, r0, i);
    assert PartOk(d0, r0, i, !x);
  }
}
