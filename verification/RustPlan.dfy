/** The extent planning loop that `write_file`, `set_xattr` and `remove_xattr` share. */
module RustPlan {
  import opened Layout
  import opened Bits
  import opened Extents
  import opened Content
  import opened DiskState
  import opened RustFs

  /** `role` marks block `b` as the block that map `m` of inode `i` gives it. */
  predicate NewRole(role: Role, m: seq<nat>, i: nat, x: bool, b: nat) {
    exists k :: 0 <= k < |m| && m[k] == b && role == DataRole(i, x, k)
  }

  /** Only formerly free blocks changed role, and each now backs its place in `m`. */
  ghost predicate Grown(r0: Roles, r: Roles, m: seq<nat>, i: nat, x: bool) {
    && |r| == |r0|
    && forall b {:trigger r[b]} {:trigger r0[b]} :: 0 <= b < |r0| && r[b] != r0[b] ==> r0[b].Free? && NewRole(r[b], m, i, x, b)
  }

  function Maker(i: nat, x: bool, base: nat): (f: nat -> Role)
    ensures forall t: nat :: f(t) == DataRole(i, x, base + t) && Owned(f(t))
  {
    (t: nat) => DataRole(i, x, base + t)
  }

  /** Backing a map extended by a freshly assigned run. */
  lemma ExtendBacked(e: Env, d: Disk, r0: Roles, r: Roles, m: seq<nat>, start: nat, len: nat, i: nat, x: bool)
    requires Shape(e, d) && BitsOk(e, d, r) && Backed(r, m, i, x) && Grown(r0, r, m, i, x)
    requires start + len <= e.geo.nrBlocks && forall b :: start <= b < start + len ==> d.bfree[b]
    ensures var r' := Assigned(r, start, len, Maker(i, x, |m|)); var m' := m + Range(start, len);
            Backed(r', m', i, x) && Grown(r0, r', m', i, x)
  {
    var r', m' := Assigned(r, start, len, Maker(i, x, |m|)), m + Range(start, len);
    forall k | 0 <= k < |m'| ensures m'[k] < |r'| && r'[m'[k]] == DataRole(i, x, k) {
      if k < |m| {
        assert m'[k] == m[k] && Owned(r[m[k]]);
        assert !(start <= m[k] < start + len);
      }
    }
    forall b | 0 <= b < |r0| && r'[b] != r0[b] ensures r0[b].Free? && NewRole(r'[b], m', i, x, b) {
      if start <= b < start + len {
        assert r[b].Free?;
        assert r0[b] == r[b];
        assert m'[|m| + (b - start)] == b && r'[b] == DataRole(i, x, |m| + (b - start));
      } else {
        var k :| 0 <= k < |m| && m[k] == b && r[b] == DataRole(i, x, k);
        assert m'[k] == b;
      }
    }
  }

  /** `tab` follows the plan so far and backs what it maps. */
  ghost predicate OnPlan(r0: Roles, r: Roles, tab: seq<Extent>, n: nat, max: nat, i: nat, x: bool) {
    && Planned(tab, n, max)
    && (forall j :: 0 <= j < |tab| ==> tab[j] == PlainExtent(tab[j].block, tab[j].len, tab[j].start))
    && Backed(r, Phys(tab), i, x) && Grown(r0, r, Phys(tab), i, x)
  }

  lemma PlanStart(r: Roles, n: nat, max: nat, i: nat, x: bool)
    ensures OnPlan(r, r, [], n, max, i, x) && Phys([]) == []
  {
  }

  lemma PlanContinues(e: Env, d: Disk, r0: Roles, r: Roles, tab: seq<Extent>, n: nat, max: nat, start: nat, len: nat, i: nat, x: bool)
    requires OnPlan(r0, r, tab, n, max, i, x) && Shape(e, d) && BitsOk(e, d, r)
    requires max > 0 && |Phys(tab)| < n && len == PlanStep(n, |Phys(tab)|, max)
    requires start + len <= e.geo.nrBlocks && forall b :: start <= b < start + len ==> d.bfree[b]
    ensures var t := tab + [PlainExtent(|Phys(tab)|, len, start)];
            && OnPlan(r0, Assigned(r, start, len, Maker(i, x, |Phys(tab)|)), t, n, max, i, x)
            && |Phys(t)| == |Phys(tab)| + len
  {
    ExtendPlanned(tab, PlainExtent(|Phys(tab)|, len, start), n, max);
    ExtendBacked(e, d, r0, r, Phys(tab), start, len, i, x);
  }

  /** Size of the next extent once `done` of `n` blocks are allocated. */
  function NextSize(e: Env, free: nat, done: nat, n: nat): nat
    requires done <= n
  {
    var max := EffectiveMax(e.cfg.maxLarge);
    Min(Min(OptimalSize(done, max, free), n - done), max)
  }

  /** What the planning loop comes to: the error it ends with, if any, and the free bits it leaves. */
  datatype Plan = Plan(error: Option<Error>, bits: seq<bool>)

  /** The loop from `done` blocks on: leftmost first fit for one extent of the scheduled size after the other. */
  ghost function PlanOn(e: Env, bits: seq<bool>, done: nat, n: nat): Plan
    requires done <= n
    decreases n - done
  {
    if done == n then Plan(None, bits)
    else
      var size := NextSize(e, Count(bits), done, n);
      if size == 0 then Plan(Some(ZeroBlocks), bits)
      else if !RunFrom(bits, e.geo.DataStart(), size) then Plan(Some(NoSpace), bits)
      else PlanOn(e, Took(bits, e.geo.DataStart(), size), done + size, n)
  }

  /** The bits after a first-fit allocation. */
  ghost function Took(bits: seq<bool>, lo: nat, len: nat): seq<bool>
    requires RunFrom(bits, lo, len)
  {
    SetRange(bits, FitAt(bits, lo, len), len, false)
  }

  /** The one outcome of `alloc_blocks`. */
  lemma TookIs(bits: seq<bool>, lo: nat, len: nat, b: nat)
    requires FirstFit(bits, lo, b, len)
    ensures RunFrom(bits, lo, len) && Took(bits, lo, len) == SetRange(bits, b, len, false)
  {
    FirstFitUnique(bits, lo, b, FitAt(bits, lo, len), len);
  }

  /** A plan that comes to its end has taken exactly the blocks asked for. */
  lemma {:induction false} PlanTakes(e: Env, bits: seq<bool>, done: nat, n: nat)
    requires done <= n
    ensures |PlanOn(e, bits, done, n).bits| == |bits|
    ensures PlanOn(e, bits, done, n).error == None ==> Count(PlanOn(e, bits, done, n).bits) + (n - done) == Count(bits)
    decreases n - done
  {
    if done < n {
      var size := NextSize(e, Count(bits), done, n);
      if size > 0 && RunFrom(bits, e.geo.DataStart(), size) {
        CountSetRange(bits, FitAt(bits, e.geo.DataStart(), size), size, false);
        PlanTakes(e, Took(bits, e.geo.DataStart(), size), done + size, n);
      }
    }
  }

  /** The table follows the plan, or the disk is full before the end of it. */
  ghost predicate Planning(e: Env, free: nat, r0: Roles, r: Roles, tab: seq<Extent>, done: nat, n: nat, i: nat, x: bool) {
    || (free == 0 && done < n)
    || (OnPlan(r0, r, tab, n, EffectiveMax(e.cfg.maxLarge), i, x) && |Phys(tab)| == done)
  }

  /** The run for the next extent, as the plan says. */
  method NextRun(fs: LolelfFs, done: nat, n: nat, ghost i: nat, ghost x: bool, ghost plan: Plan) returns (r: Result<Extent>)
    requires fs.Sound() && done < n && PlanOn(fs.env, fs.BfreeBits(), done, n) == plan
    modifies fs`freeBlocks, fs`bfree, fs`roles
    ensures fs.Sound() && fs.Snap() == old(fs.Snap()).(freeBlocks := fs.freeBlocks, bfree := fs.bfree)
    ensures r.Err? ==>
      && (r.error == NoSpace || r.error == ZeroBlocks) && plan == Plan(Some(r.error), fs.BfreeBits())
      && fs.Snap() == old(fs.Snap()) && fs.roles == old(fs.roles)
    ensures r.Ok? ==> var len := r.value.len;
      && 0 < len <= n - done && len == NextSize(fs.env, old(fs.freeBlocks), done, n)
      && r.value == PlainExtent(done, len, r.value.start) && fs.freeBlocks + len == old(fs.freeBlocks)
      && r.value.start + len <= fs.env.geo.nrBlocks && (forall b :: r.value.start <= b < r.value.start + len ==> old(fs.bfree)[b])
      && fs.roles == Assigned(old(fs.roles), r.value.start, len, Maker(i, x, done))
      && PlanOn(fs.env, fs.BfreeBits(), done + len, n) == plan
  {
    var size := NextSize(fs.env, fs.freeBlocks, done, n);
    ghost var s := fs.bfree;
    assert fs.BfreeBits() == s[..fs.env.geo.nrBlocks];
    var a := fs.AllocBlocks(size, Maker(i, x, done));
    if a.Err? {
      return Err(a.error);
    }
    RunIsFree(s, fs.env.geo.nrBlocks, a.value, size);
    BitsTaken(s, fs.env.geo.nrBlocks, fs.env.geo.DataStart(), a.value, size);
    return Ok(PlainExtent(done, size, a.value));
  }

  /** Allocate the next extent. */
  method NextExtent(fs: LolelfFs, done: nat, n: nat, ghost i: nat, ghost x: bool, ghost r0: Roles, ghost tab: seq<Extent>, ghost plan: Plan)
    returns (r: Result<Extent>)
    requires fs.Sound() && done < n && Planning(fs.env, fs.freeBlocks, r0, fs.roles, tab, done, n, i, x)
    requires RolesMoved(r0, fs.roles, i, x) && PlanOn(fs.env, fs.BfreeBits(), done, n) == plan
    modifies fs`freeBlocks, fs`bfree, fs`roles
    ensures fs.Sound() && fs.Snap() == old(fs.Snap()).(freeBlocks := fs.freeBlocks, bfree := fs.bfree)
    ensures RolesMoved(r0, fs.roles, i, x)
    ensures r.Err? ==> (r.error == NoSpace || r.error == ZeroBlocks) && plan == Plan(Some(r.error), fs.BfreeBits())
    ensures r.Ok? ==>
      && 0 < r.value.len <= n - done && fs.freeBlocks + r.value.len == old(fs.freeBlocks)
      && PlanOn(fs.env, fs.BfreeBits(), done + r.value.len, n) == plan
      && Planning(fs.env, fs.freeBlocks, r0, fs.roles, tab + [r.value], done + r.value.len, n, i, x)
  {
    ghost var d1, r1 := fs.Snap(), fs.roles;
    r := NextRun(fs, done, n, i, x, plan);
    if r.Ok? {
      ghost var max := EffectiveMax(fs.env.cfg.maxLarge);
      TakenMoved(fs.env, d1, r1, r.value.start, r.value.len, done, i, x);
      MovedTrans(r0, r1, fs.roles, i, x);
      if d1.freeBlocks >= PlanStep(n, done, max) {
        PlanContinues(fs.env, d1, r0, r1, tab, n, max, r.value.start, r.value.len, i, x);
      }
    }
  }

  /**
   * Allocates `n` blocks as extents on the adaptive schedule. On success the extents tile
   * [0, n) exactly as planned, whatever the free count, and back the map they form. Result and free
   * bits are those of the plan on the bits before the call.
   */
  method AllocExtents(fs: LolelfFs, n: nat, ghost i: nat, ghost x: bool) returns (r: Result<seq<Extent>>)
    requires fs.Sound()
    modifies fs`freeBlocks, fs`bfree, fs`roles
    ensures fs.Sound()
    ensures fs.Snap() == old(fs.Snap()).(freeBlocks := fs.freeBlocks, bfree := fs.bfree)
    ensures RolesMoved(old(fs.roles), fs.roles, i, x)
    ensures r.Err? ==> r.error == NoSpace || r.error == ZeroBlocks
    ensures PlanOn(fs.env, old(fs.BfreeBits()), 0, n) == Plan(ErrorOf(r), fs.BfreeBits())
    ensures r.Ok? ==>
      && OnPlan(old(fs.roles), fs.roles, r.value, n, EffectiveMax(fs.env.cfg.maxLarge), i, x)
      && |Phys(r.value)| == n
      && fs.freeBlocks + n == old(fs.freeBlocks)
  {
    var tab: seq<Extent> := [];
    var done := 0;
    ghost var r0, plan := fs.roles, PlanOn(fs.env, fs.BfreeBits(), 0, n);
    PlanStart(r0, n, EffectiveMax(fs.env.cfg.maxLarge), i, x);
    while done < n
      invariant fs.Sound()
      invariant fs.Snap() == old(fs.Snap()).(freeBlocks := fs.freeBlocks, bfree := fs.bfree)
      invariant RolesMoved(r0, fs.roles, i, x)
      invariant 0 <= done <= n
      invariant fs.freeBlocks + done == old(fs.freeBlocks)
      invariant PlanOn(fs.env, fs.BfreeBits(), done, n) == plan
      invariant Planning(fs.env, fs.freeBlocks, r0, fs.roles, tab, done, n, i, x)
      decreases n - done
    {
      var e := NextExtent(fs, done, n, i, x, r0, tab, plan);
      if e.Err? {
        return Err(e.error);
      }
      tab := tab + [e.value];
      done := done + e.value.len;
    }
    return Ok(tab);
  }

  /** The run that was taken, on the bits that count. */
  lemma BitsTaken(s: seq<bool>, nr: nat, lo: nat, b: nat, len: nat)
    requires nr <= |s| && FirstFit(s[..nr], lo, b, len)
    ensures RunFrom(s[..nr], lo, len) && SetRange(s, b, len, false)[..nr] == Took(s[..nr], lo, len)
  {
    TookIs(s[..nr], lo, len, b);
  }

  lemma MovedTrans(r0: Roles, r1: Roles, r2: Roles, i: nat, x: bool)
    requires RolesMoved(r0, r1, i, x) && RolesMoved(r1, r2, i, x)
    ensures RolesMoved(r0, r2, i, x)
  {
  }

  /** Free blocks taken for a part move only between free and the part. */
  lemma TakenMoved(e: Env, d: Disk, r: Roles, start: nat, len: nat, o: nat, i: nat, x: bool)
    requires Shape(e, d) && BitsOk(e, d, r) && start + len <= e.geo.nrBlocks && forall b :: start <= b < start + len ==> d.bfree[b]
    ensures RolesMoved(r, Assigned(r, start, len, Maker(i, x, o)), i, x)
  {
    var r' := Assigned(r, start, len, Maker(i, x, o));
    forall b | 0 <= b < |r| && r[b] != r'[b] ensures !Foreign(r[b], i, x) && !Foreign(r'[b], i, x) {
      assert start <= b < start + len && r[b].Free?;
    }
  }

  lemma RunIsFree(bits: seq<bool>, n: nat, start: nat, len: nat)
    requires n <= |bits| && Run(bits[..n], start, len)
    ensures start + len <= n && forall b :: start <= b < start + len ==> bits[b]
  {
    forall b | start <= b < start + len ensures bits[b] {
      assert bits[..n][b];
    }
  }

  lemma ExtendPlanned(tab: seq<Extent>, e: Extent, n: nat, max: nat)
    requires Planned(tab, n, max) && max > 0 && |Phys(tab)| < n
    requires e.block == |Phys(tab)| && e.len == PlanStep(n, e.block, max) && SmallFields(e)
    ensures Planned(tab + [e], n, max)
    ensures Phys(tab + [e]) == Phys(tab) + Range(e.start, e.len)
  {
    TilesAppend(tab, e);
  }

  // ---- roles of one part while it is rebuilt ----

  /** After its blocks are freed a part owns only its index block. */
  lemma ReleasedPart(r: Roles, head: nat, m: seq<nat>, i: nat, x: bool)
    requires OwnsOnly(r, head, m, i, x) && Backed(r, m, i, x)
    ensures OwnsOnly(Released(r, m), head, [], i, x)
    ensures RolesMoved(r, Released(r, m), i, x)
  {
    var r' := Released(r, m);
    forall b | 0 <= b < |r'| && InPart(r'[b], i, x) ensures Justified(head, [], r'[b], b) {
      assert b !in m && r[b] == r'[b];
      assert Justified(head, m, r[b], b);
    }
    forall b | 0 <= b < |r| && r[b] != r'[b] ensures !Foreign(r[b], i, x) && !Foreign(r'[b], i, x) {
      var k :| 0 <= k < |m| && m[k] == b;
    }
  }

  /** A fresh index block becomes the head of a part that owned nothing. */
  lemma AssignedHead(e: Env, d: Disk, r: Roles, b: nat, i: nat, x: bool, mk: nat -> Role)
    requires Shape(e, d) && BitsOk(e, d, r) && b < |r| && d.bfree[b] && mk(0) == HeadRole(i, x)
    requires OwnsOnly(r, 0, [], i, x)
    ensures OwnsOnly(Assigned(r, b, 1, mk), b, [], i, x) && Assigned(r, b, 1, mk)[b] == HeadRole(i, x)
    ensures RolesMoved(r, Assigned(r, b, 1, mk), i, x)
  {
    var r' := Assigned(r, b, 1, mk);
    forall c | 0 <= c < |r'| && InPart(r'[c], i, x) ensures Justified(b, [], r'[c], c) {
      if c != b {
        assert r[c] == r'[c];
        assert Justified(0, [], r[c], c);
        assert r[0].Meta?;
      }
    }
  }

  /** Newly backed blocks extend what the part owns. */
  lemma GrownPart(r0: Roles, r: Roles, head: nat, m0: seq<nat>, m: seq<nat>, i: nat, x: bool)
    requires OwnsOnly(r0, head, m0, i, x) && m0 <= m && Grown(r0, r, m, i, x)
    ensures OwnsOnly(r, head, m, i, x)
    ensures RolesMoved(r0, r, i, x)
  {
    forall b | 0 <= b < |r| && InPart(r[b], i, x) ensures Justified(head, m, r[b], b) {
      if r[b] == r0[b] {
        assert Justified(head, m0, r0[b], b);
      } else {
        assert NewRole(r[b], m, i, x, b);
      }
    }
    forall b | 0 <= b < |r| && r0[b] != r[b] ensures !Foreign(r0[b], i, x) && !Foreign(r[b], i, x) {
      assert NewRole(r[b], m, i, x, b);
    }
  }

  /** The map of a backed part has no block twice. */
  lemma BackedInjective(r: Roles, m: seq<nat>, i: nat, x: bool, k: nat, l: nat)
    requires Backed(r, m, i, x) && k < |m| && l < |m| && k != l
    ensures m[k] != m[l]
  {
    assert r[m[k]] == DataRole(i, x, k);
    assert r[m[l]] == DataRole(i, x, l);
  }
}
