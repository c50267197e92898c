/** The Rust library's filesystem handle and its two allocators (lolelffs-tools/src/bitmap.rs). */
module RustFs {
  import opened Layout
  import opened Bits
  import opened Extents
  import opened DiskState

  /** Give the blocks of a run new roles. */
  function Assigned(r: Roles, start: nat, len: nat, mk: nat -> Role): (r': Roles)
    ensures |r'| == |r|
    ensures forall b {:trigger r'[b]} :: 0 <= b < |r| ==> r'[b] == if start <= b < start + len then mk(b - start) else r[b]
  {
    seq(|r|, b requires 0 <= b < |r| => if start <= b < start + len then mk(b - start) else r[b])
  }

  /** Mark the blocks of a map free. */
  function Released(r: Roles, m: seq<nat>): (r': Roles)
    ensures |r'| == |r|
    ensures forall b {:trigger r'[b]} :: 0 <= b < |r| ==> r'[b] == if b in m then Free else r[b]
  {
    seq(|r|, b requires 0 <= b < |r| => if b in m then Free else r[b])
  }

  function FreedBits(s: seq<bool>, m: seq<nat>): (s': seq<bool>)
    ensures |s'| == |s|
    ensures forall b {:trigger s'[b]} :: 0 <= b < |s| ==> s'[b] == (b in m || s[b])
  {
    seq(|s|, b requires 0 <= b < |s| => b in m || s[b])
  }

  class LolelfFs {
    const env: Env
    var freeInodes: nat
    var freeBlocks: nat
    var inodes: seq<Inode>
    var ifree: seq<bool>
    var bfree: seq<bool>
    var blocks: seq<Block>
    ghost var roles: Roles

    constructor (e: Env, d: Disk, ghost r: Roles)
      ensures env == e && Snap() == d && roles == r
    {
      env := e;
      freeInodes, freeBlocks := d.freeInodes, d.freeBlocks;
      inodes, ifree, bfree, blocks := d.inodes, d.ifree, d.bfree, d.blocks;
      roles := r;
    }

    function Snap(): Disk
      reads this
    {
      Disk(freeInodes, freeBlocks, inodes, ifree, bfree, blocks)
    }

    /** What the allocators alone keep. */
    ghost predicate Sound()
      reads this
    {
      Shape(env, Snap()) && BitsOk(env, Snap(), roles)
    }

    function IfreeBits(): seq<bool>
      requires env.geo.nrInodes <= |ifree|
      reads this
    {
      ifree[..env.geo.nrInodes]
    }

    function BfreeBits(): seq<bool>
      requires env.geo.nrBlocks <= |bfree|
      reads this
    {
      bfree[..env.geo.nrBlocks]
    }

    /** `alloc_inode`: takes the lowest free inode; fails only when there is none. */
    method AllocInode() returns (r: Result<nat>)
      requires Sound()
      modifies this`freeInodes, this`ifree
      ensures Sound()
      ensures r.Ok? ==>
        && r.value < env.geo.nrInodes && old(ifree)[r.value]
        && (forall j :: 0 <= j < r.value ==> !old(ifree)[j])
        && old(freeInodes) > 0
        && Snap() == old(Snap()).(ifree := old(ifree)[r.value := false], freeInodes := old(freeInodes) - 1)
      ensures r.Err? ==> r.error == NoFreeInode && Snap() == old(Snap())
      ensures r.Err? <==> forall j :: 0 <= j < env.geo.nrInodes ==> !old(ifree)[j]
    {
      CountPositive(IfreeBits());
      if freeInodes == 0 {
        return Err(NoFreeInode);
      }
      for p := 0 to |ifree|
        invariant Snap() == old(Snap())
        invariant forall j :: 0 <= j < p && j < env.geo.nrInodes ==> !ifree[j]
      {
        if ifree[p] && p < env.geo.nrInodes {
          CountUpdate(IfreeBits(), p, false);
          assert ifree[p := false][..env.geo.nrInodes] == IfreeBits()[p := false];
          ifree := ifree[p := false];
          freeInodes := freeInodes - 1;
          return Ok(p);
        }
      }
      return Err(NoFreeInode);
    }

    /** `free_inode` does not look at the bit: the counter stays right exactly for an inode that is taken. */
    method FreeInode(i: nat) returns (r: Result<()>)
      requires Sound()
      modifies this`freeInodes, this`ifree
      ensures Sound() <==> i >= env.geo.nrInodes || !old(ifree)[i]
      ensures r.Err? <==> i >= env.geo.nrInodes
      ensures r.Err? ==> r.error == BadInode && Snap() == old(Snap())
      ensures r.Ok? ==> Snap() == old(Snap()).(ifree := old(ifree)[i := true], freeInodes := old(freeInodes) + 1)
    {
      if i >= env.geo.nrInodes {
        return Err(BadInode);
      }
      CountUpdate(IfreeBits(), i, true);
      assert ifree[i := true][..env.geo.nrInodes] == IfreeBits()[i := true];
      ifree := ifree[i := true];
      freeInodes := freeInodes + 1;
      return Ok(());
    }

    /**
     * `alloc_blocks`: leftmost first fit at or above the data area. Exactly the found run changes;
     * failure is reported only when no such run exists.
     */
    method AllocBlocks(count: nat, ghost mk: nat -> Role) returns (r: Result<nat>)
      requires Sound()
      requires forall t :: 0 <= t < count ==> Owned(mk(t))
      modifies this`freeBlocks, this`bfree, this`roles
      ensures Sound()
      ensures r.Ok? ==>
        && count > 0
        && FirstFit(old(BfreeBits()), env.geo.DataStart(), r.value, count)
        && Snap() == old(Snap()).(bfree := SetRange(old(bfree), r.value, count, false), freeBlocks := Snap().freeBlocks)
        && old(freeBlocks) >= count && freeBlocks == old(freeBlocks) - count
        && roles == Assigned(old(roles), r.value, count, mk)
      ensures r.Err? ==>
        && r.error == (if count == 0 then ZeroBlocks else NoSpace)
        && Snap() == old(Snap()) && roles == old(roles)
      ensures r.Err? <==> count == 0 || forall p :: env.geo.DataStart() <= p ==> !Run(old(BfreeBits()), p, count)
    {
      if count == 0 {
        return Err(ZeroBlocks);
      }
      if count > freeBlocks {
        NoRunBeyondCount(BfreeBits(), count);
        return Err(NoSpace);
      }
      var dataStart := env.geo.DataStart();
      var nr := env.geo.nrBlocks;
      var bits := BfreeBits();
      var start := 0;
      var consecutive := 0;
      var b := dataStart;
      while b < nr && consecutive < count
        invariant dataStart <= b <= nr && consecutive <= count && consecutive <= b - dataStart
        invariant consecutive > 0 ==> start == b - consecutive
        invariant forall i :: b - consecutive <= i < b ==> bits[i]
        invariant forall p :: dataStart <= p < b - consecutive ==> !Run(bits, p, count)
      {
        if bfree[b] {
          if consecutive == 0 {
            start := b;
          }
          consecutive := consecutive + 1;
        } else {
          assert !bits[b];
          forall p | dataStart <= p < b + 1 ensures !Run(bits, p, count) {
            assert b - consecutive <= p ==> p <= b < p + count;
          }
          consecutive := 0;
        }
        b := b + 1;
      }
      if consecutive < count {
        forall p | dataStart <= p ensures !Run(bits, p, count) {}
        return Err(NoSpace);
      }
      TakeRun(start, count, mk);
      return Ok(start);
    }

    /** Mark the run that was found. */
    method TakeRun(start: nat, count: nat, ghost mk: nat -> Role)
      requires Sound() && env.geo.DataStart() <= start && Run(BfreeBits(), start, count) && count <= freeBlocks
      requires forall t :: 0 <= t < count ==> Owned(mk(t))
      modifies this`freeBlocks, this`bfree, this`roles
      ensures Sound()
      ensures Snap() == old(Snap()).(bfree := SetRange(old(bfree), start, count, false), freeBlocks := old(freeBlocks) - count)
      ensures roles == Assigned(old(roles), start, count, mk)
    {
      assert SetRange(bfree, start, 0, false) == bfree;
      RunTaken(bfree, env.geo.nrBlocks, start, count);
      MarkSound(env, Snap(), roles, start, count, false, mk);
      for i := 0 to count
        invariant Snap() == old(Snap()).(bfree := SetRange(old(bfree), start, i, false))
        invariant roles == old(roles)
      {
        bfree := bfree[start + i := false];
        assert bfree == SetRange(old(bfree), start, i + 1, false);
      }
      freeBlocks := freeBlocks - count;
      roles := Assigned(roles, start, count, mk);
    }

    /**
     * `free_blocks` does not look at the bits either: bitmap and counter agree afterwards exactly for a
     * run of taken data blocks. A run past the last block is refused half way.
     */
    method FreeBlocks(start: nat, count: nat) returns (r: Result<()>)
      requires Sound()
      modifies this`freeBlocks, this`bfree, this`roles
      ensures r.Err? <==> start + count > env.geo.nrBlocks && count > 0
      ensures r.Ok? ==>
        && (Sound() <==> count == 0 || (env.geo.DataStart() <= start && Taken(old(BfreeBits()), start, count)))
        && Snap() == old(Snap()).(bfree := SetRange(old(bfree), start, count, true), freeBlocks := old(freeBlocks) + count)
        && roles == Assigned(old(roles), start, count, _ => Free)
      ensures r.Err? ==>
        && r.error == BadBlock
        && Snap() == old(Snap()).(bfree := SetRange(old(bfree), start, count, true)[..env.geo.nrBlocks] + old(bfree)[env.geo.nrBlocks..])
    {
      if count == 0 {
        assert Assigned(roles, start, count, _ => Free) == roles && SetRange(bfree, start, count, true) == bfree;
        return Ok(());
      }
      r := ClearRun(start, count);
      if r.Err? {
        return;
      }
      FreedSoundIff(env, old(Snap()), roles, start, count, _ => Free);
      freeBlocks := freeBlocks + count;
      roles := Assigned(roles, start, count, _ => Free);
    }

    /** Freeing one taken data block. */
    method FreeBlock(b: nat)
      requires Sound() && env.geo.DataStart() <= b < env.geo.nrBlocks && !bfree[b]
      modifies this`freeBlocks, this`bfree, this`roles
      ensures Sound()
      ensures Snap() == old(Snap()).(bfree := old(bfree)[b := true], freeBlocks := old(freeBlocks) + 1)
      ensures roles == Assigned(old(roles), b, 1, _ => Free)
    {
      assert Taken(BfreeBits(), b, 1);
      assert SetRange(bfree, b, 1, true) == bfree[b := true];
      var _ := FreeBlocks(b, 1);
    }

    /** The loop of `free_blocks`. */
    method ClearRun(start: nat, count: nat) returns (r: Result<()>)
      requires env.geo.nrBlocks <= |bfree| && count > 0
      modifies this`bfree
      ensures r.Err? <==> start + count > env.geo.nrBlocks
      ensures r.Ok? ==> bfree == SetRange(old(bfree), start, count, true)
      ensures r.Err? ==>
        r.error == BadBlock && bfree == SetRange(old(bfree), start, count, true)[..env.geo.nrBlocks] + old(bfree)[env.geo.nrBlocks..]
    {
      assert SetRange(bfree, start, 0, true) == bfree;
      for i := 0 to count
        invariant start + i <= env.geo.nrBlocks || i == 0
        invariant bfree == SetRange(old(bfree), start, i, true)
      {
        if start + i >= env.geo.nrBlocks {
          assert bfree == SetRange(old(bfree), start, count, true)[..env.geo.nrBlocks] + old(bfree)[env.geo.nrBlocks..];
          return Err(BadBlock);
        }
        bfree := bfree[start + i := true];
        assert bfree == SetRange(old(bfree), start, i + 1, true);
      }
      return Ok(());
    }
  }

  /** Freeing a run on the device keeps the invariant exactly when it is a run of taken data blocks. */
  lemma FreedSoundIff(e: Env, d: Disk, r: Roles, start: nat, count: nat, mk: nat -> Role)
    requires Shape(e, d) && BitsOk(e, d, r) && 0 < count && start + count <= e.geo.nrBlocks && forall t: nat :: mk(t) == Free
    ensures BitsOk(e, d.(bfree := SetRange(d.bfree, start, count, true), freeBlocks := d.freeBlocks + count), Assigned(r, start, count, mk))
       <==> e.geo.DataStart() <= start && Taken(d.bfree[..e.geo.nrBlocks], start, count)
  {
    var nr := e.geo.nrBlocks;
    var r' := Assigned(r, start, count, mk);
    assert SetRange(d.bfree, start, count, true)[..nr] == SetRange(d.bfree[..nr], start, count, true);
    GainsAtMost(d.bfree[..nr], start, count);
    if start < e.geo.DataStart() {
      assert r'[start].Free?;
    } else if Taken(d.bfree[..nr], start, count) {
      MarkSound(e, d, r, start, count, true, mk);
    }
  }

  lemma RunTaken(s: seq<bool>, nr: nat, start: nat, len: nat)
    requires nr <= |s| && Run(s[..nr], start, len)
    ensures start + len <= nr && forall b :: start <= b < start + len ==> s[b]
  {
    forall b | start <= b < start + len ensures s[b] { assert s[..nr][b]; }
  }

  lemma ReleaseStep(s: seq<bool>, r: Roles, m: seq<nat>, start: nat, len: nat)
    ensures Released(r, m + Range(start, len)) == Assigned(Released(r, m), start, len, _ => Free)
    ensures FreedBits(s, m + Range(start, len)) == SetRange(FreedBits(s, m), start, len, true)
  {
    var t := Range(start, len);
    forall b ensures b in m + t <==> b in m || start <= b < start + len {
      assert start <= b < start + len ==> t[b - start] == b;
    }
  }

  /**
   * The loop that `write_file`, `unlink`, `rmdir` and the attribute operations share: free the
   * blocks of every extent up to the first empty slot.
   */
  method FreeTable(fs: LolelfFs, exts: seq<Extent>, ghost i: nat, ghost x: bool) returns (r: Result<()>)
    requires fs.Sound() && Backed(fs.roles, Phys(Used(exts)), i, x)
    modifies fs`freeBlocks, fs`bfree, fs`roles
    ensures r.Ok? && fs.Sound()
    ensures var m := Phys(Used(exts));
      && fs.Snap() == old(fs.Snap()).(bfree := FreedBits(old(fs.bfree), m), freeBlocks := old(fs.freeBlocks) + |m|)
      && fs.roles == Released(old(fs.roles), m)
  {
    ghost var tab, d0, r0 := Used(exts), fs.Snap(), fs.roles;
    NothingFreed(d0, r0, tab);
    var j := 0;
    while j < |exts| && exts[j].len > 0
      invariant 0 <= j <= |tab| <= |exts|
      invariant fs.Sound() && FreedUpTo(d0, r0, fs.Snap(), fs.roles, tab, j)
    {
      r := FreeExtent(fs, exts[j], tab, j, i, x, d0, r0);
      j := j + 1;
    }
    assert tab[..|tab|] == tab;
    return Ok(());
  }

  /** The blocks of the first `j` extents are free again; nothing else changed. */
  ghost predicate FreedUpTo(d0: Disk, r0: Roles, d: Disk, r: Roles, tab: seq<Extent>, j: nat)
    requires j <= |tab|
  {
    && d == d0.(bfree := FreedBits(d0.bfree, Phys(tab[..j])), freeBlocks := d0.freeBlocks + Offset(tab, j))
    && r == Released(r0, Phys(tab[..j]))
  }

  lemma NothingFreed(d: Disk, r: Roles, tab: seq<Extent>)
    ensures FreedUpTo(d, r, d, r, tab, 0)
  {
    assert tab[..0] == [];
    assert Released(r, []) == r && FreedBits(d.bfree, []) == d.bfree;
  }

  method FreeExtent(fs: LolelfFs, e: Extent, ghost tab: seq<Extent>, ghost j: nat, ghost i: nat, ghost x: bool, ghost d0: Disk, ghost r0: Roles)
    returns (r: Result<()>)
    requires fs.Sound() && j < |tab| && tab[j] == e && e.len > 0 && Backed(r0, Phys(tab), i, x)
    requires FreedUpTo(d0, r0, fs.Snap(), fs.roles, tab, j)
    modifies fs`freeBlocks, fs`bfree, fs`roles
    ensures r.Ok? && fs.Sound() && FreedUpTo(d0, r0, fs.Snap(), fs.roles, tab, j + 1)
  {
    FreeStep(fs.env, fs.Snap(), r0, d0.bfree, tab, j, i, x);
    r := fs.FreeBlocks(e.start, e.len);
  }

  /** One turn of the loop. */
  lemma FreeStep(e: Env, d: Disk, r0: Roles, s0: seq<bool>, tab: seq<Extent>, j: nat, i: nat, x: bool)
    requires Shape(e, d) && j < |tab| && tab[j].len > 0 && d.bfree == FreedBits(s0, Phys(tab[..j]))
    requires BitsOk(e, d, Released(r0, Phys(tab[..j]))) && Backed(r0, Phys(tab), i, x)
    ensures e.geo.DataStart() <= tab[j].start && tab[j].start + tab[j].len <= e.geo.nrBlocks
    ensures forall b :: tab[j].start <= b < tab[j].start + tab[j].len ==> !d.bfree[b]
    ensures Released(r0, Phys(tab[..j + 1])) == Assigned(Released(r0, Phys(tab[..j])), tab[j].start, tab[j].len, _ => Free)
    ensures FreedBits(s0, Phys(tab[..j + 1])) == SetRange(d.bfree, tab[j].start, tab[j].len, true)
    ensures Offset(tab, j + 1) == Offset(tab, j) + tab[j].len
  {
    TableExtentTaken(e, d, r0, Released(r0, Phys(tab[..j])), tab, j, i, x);
    ReleaseStep(s0, r0, Phys(tab[..j]), tab[j].start, tab[j].len);
    OffsetStep(tab, j);
  }

  /** While a table is being freed, its next extent is still taken and lies in the data area. */
  lemma TableExtentTaken(e: Env, d: Disk, r0: Roles, r: Roles, tab: seq<Extent>, j: nat, i: nat, x: bool)
    requires Shape(e, d) && j < |tab| && tab[j].len > 0 && BitsOk(e, d, r)
    requires r == Released(r0, Phys(tab[..j])) && Backed(r0, Phys(tab), i, x)
    ensures e.geo.DataStart() <= tab[j].start && tab[j].start + tab[j].len <= e.geo.nrBlocks
    ensures forall b :: tab[j].start <= b < tab[j].start + tab[j].len ==> !d.bfree[b]
  {
    TableBlockTaken(e, d, r0, r, tab, j, 0, i, x);
    TableBlockTaken(e, d, r0, r, tab, j, tab[j].len - 1, i, x);
    forall b | tab[j].start <= b < tab[j].start + tab[j].len ensures !d.bfree[b] {
      TableBlockTaken(e, d, r0, r, tab, j, b - tab[j].start, i, x);
    }
  }

  lemma TableBlockTaken(e: Env, d: Disk, r0: Roles, r: Roles, tab: seq<Extent>, j: nat, t: nat, i: nat, x: bool)
    requires Shape(e, d) && j < |tab| && t < tab[j].len && BitsOk(e, d, r)
    requires r == Released(r0, Phys(tab[..j])) && Backed(r0, Phys(tab), i, x)
    ensures e.geo.DataStart() <= tab[j].start + t < e.geo.nrBlocks && !d.bfree[tab[j].start + t]
  {
    NotFreedYet(r0, tab, j, t, i, x);
    assert r[tab[j].start + t] == r0[tab[j].start + t];
  }

  lemma NotFreedYet(r0: Roles, tab: seq<Extent>, j: nat, t: nat, i: nat, x: bool)
    requires j < |tab| && t < tab[j].len && Backed(r0, Phys(tab), i, x)
    ensures tab[j].start + t < |r0| && Owned(r0[tab[j].start + t])
    ensures tab[j].start + t !in Phys(tab[..j])
  {
    var m, o := Phys(tab), Offset(tab, j);
    PhysAt(tab, j, t);
    PhysPrefix(tab, j);
    assert r0[m[o + t]] == DataRole(i, x, o + t);
    forall q | 0 <= q < o ensures Phys(tab[..j])[q] != m[o + t] {
      assert m[q] == m[..o][q];
      assert r0[m[q]] == DataRole(i, x, q);
    }
  }

  /** Flipping a run of bits, moving the counter and relabelling the run keeps bitmap, counter and roles in step. */
  lemma MarkSound(e: Env, d: Disk, r: Roles, start: nat, count: nat, v: bool, mk: nat -> Role)
    requires Shape(e, d) && BitsOk(e, d, r)
    requires e.geo.DataStart() <= start && start + count <= e.geo.nrBlocks
    requires forall b :: start <= b < start + count ==> d.bfree[b] == !v
    requires forall t :: 0 <= t < count ==> if v then mk(t) == Free else Owned(mk(t))
    ensures !v ==> count <= d.freeBlocks
    ensures BitsOk(e, d.(bfree := SetRange(d.bfree, start, count, v),
                         freeBlocks := if v then d.freeBlocks + count else d.freeBlocks - count),
                   Assigned(r, start, count, mk))
  {
    var nr := e.geo.nrBlocks;
    CountSetRange(d.bfree[..nr], start, count, v);
    assert SetRange(d.bfree, start, count, v)[..nr] == SetRange(d.bfree[..nr], start, count, v);
  }

  /** One block can be allocated exactly when the counter says so. */
  lemma OneBlockFits(e: Env, d: Disk, r: Roles)
    requires Shape(e, d) && BitsOk(e, d, r)
    ensures d.freeBlocks > 0 <==> exists p :: e.geo.DataStart() <= p && Run(d.bfree[..e.geo.nrBlocks], p, 1)
  {
    var bits := d.bfree[..e.geo.nrBlocks];
    CountPositive(bits);
    forall p | e.geo.DataStart() <= p && Run(bits, p, 1) ensures bits[p] {}
    forall p | 0 <= p < |bits| && bits[p] ensures e.geo.DataStart() <= p && Run(bits, p, 1) {
      assert r[p].Free?;
    }
  }

  lemma NoRunBeyondCount(bits: seq<bool>, count: nat)
    requires count > Count(bits)
    ensures forall p: nat :: !Run(bits, p, count)
  {
    forall p: nat ensures !Run(bits, p, count) {
      if Run(bits, p, count) {
        CountSetRange(bits, p, count, false);
        assert false;
      }
    }
  }
}
