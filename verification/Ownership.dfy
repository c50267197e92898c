/** What the invariant means for a reader of the disk: no leak, no block used twice. */
module Ownership {
  import opened Layout
  import opened Bits
  import opened DiskState

  /** A place on disk that holds a block number: an inode field, or an extent of an index block. */
  datatype Ref = IndexRef(x: bool) | MapRef(x: bool, k: nat)

  /** Live inode `i` refers to block `b` at `p`. */
  predicate Refers(d: Disk, i: nat, p: Ref, b: nat) {
    && Live(d, i)
    && match p
       case IndexRef(x) => b != 0 && Head(d.inodes[i], x) == b
       case MapRef(x, k) => k < |MapOf(d, i, x)| && MapOf(d, i, x)[k] == b
  }

  function RoleOf(i: nat, p: Ref): Role {
    match p
    case IndexRef(x) => HeadRole(i, x)
    case MapRef(x, k) => DataRole(i, x, k)
  }

  lemma ReferredRole(e: Env, d: Disk, r: Roles, i: nat, p: Ref, b: nat)
    requires Inv(e, d, r) && Refers(d, i, p, b)
    ensures b < |r| && r[b] == RoleOf(i, p)
  {
    NodeSound(e, d, r, i);
    assert PartOk(d, r, i, p.x);
  }

  lemma RoleReferred(e: Env, d: Disk, r: Roles, b: nat) returns (i: nat, p: Ref)
    requires Inv(e, d, r) && b < |r| && Owned(r[b])
    ensures Refers(d, i, p, b)
  {
    i := r[b].ino;
    var x := r[b].XIdx? || r[b].XData?;
    p := if r[b].Data? || r[b].XData? then MapRef(x, r[b].k) else IndexRef(x);
    NodeSound(e, d, r, i);
    assert PartOk(d, r, i, x);
    assert Justified(Head(d.inodes[i], x), MapOf(d, i, x), r[b], b);
    assert r[0].Meta?;
  }

  /** Some live inode refers to `b`. */
  ghost predicate Referred(d: Disk, b: nat) {
    exists i: nat, p: Ref :: Refers(d, i, p, b)
  }

  /**
   * Every block has exactly one use: below the data area it is metadata and nobody refers to it; a
   * data block is marked used exactly when somebody refers to it.
   */
  lemma ExactlyOneUse(e: Env, d: Disk, r: Roles, b: nat)
    requires Inv(e, d, r) && b < e.geo.nrBlocks
    ensures b < e.geo.DataStart() ==> !d.bfree[b] && !Referred(d, b)
    ensures b >= e.geo.DataStart() ==> (!d.bfree[b] <==> Referred(d, b))
  {
    forall i: nat, p: Ref | Refers(d, i, p, b) ensures Owned(r[b]) { ReferredRole(e, d, r, i, p, b); }
    if Owned(r[b]) {
      var i, p := RoleReferred(e, d, r, b);
      assert Refers(d, i, p, b);
    }
  }

  /** No block has two owners, two uses in one inode, or two positions in one file. */
  lemma NoBlockSharedTwice(e: Env, d: Disk, r: Roles, i: nat, p: Ref, j: nat, q: Ref, b: nat)
    requires Inv(e, d, r) && Refers(d, i, p, b) && Refers(d, j, q, b)
    ensures i == j && p == q && e.geo.DataStart() <= b < e.geo.nrBlocks && !d.bfree[b]
  {
    ReferredRole(e, d, r, i, p, b);
    ReferredRole(e, d, r, j, q, b);
  }

  /** The data blocks nobody refers to, below `n`. */
  ghost function Unreferred(e: Env, d: Disk, n: nat): nat {
    if n == 0 then 0
    else Unreferred(e, d, n - 1) + (if e.geo.DataStart() <= n - 1 && !Referred(d, n - 1) then 1 else 0)
  }

  lemma {:induction false} FreeIsUnreferred(e: Env, d: Disk, r: Roles, n: nat)
    requires Inv(e, d, r) && n <= e.geo.nrBlocks
    ensures Count(d.bfree[..n]) == Unreferred(e, d, n)
  {
    if n > 0 {
      FreeIsUnreferred(e, d, r, n - 1);
      FreeIffUnreferred(e, d, r, n - 1);
      CountNext(d.bfree, n - 1);
    }
  }

  lemma FreeIffUnreferred(e: Env, d: Disk, r: Roles, b: nat)
    requires Inv(e, d, r) && b < e.geo.nrBlocks
    ensures d.bfree[b] <==> e.geo.DataStart() <= b && !Referred(d, b)
  {
    ExactlyOneUse(e, d, r, b);
  }

  /** The free-block counter is exactly the number of data blocks nobody refers to: nothing leaks. */
  lemma NothingLeaks(e: Env, d: Disk, r: Roles)
    requires Inv(e, d, r)
    ensures d.freeBlocks == Unreferred(e, d, e.geo.nrBlocks)
  {
    FreeIsUnreferred(e, d, r, e.geo.nrBlocks);
  }
}
