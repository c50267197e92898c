/**
 * Concurrent use of the kernel allocators (src/bitmap.h): every get and put runs under one lock, so
 * a run is any interleaving of whole calls by any number of callers.
 */
module KernelRace {
  import opened Bits
  import opened KernelBitmap
  import opened KernelAlloc

  /** A range handed to a caller and not yet given back. */
  datatype Grant = Grant(who: nat, start: nat, len: nat)

  /** One bitmap with its counter and the outstanding grants. */
  datatype Pool = Pool(bits: seq<bool>, size: nat, free: nat, held: seq<Grant>)

  datatype State = State(inodes: Pool, blocks: Pool)

  datatype Event =
    | GetInode(who: nat)
    | GetBlocks(who: nat, len: nat)
    | PutInode(k: nat)      // the holder of grant k gives it back
    | PutBlocks(k: nat)

  ghost predicate Got(p: Pool, p': Pool, who: nat, len: nat) {
    exists r: nat ::
      && Allocates(p.bits, 0, p.size, len, r, p'.bits) && p'.size == p.size
      && p'.held == (if r == 0 then p.held else p.held + [Grant(who, r, len)])
      && p'.free + (if r == 0 then 0 else len) == p.free
  }

  predicate Put(p: Pool, p': Pool, k: nat) {
    && k < |p.held| && PutAccepts(p.size, p.held[k].start, p.held[k].len)
    && p' == p.(bits := SetRange(p.bits, p.held[k].start, p.held[k].len, true),
                free := p.free + p.held[k].len, held := p.held[..k] + p.held[k + 1..])
  }

  ghost predicate Step(s: State, s': State, e: Event) {
    match e
    case GetInode(who) => Got(s.inodes, s'.inodes, who, 1) && s'.blocks == s.blocks
    case GetBlocks(who, len) => Got(s.blocks, s'.blocks, who, len) && s'.inodes == s.inodes
    case PutInode(k) => Put(s.inodes, s'.inodes, k) && s'.blocks == s.blocks
    case PutBlocks(k) => Put(s.blocks, s'.blocks, k) && s'.inodes == s.inodes
  }

  // ---- safety ----

  predicate Disjoint(a: Grant, b: Grant) {
    a.start + a.len <= b.start || b.start + b.len <= a.start
  }

  /** Total length of the outstanding grants. */
  function Outstanding(held: seq<Grant>): nat {
    if held == [] then 0 else held[0].len + Outstanding(held[1..])
  }

  predicate GrantOk(p: Pool, g: Grant)
    requires p.size <= |p.bits|
  {
    0 < g.start && 0 < g.len && Taken(p.bits[..p.size], g.start, g.len)
  }

  /**
   * Grants are taken, in range and pairwise disjoint; the counter is the number of free bits; free
   * and outstanding bits together stay `total`.
   */
  predicate Safe(p: Pool, total: nat) {
    && 0 < p.size <= |p.bits| && !p.bits[0]
    && p.free == Count(p.bits[..p.size])
    && (forall k :: 0 <= k < |p.held| ==> GrantOk(p, p.held[k]))
    && (forall j, k :: 0 <= j < k < |p.held| ==> Disjoint(p.held[j], p.held[k]))
    && p.free + Outstanding(p.held) == total
  }

  lemma {:induction false} OutstandingPush(held: seq<Grant>, g: Grant)
    ensures Outstanding(held + [g]) == Outstanding(held) + g.len
  {
    if held != [] {
      assert (held + [g])[1..] == held[1..] + [g];
      OutstandingPush(held[1..], g);
    }
  }

  lemma {:induction false} OutstandingDrop(held: seq<Grant>, k: nat)
    requires k < |held|
    ensures Outstanding(held[..k] + held[k + 1..]) + held[k].len == Outstanding(held)
  {
    var rest := held[..k] + held[k + 1..];
    if k == 0 {
      assert rest == held[1..];
    } else {
      assert rest[1..] == held[1..][..k - 1] + held[1..][k..];
      OutstandingDrop(held[1..], k - 1);
    }
  }

  /** Bits that a change leaves alone keep a grant intact. */
  lemma GrantKept(p: Pool, p': Pool, g: Grant)
    requires p.size <= |p.bits| && p'.size == p.size <= |p'.bits| && GrantOk(p, g)
    requires forall b :: g.start <= b < g.start + g.len ==> p'.bits[b] == p.bits[b]
    ensures GrantOk(p', g)
  {
    forall b | g.start <= b < g.start + g.len ensures !p'.bits[..p.size][b] { assert !p.bits[..p.size][b]; }
  }

  lemma GetIsSafe(p: Pool, p': Pool, who: nat, len: nat, total: nat)
    requires Safe(p, total) && Got(p, p', who, len)
    ensures Safe(p', total)
  {
    var r: nat :| Allocates(p.bits, 0, p.size, len, r, p'.bits) && p'.size == p.size &&
      p'.held == (if r == 0 then p.held else p.held + [Grant(who, r, len)]) && p'.free + (if r == 0 then 0 else len) == p.free;
    AllocatedCount(p.bits, p.size, len, r, p'.bits);
    NotAtZero(p.bits, p.size, len);
    if r != 0 {
      OutstandingPush(p.held, Grant(who, r, len));
      forall k | 0 <= k < |p.held| ensures GrantOk(p', p.held[k]) && Disjoint(p.held[k], Grant(who, r, len)) {
        FreeRunMissesGrant(p, r, len, p.held[k]);
        GrantKept(p, p', p.held[k]);
      }
      assert GrantOk(p', Grant(who, r, len));
    }
  }

  lemma FreeRunMissesGrant(p: Pool, r: nat, len: nat, g: Grant)
    requires p.size <= |p.bits| && GrantOk(p, g) && len > 0 && Run(p.bits[..p.size], r, len)
    ensures r + len <= g.start || g.start + g.len <= r
  {
    var s := p.bits[..p.size];
    assert s[r] && !s[g.start];
  }

  lemma PutIsSafe(p: Pool, p': Pool, k: nat, total: nat)
    requires Safe(p, total) && Put(p, p', k)
    ensures Safe(p', total)
  {
    var g := p.held[k];
    ReleasedCount(p.bits, p.size, g.start, g.len);
    OutstandingDrop(p.held, k);
    forall j | 0 <= j < |p'.held| ensures GrantOk(p', p'.held[j]) {
      var i := if j < k then j else j + 1;
      assert p'.held[j] == p.held[i] && Disjoint(p.held[i], g);
      GrantKept(p, p', p.held[i]);
    }
  }

  /** The safety of both pools. */
  predicate AllSafe(s: State, totalInodes: nat, totalBlocks: nat) {
    Safe(s.inodes, totalInodes) && Safe(s.blocks, totalBlocks)
  }

  lemma StepIsSafe(s: State, s': State, e: Event, ti: nat, tb: nat)
    requires AllSafe(s, ti, tb) && Step(s, s', e)
    ensures AllSafe(s', ti, tb)
  {
    match e
    case GetInode(who) => GetIsSafe(s.inodes, s'.inodes, who, 1, ti);
    case GetBlocks(who, len) => GetIsSafe(s.blocks, s'.blocks, who, len, tb);
    case PutInode(k) => PutIsSafe(s.inodes, s'.inodes, k, ti);
    case PutBlocks(k) => PutIsSafe(s.blocks, s'.blocks, k, tb);
  }

  /** No put of an outstanding range is refused. */
  predicate Returnable(p: Pool) {
    forall k :: 0 <= k < |p.held| ==> PutAccepts(p.size, p.held[k].start, p.held[k].len)
  }

  lemma HeldIsAccepted(p: Pool, total: nat)
    requires Safe(p, total)
    ensures Returnable(p)
  {
    forall k | 0 <= k < |p.held| ensures PutAccepts(p.size, p.held[k].start, p.held[k].len) {
      assert GrantOk(p, p.held[k]);
    }
  }

  /** Any interleaving of any callers: every reached state is safe, and all that is held can be given back. */
  lemma {:induction false} EveryRunIsSafe(run: seq<State>, events: seq<Event>, ti: nat, tb: nat, n: nat)
    requires |run| == |events| + 1 && n < |run| && AllSafe(run[0], ti, tb)
    requires forall j :: 0 <= j < |events| ==> Step(run[j], run[j + 1], events[j])
    ensures AllSafe(run[n], ti, tb) && Returnable(run[n].inodes) && Returnable(run[n].blocks)
  {
    if n > 0 {
      EveryRunIsSafe(run, events, ti, tb, n - 1);
      StepIsSafe(run[n - 1], run[n], events[n - 1], ti, tb);
    }
    HeldIsAccepted(run[n].inodes, ti);
    HeldIsAccepted(run[n].blocks, tb);
  }

  // ---- the allocator is this machine ----

  ghost function StateOf(sbi: SbInfo, inodes: seq<Grant>, blocks: seq<Grant>): State
    reads sbi, sbi.ifree, sbi.bfree
  {
    State(Pool(sbi.ifree[..], sbi.nrInodes, sbi.nrFreeInodes, inodes), Pool(sbi.bfree[..], sbi.nrBlocks, sbi.nrFreeBlocks, blocks))
  }

  /** Taking a grant off the list. */
  function Without(held: seq<Grant>, k: nat): seq<Grant>
    requires k < |held|
  {
    held[..k] + held[k + 1..]
  }

  function Granted(held: seq<Grant>, who: nat, r: nat, len: nat): seq<Grant> {
    if r == 0 then held else held + [Grant(who, r, len)]
  }

  /** `get_free_inode` in a safe state is a step of the machine. */
  method DoGetInode(sbi: SbInfo, who: nat, ghost inodes: seq<Grant>, ghost blocks: seq<Grant>, ghost ti: nat, ghost tb: nat) returns (r: nat)
    requires sbi.Valid() && AllSafe(StateOf(sbi, inodes, blocks), ti, tb)
    modifies sbi`nrFreeInodes, sbi.ifree
    ensures sbi.Valid()
    ensures Step(old(StateOf(sbi, inodes, blocks)), StateOf(sbi, Granted(inodes, who, r, 1), blocks), GetInode(who))
  {
    NotAtZero(sbi.ifree[..], sbi.nrInodes, 1);
    r := sbi.GetFreeInode();
  }

  /** `get_free_blocks` in a safe state is a step of the machine. */
  method DoGetBlocks(sbi: SbInfo, who: nat, len: nat, ghost inodes: seq<Grant>, ghost blocks: seq<Grant>, ghost ti: nat, ghost tb: nat)
    returns (r: nat)
    requires sbi.Valid() && AllSafe(StateOf(sbi, inodes, blocks), ti, tb)
    modifies sbi`nrFreeBlocks, sbi.bfree
    ensures sbi.Valid()
    ensures Step(old(StateOf(sbi, inodes, blocks)), StateOf(sbi, inodes, Granted(blocks, who, r, len)), GetBlocks(who, len))
  {
    NotAtZero(sbi.bfree[..], sbi.nrBlocks, len);
    r := sbi.GetFreeBlocks(len);
  }

  /** `put_inode` of an inode that is held. */
  method DoPutInode(sbi: SbInfo, ino: nat, ghost k: nat, ghost inodes: seq<Grant>, ghost blocks: seq<Grant>, ghost ti: nat, ghost tb: nat)
    requires sbi.Valid() && AllSafe(StateOf(sbi, inodes, blocks), ti, tb)
    requires k < |inodes| && inodes[k].start == ino && inodes[k].len == 1
    modifies sbi`nrFreeInodes, sbi.ifree
    ensures sbi.Valid()
    ensures Step(old(StateOf(sbi, inodes, blocks)), StateOf(sbi, Without(inodes, k), blocks), PutInode(k))
  {
    HeldIsTaken(sbi.ifree[..], sbi.nrInodes, StateOf(sbi, inodes, blocks).inodes, k, ti);
    assert sbi.ifree[..][..sbi.nrInodes] == sbi.ifree[..sbi.nrInodes];
    sbi.PutInode(ino);
  }

  /** `put_blocks` of a run that is held. */
  method DoPutBlocks(sbi: SbInfo, bno: nat, len: nat, ghost k: nat, ghost inodes: seq<Grant>, ghost blocks: seq<Grant>, ghost ti: nat, ghost tb: nat)
    requires sbi.Valid() && AllSafe(StateOf(sbi, inodes, blocks), ti, tb)
    requires k < |blocks| && blocks[k].start == bno && blocks[k].len == len
    modifies sbi`nrFreeBlocks, sbi.bfree
    ensures sbi.Valid()
    ensures Step(old(StateOf(sbi, inodes, blocks)), StateOf(sbi, inodes, Without(blocks, k)), PutBlocks(k))
  {
    HeldIsTaken(sbi.bfree[..], sbi.nrBlocks, StateOf(sbi, inodes, blocks).blocks, k, tb);
    assert sbi.bfree[..][..sbi.nrBlocks] == sbi.bfree[..sbi.nrBlocks];
    sbi.PutBlocks(bno, len);
  }

  lemma HeldIsTaken(bits: seq<bool>, size: nat, p: Pool, k: nat, total: nat)
    requires Safe(p, total) && p.bits == bits && p.size == size && k < |p.held|
    ensures size <= |bits| && 0 < p.held[k].len && Taken(bits[..size], p.held[k].start, p.held[k].len)
    ensures PutAccepts(size, p.held[k].start, p.held[k].len)
  {
    assert GrantOk(p, p.held[k]);
  }
}
