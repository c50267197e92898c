/** Directories of the kernel module (src/inode.c): removal by shifting, lookup up to the first empty slot. */
module KernelDir {
  import opened Layout

  type DirBlock = seq<Slot>

  predicate BlocksOk(bs: seq<DirBlock>) {
    forall i :: 0 <= i < |bs| ==> |bs[i]| == FILES_PER_BLOCK
  }

  /** All slots in block order. */
  function Flat(bs: seq<DirBlock>): seq<Slot> {
    if bs == [] then [] else bs[0] + Flat(bs[1..])
  }

  predicate AllEmpty(b: DirBlock) {
    forall f :: 0 <= f < |b| ==> b[f] == EMPTY_SLOT
  }

  /** Used slots form a prefix: from the first empty slot on every slot is empty. */
  predicate DensePrefix(s: seq<Slot>) {
    forall p, q :: 0 <= p <= q < |s| && s[p].ino == 0 ==> s[q] == EMPTY_SLOT
  }

  predicate Dense(bs: seq<DirBlock>) {
    DensePrefix(Flat(bs))
  }

  /** First slot of block `i`; empty past the last block. */
  function First(bs: seq<DirBlock>, i: nat): Slot
    requires BlocksOk(bs)
  {
    if i < |bs| then bs[i][0] else EMPTY_SLOT
  }

  /** Block `i` of the directory after slot `f0` of block `i0` is taken out and the rest moved up. */
  function MovedUp(bs: seq<DirBlock>, i0: nat, f0: nat, i: nat): (b: DirBlock)
    requires BlocksOk(bs) && i < |bs| && f0 < 15
    ensures |b| == 15
  {
    if i < i0 then bs[i]
    else (if i == i0 then bs[i][..f0] + bs[i][f0 + 1..] else bs[i][1..]) + [First(bs, i + 1)]
  }

  function Compacted(bs: seq<DirBlock>, i0: nat, f0: nat): (r: seq<DirBlock>)
    requires BlocksOk(bs) && f0 < 15
    ensures |r| == |bs| && BlocksOk(r)
  {
    seq(|bs|, i requires 0 <= i < |bs| => MovedUp(bs, i0, f0, i))
  }

  // ---- what compaction means for the sequence of entries ----

  lemma {:induction false} FlatLength(bs: seq<DirBlock>)
    requires BlocksOk(bs)
    ensures |Flat(bs)| == 15 * |bs|
  {
    if bs != [] { FlatLength(bs[1..]); }
  }

  /** Moving every slot of a list of blocks up by one. */
  lemma {:induction false} FlatShift(bs: seq<DirBlock>, r: seq<DirBlock>)
    requires BlocksOk(bs) && |r| == |bs| > 0
    requires forall i :: 0 <= i < |bs| ==> r[i] == bs[i][1..] + [First(bs, i + 1)]
    ensures Flat(r) == Flat(bs)[1..] + [EMPTY_SLOT]
  {
    FlatLength(bs);
    if |bs| == 1 {
      assert bs[1..] == [] && r[1..] == [];
    } else {
      FlatShift(bs[1..], r[1..]);
      FlatLength(bs[1..]);
      assert bs[1..][0] == bs[1];
      assert Flat(bs[1..]) == [First(bs, 1)] + Flat(bs[1..])[1..];
    }
  }

  lemma TakeOut(b: seq<Slot>, rest: seq<Slot>, f0: nat)
    requires f0 < |b|
    ensures var s := b + rest; s[..f0] == b[..f0] && s[f0 + 1..] == b[f0 + 1..] + rest
  {
  }

  /** Taking a slot out of the first block. */
  lemma FlatCompactedFirst(bs: seq<DirBlock>, f0: nat)
    requires BlocksOk(bs) && bs != [] && f0 < 15
    ensures var s := Flat(bs); f0 < |s| && Flat(Compacted(bs, 0, f0)) == s[..f0] + s[f0 + 1..] + [EMPTY_SLOT]
  {
    var r, b, rest := Compacted(bs, 0, f0), bs[0], Flat(bs[1..]);
    TakeOut(b, rest, f0);
    assert r[0] == b[..f0] + b[f0 + 1..] + [First(bs, 1)];
    assert [First(bs, 1)] + Flat(r[1..]) == rest + [EMPTY_SLOT] by { FlatTail(bs, r); }
    calc {
      Flat(r);
      r[0] + Flat(r[1..]);
      b[..f0] + b[f0 + 1..] + ([First(bs, 1)] + Flat(r[1..]));
      b[..f0] + b[f0 + 1..] + (rest + [EMPTY_SLOT]);
    }
  }

  lemma FlatTail(bs: seq<DirBlock>, r: seq<DirBlock>)
    requires BlocksOk(bs) && |r| == |bs| > 0
    requires forall i :: 1 <= i < |bs| ==> r[i] == bs[i][1..] + [First(bs, i + 1)]
    ensures [First(bs, 1)] + Flat(r[1..]) == Flat(bs[1..]) + [EMPTY_SLOT]
  {
    FlatLength(bs[1..]);
    if |bs| == 1 {
      assert bs[1..] == [] && r[1..] == [];
    } else {
      FlatShift(bs[1..], r[1..]);
      assert Flat(bs[1..])[0] == bs[1][0];
    }
  }

  /** Compaction removes exactly one slot from the sequence; order is kept and an empty slot enters at the end. */
  lemma {:induction false} FlatCompacted(bs: seq<DirBlock>, i0: nat, f0: nat)
    requires BlocksOk(bs) && i0 < |bs| && f0 < 15
    ensures var s, p := Flat(bs), 15 * i0 + f0;
      p < |s| && Flat(Compacted(bs, i0, f0)) == s[..p] + s[p + 1..] + [EMPTY_SLOT]
  {
    if i0 == 0 {
      FlatCompactedFirst(bs, f0);
    } else {
      assert Compacted(bs, i0, f0)[1..] == Compacted(bs[1..], i0 - 1, f0);
      FlatCompacted(bs[1..], i0 - 1, f0);
    }
  }

  // ---- density ----

  lemma {:induction false} FlatAt(bs: seq<DirBlock>, i: nat, f: nat)
    requires BlocksOk(bs) && i < |bs| && f < 15
    ensures 15 * i + f < |Flat(bs)| && Flat(bs)[15 * i + f] == bs[i][f]
  {
    FlatLength(bs);
    if i > 0 {
      FlatAt(bs[1..], i - 1, f);
      assert Flat(bs)[15 * i + f] == Flat(bs[1..])[15 * (i - 1) + f];
    }
  }

  lemma EmptyRest(bs: seq<DirBlock>, i: nat, j: nat)
    requires BlocksOk(bs) && Dense(bs) && i <= j < |bs| && bs[i][0].ino == 0
    ensures AllEmpty(bs[j])
  {
    FlatAt(bs, i, 0);
    forall f | 0 <= f < 15 ensures bs[j][f] == EMPTY_SLOT {
      FlatAt(bs, j, f);
    }
  }

  /** Compaction keeps the used slots a prefix. */
  lemma CompactedDense(bs: seq<DirBlock>, i0: nat, f0: nat)
    requires BlocksOk(bs) && Dense(bs) && i0 < |bs| && f0 < 15
    ensures Dense(Compacted(bs, i0, f0))
  {
    FlatCompacted(bs, i0, f0);
    DropDense(Flat(bs), 15 * i0 + f0);
  }

  lemma DropDense(s: seq<Slot>, p: nat)
    requires DensePrefix(s) && p < |s|
    ensures DensePrefix(s[..p] + s[p + 1..] + [EMPTY_SLOT])
  {
  }

  /** Number of used slots. */
  function UsedSlots(s: seq<Slot>): nat {
    if s == [] then 0 else (if s[0].ino != 0 then 1 else 0) + UsedSlots(s[1..])
  }

  lemma {:induction false} UsedDrop(s: seq<Slot>, p: nat)
    requires p < |s| && s[p].ino != 0
    ensures UsedSlots(s[..p] + s[p + 1..] + [EMPTY_SLOT]) == UsedSlots(s) - 1
  {
    var r := s[..p] + s[p + 1..] + [EMPTY_SLOT];
    if p == 0 {
      assert r == s[1..] + [EMPTY_SLOT];
      UsedPush(s[1..]);
    } else {
      assert r[1..] == s[1..][..p - 1] + s[1..][p..] + [EMPTY_SLOT];
      UsedDrop(s[1..], p - 1);
    }
  }

  lemma {:induction false} UsedPush(s: seq<Slot>)
    ensures UsedSlots(s + [EMPTY_SLOT]) == UsedSlots(s)
  {
    if s != [] {
      assert (s + [EMPTY_SLOT])[1..] == s[1..] + [EMPTY_SLOT];
      UsedPush(s[1..]);
    }
  }

  lemma CompactedCount(bs: seq<DirBlock>, ino: nat, i0: nat, f0: nat)
    requires BlocksOk(bs) && FirstMatch(bs, ino, i0, f0) && ino != 0
    ensures UsedSlots(Flat(Compacted(bs, i0, f0))) == UsedSlots(Flat(bs)) - 1
  {
    FlatCompacted(bs, i0, f0);
    FlatAt(bs, i0, f0);
    UsedDrop(Flat(bs), 15 * i0 + f0);
  }

  // ---- removal ----

  /** After `t` blocks are done: moved up, with the freed last slot of block t-1 cleared for now. */
  function Partial(bs: seq<DirBlock>, i0: nat, f0: nat, t: nat): (r: seq<DirBlock>)
    requires BlocksOk(bs) && f0 < 15
    ensures |r| == |bs| && BlocksOk(r)
  {
    seq(|bs|, i requires 0 <= i < |bs| =>
      if i + 1 < t then MovedUp(bs, i0, f0, i)
      else if i + 1 == t then MovedUp(bs, i0, f0, i)[..14] + [EMPTY_SLOT]
      else bs[i])
  }

  lemma PartialStep(bs: seq<DirBlock>, i0: nat, f0: nat, t: nat)
    requires BlocksOk(bs) && i0 < t < |bs| && f0 < 15
    ensures var p := Partial(bs, i0, f0, t);
      Partial(bs, i0, f0, t + 1) == p[t - 1 := p[t - 1][..14] + [bs[t][0]]][t := bs[t][1..] + [EMPTY_SLOT]]
  {
    var p, q := Partial(bs, i0, f0, t), Partial(bs, i0, f0, t + 1);
    assert q[t - 1] == MovedUp(bs, i0, f0, t - 1) == p[t - 1][..14] + [bs[t][0]];
    assert q[t] == bs[t][1..] + [EMPTY_SLOT];
  }

  lemma PartialDone(bs: seq<DirBlock>, i0: nat, f0: nat, t: nat)
    requires BlocksOk(bs) && Dense(bs) && i0 < t <= |bs| && f0 < 15
    requires t < |bs| ==> bs[t][0].ino == 0
    ensures Partial(bs, i0, f0, t) == Compacted(bs, i0, f0)
  {
    var p, c := Partial(bs, i0, f0, t), Compacted(bs, i0, f0);
    if t < |bs| { EmptyRest(bs, t, t); }
    assert First(bs, t) == EMPTY_SLOT;
    forall i | 0 <= i < |bs| ensures p[i] == c[i] {
      if i + 1 == t {
        assert c[i] == MovedUp(bs, i0, f0, i) == MovedUp(bs, i0, f0, i)[..14] + [First(bs, t)];
      } else if i >= t {
        EmptyRest(bs, t, i);
        if i + 1 < |bs| { EmptyRest(bs, t, i + 1); }
      }
    }
  }

  /** Slot (i0, f0) is the first one with inode number `ino`. */
  predicate FirstMatch(bs: seq<DirBlock>, ino: nat, i0: nat, f0: nat)
    requires BlocksOk(bs)
  {
    && i0 < |bs| && f0 < 15 && bs[i0][f0].ino == ino
    && NoMatch(bs, ino, i0) && forall f :: 0 <= f < f0 ==> bs[i0][f].ino != ino
  }

  predicate NoMatch(bs: seq<DirBlock>, ino: nat, t: nat)
    requires BlocksOk(bs)
  {
    forall i, f :: 0 <= i < t && i < |bs| && 0 <= f < 15 ==> bs[i][f].ino != ino
  }

  /** The state of the walk after `t` blocks; `at` is the removed slot once it is found. */
  predicate Walked(bs: seq<DirBlock>, now: seq<DirBlock>, ino: nat, t: nat, at: Option<(nat, nat)>)
    requires BlocksOk(bs)
  {
    match at
    case None => now == bs && NoMatch(bs, ino, t)
    case Some(p) => p.0 < t && FirstMatch(bs, ino, p.0, p.1) && now == Partial(bs, p.0, p.1, t)
  }

  /** Position of the inode number in a block, or 15. */
  method FindInBlock(b: DirBlock, ino: nat) returns (fi: nat)
    requires |b| == 15
    ensures fi <= 15 && (forall f :: 0 <= f < fi ==> b[f].ino != ino) && (fi < 15 ==> b[fi].ino == ino)
  {
    fi := 0;
    while fi < 15 && b[fi].ino != ino
      invariant fi <= 15 && forall f :: 0 <= f < fi ==> b[f].ino != ino
    {
      fi := fi + 1;
    }
  }

  /** One block of the walk: look for the entry, or move everything up by one slot. */
  method StepBlock(blocks: array<DirBlock>, ino: nat, t: nat, found: bool, ghost bs: seq<DirBlock>, ghost at: Option<(nat, nat)>)
    returns (found': bool, ghost at': Option<(nat, nat)>)
    requires BlocksOk(bs) && t < blocks.Length == |bs| && found == at.Some? && Walked(bs, blocks[..], ino, t, at)
    modifies blocks
    ensures found' == at'.Some? && Walked(bs, blocks[..], ino, t + 1, at')
  {
    found', at' := found, at;
    if found {
      PartialStep(bs, at.value.0, at.value.1, t);
      ghost var p := blocks[..];
      assert blocks[t] == p[t] == bs[t];
      blocks[t - 1] := blocks[t - 1][..14] + [blocks[t][0]];
      blocks[t] := blocks[t][1..] + [EMPTY_SLOT];
      assert blocks[..] == p[t - 1 := p[t - 1][..14] + [bs[t][0]]][t := bs[t][1..] + [EMPTY_SLOT]];
      return;
    }
    assert blocks[t] == blocks[..][t] == bs[t];
    var fi := FindInBlock(blocks[t], ino);
    if fi < 15 {
      blocks[t] := blocks[t][..fi] + blocks[t][fi + 1..] + [EMPTY_SLOT];
      found', at' := true, Some((t, fi));
      assert blocks[..] == Partial(bs, t, fi, t + 1);
    }
  }

  function Sum(lens: seq<nat>): nat {
    if lens == [] then 0 else lens[0] + Sum(lens[1..])
  }

  lemma SumFrom(lens: seq<nat>, e: nat)
    requires e < |lens|
    ensures Sum(lens[e..]) == lens[e] + Sum(lens[e + 1..])
  {
    assert lens[e..][1..] == lens[e + 1..];
  }

  /** The blocks of one extent, from block `base` on; stops at a block without entries. */
  method StepExtent(blocks: array<DirBlock>, ino: nat, base: nat, len: nat, found: bool,
                    ghost bs: seq<DirBlock>, ghost t: nat, ghost at: Option<(nat, nat)>)
    returns (found': bool, ghost t': nat, ghost at': Option<(nat, nat)>)
    requires BlocksOk(bs) && Dense(bs) && base + len <= blocks.Length == |bs|
    requires t <= base && (t < base ==> bs[t][0].ino == 0)
    requires found == at.Some? && Walked(bs, blocks[..], ino, t, at)
    modifies blocks
    ensures found' == at'.Some? && Walked(bs, blocks[..], ino, t', at')
    ensures t' <= base + len && (t' < base + len ==> bs[t'][0].ino == 0)
  {
    found', t', at' := found, t, at;
    var bi := 0;
    while bi < len
      invariant bi <= len && t' <= base + bi && (t' < base + bi ==> bs[t'][0].ino == 0)
      invariant bi > 0 ==> t' == base + bi
      invariant found' == at'.Some? && Walked(bs, blocks[..], ino, t', at')
    {
      NextBlock(bs, blocks[..], ino, t', at', base + bi);
      if blocks[base + bi][0].ino == 0 {
        break;
      }
      found', at' := StepBlock(blocks, ino, base + bi, found', bs, at');
      t' := base + bi + 1;
      bi := bi + 1;
    }
  }

  lemma Untouched(bs: seq<DirBlock>, now: seq<DirBlock>, ino: nat, t: nat, at: Option<(nat, nat)>, i: nat)
    requires BlocksOk(bs) && Walked(bs, now, ino, t, at) && t <= i < |bs|
    ensures |now| == |bs| && now[i] == bs[i]
  {
  }

  /** The next block is as it was, and empty when an earlier one already had no entries. */
  lemma NextBlock(bs: seq<DirBlock>, now: seq<DirBlock>, ino: nat, t: nat, at: Option<(nat, nat)>, i: nat)
    requires BlocksOk(bs) && Dense(bs) && Walked(bs, now, ino, t, at) && t <= i < |bs| && (t < i ==> bs[t][0].ino == 0)
    ensures |now| == |bs| && |now[i]| == 15 && now[i][0] == bs[i][0] && (t < i ==> bs[i][0].ino == 0)
  {
    Untouched(bs, now, ino, t, at, i);
    if t < i { EmptyRest(bs, t, i); }
  }

  /** `p` is the first slot with inode number `ino`. */
  predicate FirstAt(s: seq<Slot>, ino: nat, p: nat) {
    p < |s| && s[p].ino == ino && forall q :: 0 <= q < p ==> s[q].ino != ino
  }

  /**
   * `lolelffs_remove_from_dir`: walks the extents and their blocks; the first entry with the inode
   * number is taken out and everything after it moves up, across blocks and extents.
   */
  method RemoveFromDir(blocks: array<DirBlock>, lens: seq<nat>, nrFiles: nat, ino: nat) returns (found: bool, nr: nat)
    requires BlocksOk(blocks[..]) && Dense(blocks[..]) && Sum(lens) == blocks.Length && ino != 0
    requires nrFiles == UsedSlots(Flat(blocks[..]))
    modifies blocks
    ensures BlocksOk(blocks[..]) && Dense(blocks[..]) && nr == UsedSlots(Flat(blocks[..]))
    ensures var s := Flat(old(blocks[..]));
      if found then exists p: nat :: FirstAt(s, ino, p) && Flat(blocks[..]) == s[..p] + s[p + 1..] + [EMPTY_SLOT]
      else blocks[..] == old(blocks[..]) && forall p :: 0 <= p < |s| ==> s[p].ino != ino
  {
    ghost var bs := blocks[..];
    found := false;
    ghost var t: nat, at: Option<(nat, nat)> := 0, None;
    var base: nat, ei: nat := 0, 0;
    while ei < |lens|
      invariant ei <= |lens| && base + Sum(lens[ei..]) == blocks.Length
      invariant found == at.Some? && Walked(bs, blocks[..], ino, t, at)
      invariant t <= base && (t < base ==> bs[t][0].ino == 0)
    {
      SumFrom(lens, ei);
      found, t, at := StepExtent(blocks, ino, base, lens[ei], found, bs, t, at);
      base := base + lens[ei];
      ei := ei + 1;
    }
    Finish(bs, blocks[..], ino, t, at);
    nr := nrFiles;
    if found {
      CompactedCount(bs, ino, at.value.0, at.value.1);
      CompactedIsRemoval(bs, ino, at.value.0, at.value.1);
      nr := nr - 1;
    } else {
      NoMatchInFlat(bs, ino);
    }
  }

  lemma Finish(bs: seq<DirBlock>, now: seq<DirBlock>, ino: nat, t: nat, at: Option<(nat, nat)>)
    requires BlocksOk(bs) && Dense(bs) && ino != 0 && t <= |bs| && (t < |bs| ==> bs[t][0].ino == 0) && Walked(bs, now, ino, t, at)
    ensures at.None? ==> now == bs && NoMatch(bs, ino, |bs|)
    ensures at.Some? ==> FirstMatch(bs, ino, at.value.0, at.value.1) && now == Compacted(bs, at.value.0, at.value.1) && Dense(now)
  {
    if at.Some? {
      PartialDone(bs, at.value.0, at.value.1, t);
      CompactedDense(bs, at.value.0, at.value.1);
    } else {
      forall i, f | t <= i < |bs| && 0 <= f < 15 ensures bs[i][f].ino != ino {
        EmptyRest(bs, t, i);
      }
    }
  }

  /** The removed position, in the sequence of entries, is the first with that inode number. */
  lemma FirstInFlat(bs: seq<DirBlock>, ino: nat, i0: nat, f0: nat)
    requires BlocksOk(bs) && FirstMatch(bs, ino, i0, f0)
    ensures FirstAt(Flat(bs), ino, 15 * i0 + f0)
  {
    FlatAt(bs, i0, f0);
    forall q | 0 <= q < 15 * i0 + f0 ensures Flat(bs)[q].ino != ino {
      FlatAt(bs, q / 15, q % 15);
    }
  }

  lemma CompactedIsRemoval(bs: seq<DirBlock>, ino: nat, i0: nat, f0: nat)
    requires BlocksOk(bs) && FirstMatch(bs, ino, i0, f0)
    ensures var s := Flat(bs);
      exists p: nat :: FirstAt(s, ino, p) && Flat(Compacted(bs, i0, f0)) == s[..p] + s[p + 1..] + [EMPTY_SLOT]
  {
    FirstInFlat(bs, ino, i0, f0);
    FlatCompacted(bs, i0, f0);
  }

  lemma NoMatchInFlat(bs: seq<DirBlock>, ino: nat)
    requires BlocksOk(bs) && NoMatch(bs, ino, |bs|)
    ensures forall p :: 0 <= p < |Flat(bs)| ==> Flat(bs)[p].ino != ino
  {
    FlatLength(bs);
    forall p | 0 <= p < |Flat(bs)| ensures Flat(bs)[p].ino != ino {
      FlatAt(bs, p / 15, p % 15);
    }
  }

  // ---- lookup ----

  /** A scan of every slot for a used one with the name. */
  function FullScan(s: seq<Slot>, name: Bytes): Option<nat> {
    if s == [] then None
    else if s[0].ino != 0 && s[0].name == name then Some(s[0].ino)
    else FullScan(s[1..], name)
  }

  lemma {:induction false} ScanEmpty(s: seq<Slot>, name: Bytes)
    requires forall p :: 0 <= p < |s| ==> s[p].ino == 0
    ensures FullScan(s, name) == None
  {
    if s != [] { ScanEmpty(s[1..], name); }
  }

  lemma ScanFrom(s: seq<Slot>, p: nat, name: Bytes)
    requires p < |s|
    ensures FullScan(s[p..], name) ==
            if s[p].ino != 0 && s[p].name == name then Some(s[p].ino) else FullScan(s[p + 1..], name)
  {
    assert s[p..][1..] == s[p + 1..];
  }

  /** `lolelffs_lookup`: stopping at the first empty slot loses nothing on a dense directory. */
  method Lookup(blocks: array<DirBlock>, name: Bytes) returns (r: Option<nat>)
    requires BlocksOk(blocks[..]) && Dense(blocks[..])
    ensures r == FullScan(Flat(blocks[..]), name)
  {
    ghost var bs := blocks[..];
    ghost var s := Flat(bs);
    FlatLength(bs);
    assert s[0..] == s;
    for i := 0 to blocks.Length
      invariant FullScan(s, name) == FullScan(s[15 * i..], name)
    {
      assert blocks[i] == bs[i];
      for f := 0 to 15
        invariant FullScan(s, name) == FullScan(s[15 * i + f..], name)
      {
        FlatAt(bs, i, f);
        ScanFrom(s, 15 * i + f, name);
        if blocks[i][f].ino == 0 {
          ScanEmpty(s[15 * i + f..], name);
          return None;
        }
        if blocks[i][f].name == name {
          return Some(blocks[i][f].ino);
        }
      }
    }
    assert s[15 * |bs|..] == [];
    return None;
  }

  // ---- a new entry ----

  /** In a dense directory the used slots are exactly the first ones. */
  lemma {:induction false} DenseCount(s: seq<Slot>, p: nat)
    requires DensePrefix(s) && p < |s|
    ensures s[p].ino != 0 <==> p < UsedSlots(s)
    decreases |s|
  {
    if s[0].ino == 0 {
      NoneUsed(s);
    } else if p > 0 {
      DenseCount(s[1..], p - 1);
    }
  }

  lemma {:induction false} NoneUsed(s: seq<Slot>)
    requires forall p :: 0 <= p < |s| ==> s[p].ino == 0
    ensures UsedSlots(s) == 0
  {
    if s != [] { NoneUsed(s[1..]); }
  }

  lemma {:induction false} UsedFill(s: seq<Slot>, p: nat, slot: Slot)
    requires p < |s| && s[p].ino == 0 && slot.ino != 0
    ensures UsedSlots(s[p := slot]) == UsedSlots(s) + 1
  {
    if p == 0 {
      assert s[p := slot][1..] == s[1..];
    } else {
      assert s[p := slot][1..] == s[1..][p - 1 := slot];
      UsedFill(s[1..], p - 1, slot);
    }
  }

  /** The entry goes to the slot with the number of the count: the directory stays dense and the count follows. */
  lemma FillKeepsDense(s: seq<Slot>, ino: nat, name: Bytes)
    requires DensePrefix(s) && UsedSlots(s) < |s| && ino != 0
    ensures var t := s[UsedSlots(s) := Slot(ino, name)]; DensePrefix(t) && UsedSlots(t) == UsedSlots(s) + 1
  {
    var n := UsedSlots(s);
    DenseCount(s, n);
    UsedFill(s, n, Slot(ino, name));
    forall p | 0 <= p < |s| ensures s[p].ino != 0 <==> p < n { DenseCount(s, p); }
  }

  /** A new name is found afterwards, and every other name is answered as before. */
  lemma {:induction false} LookupAfterFill(s: seq<Slot>, p: nat, ino: nat, name: Bytes, other: Bytes)
    requires p < |s| && s[p].ino == 0 && ino != 0 && FullScan(s, name) == None
    ensures FullScan(s[p := Slot(ino, name)], other) == if other == name then Some(ino) else FullScan(s, other)
  {
    var t := s[p := Slot(ino, name)];
    if p == 0 {
      assert t[1..] == s[1..];
    } else {
      assert t[1..] == s[1..][p - 1 := Slot(ino, name)];
      LookupAfterFill(s[1..], p - 1, ino, name, other);
    }
  }
}
