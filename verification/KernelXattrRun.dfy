/** Whole runs of attribute changes, listing, and freeing the store (src/xattr.c). */
module KernelXattrRun {
  import opened Layout
  import opened Bits
  import opened Wire
  import opened XattrCodec
  import opened KernelAlloc
  import opened KernelXattrRecords
  import opened KernelXattrBuffer
  import opened KernelXattrBlocks
  import opened KernelXattr

  datatype Op = Put(k: Key, value: Bytes, create: bool, replace: bool) | Delete(k: Key)

  /** What an answered operation does to the attribute map. */
  function Apply(m: map<Key, Bytes>, op: Op, r: Status): map<Key, Bytes> {
    if r != Done then m
    else match op
         case Put(k, value, _, _) => m[k := value]
         case Delete(k) => m - {k}
  }

  function ApplyAll(m: map<Key, Bytes>, ops: seq<Op>, rs: seq<Status>): map<Key, Bytes>
    requires |ops| == |rs|
  {
    if ops == [] then m
    else Apply(ApplyAll(m, ops[..|ops| - 1], rs[..|rs| - 1]), ops[|ops| - 1], rs[|rs| - 1])
  }

  /** The operation is a replace of an existing key that ran out of space. */
  predicate IsMiss(m: map<Key, Bytes>, op: Op, r: Status) {
    op.Put? && r == ENoSpc && op.k in m && |op.value| <= 65535
  }

  /** The number of such replaces in a run. */
  function Misses(m: map<Key, Bytes>, ops: seq<Op>, rs: seq<Status>): nat
    requires |ops| == |rs|
  {
    if ops == [] then 0
    else
      var n := |ops| - 1;
      Misses(m, ops[..n], rs[..n]) + (if IsMiss(ApplyAll(m, ops[..n], rs[..n]), ops[n], rs[n]) then 1 else 0)
  }

  /** The answers that names, flags and the map before the operation allow. */
  predicate Answers(m: map<Key, Bytes>, op: Op, r: Status) {
    && (r == EInval <==> |op.k.name| == 0 || |op.k.name| > 255)
    && match op
       case Put(k, value, create, replace) =>
         && (r == EExist ==> k in m && create)
         && (r == ENoData ==> k !in m && replace)
         && (r == Done ==> (k in m ==> !create) && (k !in m ==> !replace) && |value| <= 65535)
       case Delete(k) => r != EInval ==> r == if k in m then Done else ENoData
  }

  /** Each operation of a run was answered as the map before it allows. */
  predicate AllAnswer(m: map<Key, Bytes>, ops: seq<Op>, rs: seq<Status>)
    requires |ops| == |rs|
  {
    ops == [] ||
    var n := |ops| - 1;
    AllAnswer(m, ops[..n], rs[..n]) && Answers(ApplyAll(m, ops[..n], rs[..n]), ops[n], rs[n])
  }

  /** The count is `misses` below the number of entries, up to `q` turns of the 32-bit counter. */
  predicate Off(count: nat, size: nat, misses: nat, q: int) {
    count + misses == size + U32 * q
  }

  lemma PutMeans(es: seq<Entry>, k: Key, value: Bytes, r: Status, es': seq<Entry>)
    requires DistinctKeys(es) && es' == if r == Done then KernelXattr.Put(es, k, value) else es
    ensures AsMap(es') == if r == Done then AsMap(es)[k := value] else AsMap(es)
    ensures |es'| == if r == Done && !Has(es, k) then |es| + 1 else |es|
  {
    PutIsUpdate(es, k, value);
  }

  lemma DeleteMeans(es: seq<Entry>, k: Key, r: Status, es': seq<Entry>)
    requires DistinctKeys(es) && es' == (if r == Done then RemoveKey(es, k) else es) && (r == Done ==> Has(es, k))
    ensures AsMap(es') == if r == Done then AsMap(es) - {k} else AsMap(es)
    ensures |es'| == if r == Done then |es| - 1 else |es|
  {
    RemoveIsRemoval(es, k);
    RemoveKeepsDistinct(es, k);
  }

  /** A set answers as names, flags and map allow, and misses exactly when it miscounts. */
  lemma SetAnswers(es: seq<Entry>, op: Op, bits: seq<bool>, indexed: bool, start: nat, len: nat)
    requires op.Put? && (!indexed ==> es == [])
    ensures var r := SetResult(es, op.k, op.value, op.create, op.replace, bits, indexed, start, len);
      && Answers(AsMap(es), op, r)
      && (IsMiss(AsMap(es), op, r) <==> Miscounts(es, op.k, op.value, op.create, bits, indexed, start, len))
  {
    assert op.k in AsMap(es) <==> Has(es, op.k);
  }

  /** How one answered operation moved map and count. */
  predicate Moved(m: map<Key, Bytes>, m': map<Key, Bytes>, count: nat, count': nat, size: nat, size': nat, op: Op, r: Status) {
    && Answers(m, op, r) && m' == Apply(m, op, r)
    && if IsMiss(m, op, r) then count' == Dec(count) && size' == size
       else if r == Done && op.Delete? then count' == Dec(count) && size' == size - 1
       else if r == Done && op.k !in m then count' == Inc(count) && size' == size + 1
       else count' == count && size' == size
  }

  method DoPut(x: XattrInode, op: Op) returns (r: Status)
    requires op.Put? && x.Sound() && x.CountOk()
    modifies x, x.sbi`nrFreeBlocks, x.sbi.bfree
    ensures x.Sound() && x.CountOk()
    ensures Moved(old(AsMap(x.es)), AsMap(x.es), old(x.count), x.count, old(|x.es|), |x.es|, op, r)
  {
    ghost var es := x.es;
    if x.block == 0 { StoreIsEmpty(es); }
    SetAnswers(es, op, x.Free(), x.block != 0, x.start, x.len);
    r := x.Set(op.k, op.value, op.create, op.replace);
    PutMeans(es, op.k, op.value, r, x.es);
  }

  method DoDelete(x: XattrInode, op: Op) returns (r: Status)
    requires op.Delete? && x.Sound() && x.CountOk()
    modifies x
    ensures x.Sound() && x.CountOk()
    ensures Moved(old(AsMap(x.es)), AsMap(x.es), old(x.count), x.count, old(|x.es|), |x.es|, op, r)
  {
    ghost var es, c := x.es, x.count;
    r := x.Delete(op.k);
    DeleteMoved(es, x.es, c, x.count, op, r);
  }

  lemma DeleteMoved(es: seq<Entry>, es': seq<Entry>, c: nat, c': nat, op: Op, r: Status)
    requires op.Delete? && DistinctKeys(es) && r == if |op.k.name| == 0 || |op.k.name| > 255 then EInval else if Has(es, op.k) then Done else ENoData
    requires es' == (if r == Done then RemoveKey(es, op.k) else es) && c' == if r == Done then Dec(c) else c
    ensures Moved(AsMap(es), AsMap(es'), c, c', |es|, |es'|, op, r)
  {
    assert op.k in AsMap(es) <==> Has(es, op.k);
    DeleteMeans(es, op.k, r, es');
  }

  method Do(x: XattrInode, op: Op) returns (r: Status)
    requires x.Sound() && x.CountOk()
    modifies x, x.sbi`nrFreeBlocks, x.sbi.bfree
    ensures x.Sound() && x.CountOk()
    ensures Moved(old(AsMap(x.es)), AsMap(x.es), old(x.count), x.count, old(|x.es|), |x.es|, op, r)
  {
    if op.Put? {
      r := DoPut(x, op);
    } else {
      r := DoDelete(x, op);
    }
  }

  /** A run from the map `m`: how it was answered, the map it ends with, and the count. */
  predicate Ran(m: map<Key, Bytes>, ops: seq<Op>, rs: seq<Status>, now: map<Key, Bytes>, count: nat, size: nat, q: int) {
    |ops| == |rs| && AllAnswer(m, ops, rs) && now == ApplyAll(m, ops, rs) && Off(count, size, Misses(m, ops, rs), q)
  }

  lemma RanStep(m: map<Key, Bytes>, ops: seq<Op>, rs: seq<Status>, op: Op, r: Status, m1: map<Key, Bytes>, m2: map<Key, Bytes>,
                c1: nat, c2: nat, n1: nat, n2: nat, q: int) returns (q': int)
    requires Ran(m, ops, rs, m1, c1, n1, q) && Moved(m1, m2, c1, c2, n1, n2, op, r) && c1 < U32
    ensures Ran(m, ops + [op], rs + [r], m2, c2, n2, q')
  {
    var ops', rs', n := ops + [op], rs + [r], |ops|;
    assert ops'[..n] == ops && rs'[..n] == rs;
    DecIs(c1);
    q' := q;
    if c2 == Dec(c1) && c1 == 0 && (IsMiss(m1, op, r) || (r == Done && op.Delete?)) {
      q' := q + 1;
    } else if c2 == Inc(c1) && c1 == U32 - 1 && r == Done && op.Put? && op.k !in m1 {
      q' := q - 1;
    }
  }

  /**
   * Any run of sets and deletes, refused ones included: the store holds exactly the resulting map, and
   * the count is its size less the number of replaces that ran out of space (as a 32-bit number).
   */
  method RunOps(x: XattrInode, ops: seq<Op>) returns (rs: seq<Status>, ghost q: int)
    requires x.Valid()
    modifies x, x.sbi`nrFreeBlocks, x.sbi.bfree
    ensures x.Sound() && x.count < U32
    ensures Ran(old(AsMap(x.es)), ops, rs, AsMap(x.es), x.count, |AsMap(x.es)|, q)
  {
    ghost var m := AsMap(x.es);
    rs, q := [], 0;
    while |rs| < |ops|
      invariant |rs| <= |ops| && x.Sound() && x.CountOk()
      invariant Ran(m, ops[..|rs|], rs, AsMap(x.es), x.count, |x.es|, q)
    {
      var r;
      r, q := DoNext(x, ops, rs, m, q);
      rs := rs + [r];
    }
    assert ops[..|rs|] == ops;
    MapSize(x.es);
  }

  lemma MapSize(es: seq<Entry>)
    requires DistinctKeys(es)
    ensures |AsMap(es)| == |es|
  {
    KeySetSize(es);
    assert AsMap(es).Keys == KeySet(es);
  }

  /** The next operation of a run. */
  method DoNext(x: XattrInode, ops: seq<Op>, rs: seq<Status>, ghost m: map<Key, Bytes>, ghost q: int) returns (r: Status, ghost q': int)
    requires |rs| < |ops| && x.Sound() && x.CountOk() && Ran(m, ops[..|rs|], rs, AsMap(x.es), x.count, |x.es|, q)
    modifies x, x.sbi`nrFreeBlocks, x.sbi.bfree
    ensures x.Sound() && x.CountOk() && Ran(m, ops[..|rs| + 1], rs + [r], AsMap(x.es), x.count, |x.es|, q')
  {
    ghost var m1, c1, n1 := AsMap(x.es), x.count, |x.es|;
    r := Do(x, ops[|rs|]);
    q' := RanStep(m, ops[..|rs|], rs, ops[|rs|], r, m1, AsMap(x.es), c1, x.count, n1, |x.es|, q);
    assert ops[..|rs|] + [ops[|rs|]] == ops[..|rs| + 1];
  }

  // ---- a store that miscounts ----

  lemma OneEntry(k: Key, value: Bytes)
    ensures KernelXattr.Put([], k, value) == [Entry(k, value)] == KernelXattr.Put([Entry(k, [])], k, value)
    ensures |Store([Entry(k, value)])| == Aligned(13 + |k.name| + |value|)
  {
    var es := [Entry(k, [])];
    assert es[1..] == [] && RemoveKey(es, k) == [];
    StoreOne(Entry(k, value));
  }

  lemma SetSucceeds(bits: seq<bool>, k: Key)
    requires bits == [false, true, true, true] && 1 <= |k.name| <= 3
    ensures SetResult([], k, [], false, false, bits, false, 0, 0) == Done
  {
    OneEntry(k, []);
    assert Run(bits, 1, 1) && !bits[0];
    assert !Run(bits, 0, 1);
    assert FirstFit(bits, 0, 1, 1);
    assert Run(SetRange(bits, 1, 1, false), 2, 1);
  }

  lemma ReplaceMiscounts(k: Key, bits: seq<bool>, start: nat, len: nat)
    requires 1 <= |k.name| <= 255
    ensures Has([Entry(k, [])], k) && Miscounts([Entry(k, [])], k, Zeros(32768), false, bits, true, start, len)
  {
    OneEntry(k, Zeros(32768));
  }

  /** A fresh store on four blocks. */
  method FreshStore() returns (x: XattrInode)
    ensures fresh(x) && fresh(x.sbi) && fresh(x.sbi.bfree)
    ensures x.Sound() && x.CountOk() && x.es == [] && x.count == 0 && x.block == 0 && x.start == 0
    ensures x.Free() == [false, true, true, true]
  {
    var inodes := new bool[1] [false];
    var blocks := new bool[4] [false, true, true, true];
    var sbi := new SbInfo(1, 4, inodes, blocks);
    x := new XattrInode(sbi, seq(4, _ => Zeros(BLOCK_SIZE)));
  }

  /** A fresh store of four blocks in which one empty value was set. */
  method OneEmptyValue(k: Key) returns (x: XattrInode)
    requires 1 <= |k.name| <= 3
    ensures fresh(x) && fresh(x.sbi) && fresh(x.sbi.bfree)
    ensures x.Sound() && x.CountOk() && x.es == [Entry(k, [])] && x.count == 1 && x.block != 0
  {
    x := FreshStore();
    SetSucceeds(x.Free(), k);
    var first := x.Set(k, [], false, false);
    OneEntry(k, []);
  }

  /** The empty value is replaced by one too long for the store. */
  method MiscountShown() returns (x: XattrInode)
    ensures x.Sound() && !x.Valid() && |x.es| == 1 && x.count == 0
  {
    var k := Key(User, [97]);
    x := OneEmptyValue(k);
    ReplaceMiscounts(k, x.Free(), x.start, x.len);
    var second := x.Set(k, Zeros(32768), false, false);
    DecIs(1);
  }

  // ---- listing ----

  function Lines(es: seq<Entry>): (r: seq<Bytes>)
    ensures |r| == |es|
  {
    seq(|es|, i requires 0 <= i < |es| => FullName(es[i].key) + [0])
  }

  /** All names in order, each with a final NUL. */
  function Listing(es: seq<Entry>): Bytes {
    Join(Lines(es))
  }

  lemma {:induction false} JoinGrows(lines: seq<Bytes>, i: nat, n: nat)
    requires i <= n <= |lines|
    ensures |Join(lines[..i])| <= |Join(lines[..n])|
  {
    if i < n {
      JoinStep(lines, n - 1);
      JoinGrows(lines, i, n - 1);
    }
  }

  /** `lolelffs_listxattr`: all names, their length alone, or a refusal when the buffer is too small. */
  method List(x: XattrInode, room: Option<nat>) returns (r: Answer)
    requires x.Sound()
    ensures r == if room == None then Length(|Listing(x.es)|)
                 else if |Listing(x.es)| <= room.value then Value(Listing(x.es)) else TooSmallBuffer
  {
    if x.block == 0 || x.totalSize == 0 {
      StoreIsEmpty(x.es);
      return if room.None? then Length(0) else Value([]);
    }
    var data := x.ReadData();
    r := ListRecords(data[..], room, x.es, Lines(x.es));
  }

  method ListRecords(data: Bytes, room: Option<nat>, ghost es: seq<Entry>, ghost lines: seq<Bytes>) returns (r: Answer)
    requires data == Store(es) && AllSized(es) && lines == Lines(es)
    ensures r == if room == None then Length(|Join(lines)|)
                 else if |Join(lines)| <= room.value then Value(Join(lines)) else TooSmallBuffer
  {
    ListedEnds(lines);
    StoreEnds(es);
    var offset, total: nat, out := 0, 0, [];
    ghost var j := 0;
    while offset + 12 <= |data|
      invariant j <= |lines| && offset == OffsetAt(es, j) && total == |Listed(lines, j)|
      invariant room.Some? ==> out == Listed(lines, j) && total <= room.value
      decreases |lines| - j
    {
      var line, next := NextLine(data, offset, es, j, lines);
      ListedNext(lines, j);
      if room.Some? {
        if total + |line| > room.value {
          return TooSmallBuffer;
        }
        out := out + line;
      }
      total := total + |line|;
      offset := next;
      j := j + 1;
    }
    AllSeen(es, j);
    return if room.None? then Length(total) else Value(out);
  }

  /** The first `j` lines. */
  ghost function Listed(lines: seq<Bytes>, j: nat): Bytes
    requires j <= |lines|
  {
    Join(lines[..j])
  }

  lemma ListedEnds(lines: seq<Bytes>)
    ensures Listed(lines, 0) == [] && Listed(lines, |lines|) == Join(lines)
  {
    assert lines[..0] == [] && lines[..|lines|] == lines;
  }

  lemma ListedNext(lines: seq<Bytes>, j: nat)
    requires j < |lines|
    ensures Listed(lines, j + 1) == Listed(lines, j) + lines[j]
    ensures |Listed(lines, j + 1)| <= |Listed(lines, |lines|)|
  {
    JoinStep(lines, j);
    JoinGrows(lines, j + 1, |lines|);
  }

  /** Where no further record starts, all have been seen. */
  lemma AllSeen(es: seq<Entry>, j: nat)
    requires AllSized(es) && j <= |es| && OffsetAt(es, j) + 12 > |Store(es)|
    ensures j == |es|
  {
    if j < |es| {
      StoreEnds(es);
      EntrySeen(es, j);
    }
  }

  /** The fields of the j-th record that listing looks at. */
  lemma LineRead(es: seq<Entry>, j: nat)
    requires AllSized(es) && j <= |es| && OffsetAt(es, j) + 12 <= |Store(es)|
    ensures j < |es|
    ensures var o, data := OffsetAt(es, j), Store(es);
      && NsOf(data[o + 1]) == Some(es[j].key.ns)
      && o + 12 + data[o] <= |data| && data[o + 12..o + 12 + data[o]] == es[j].key.name
      && Aligned(o + 12 + data[o] + 1 + U16At(data, o + 2)) == OffsetAt(es, j + 1)
  {
    StoreEnds(es);
    EntrySeen(es, j);
  }

  /** The listed name of the record at `o`, and where the next record starts. */
  method NextLine(data: Bytes, o: nat, ghost es: seq<Entry>, ghost j: nat, ghost lines: seq<Bytes>) returns (line: Bytes, next: nat)
    requires data == Store(es) && AllSized(es) && j <= |es| && o == OffsetAt(es, j) && o + 12 <= |data| && lines == Lines(es)
    ensures j < |es| && line == lines[j] && next == OffsetAt(es, j + 1)
  {
    LineRead(es, j);
    var ns := NsOf(data[o + 1]);
    line := Prefix(ns.value) + data[o + 12..o + 12 + data[o]] + [0];
    next := Aligned(o + 12 + data[o] + 1 + U16At(data, o + 2));
  }

  // ---- freeing ----

  /** Give back the data run; the index block stays taken. */
  method FreeRun(x: XattrInode)
    requires x.Sound() && x.block != 0
    modifies x.sbi`nrFreeBlocks, x.sbi.bfree
    ensures x.sbi.Valid() && Taken(x.sbi.bfree[..x.sbi.nrBlocks], x.block, 1) && !x.sbi.bfree[0]
    ensures x.sbi.bfree[..] == if x.start == 0 then old(x.sbi.bfree[..]) else SetRange(old(x.sbi.bfree[..]), x.start, x.len, true)
  {
    if x.start != 0 {
      ghost var s := x.sbi.bfree[..];
      ghost var nr := x.sbi.nrBlocks;
      assert s[..nr] == x.sbi.bfree[..nr];
      TakenAfterPut(s[..nr], x.start, x.len);
      x.sbi.PutBlocks(x.start, x.len);
      assert x.sbi.bfree[..nr] == SetRange(s[..nr], x.start, x.len, true);
    }
  }

  method FreeRunAndIndex(x: XattrInode)
    requires x.Sound() && x.block != 0
    modifies x.sbi`nrFreeBlocks, x.sbi.bfree
    ensures x.sbi.Valid() && !x.sbi.bfree[0]
    ensures x.sbi.bfree[..] == GivenBack(old(x.sbi.bfree[..]), x.block, x.start, x.len)
  {
    FreeRun(x);
    x.sbi.PutBlocks(x.block, 1);
  }

  /** `lolelffs_xattr_free_blocks`: the run and the index block are given back, nothing else. */
  method FreeBlocks(x: XattrInode)
    requires x.Sound() && x.CountOk()
    modifies x, x.sbi`nrFreeBlocks, x.sbi.bfree
    ensures x.Valid() && x.es == [] && x.block == 0
    ensures x.sbi.bfree[..] == GivenBack(old(x.sbi.bfree[..]), old(x.block), old(x.start), old(x.len))
  {
    if x.block == 0 {
      StoreIsEmpty(x.es);
      return;
    }
    FreeRunAndIndex(x);
    Reset(x);
  }

  method Reset(x: XattrInode)
    requires x.sbi.Valid() && 0 < x.sbi.nrBlocks && !x.sbi.bfree[0] && |x.disk| == x.sbi.nrBlocks && Blocks(x.disk)
    modifies x
    ensures x.Valid() && x.es == [] && x.block == 0
  {
    x.block, x.totalSize, x.count, x.start, x.len := 0, 0, 0, 0, 0;
    x.es := [];
  }

  function GivenBack(s: seq<bool>, block: nat, start: nat, len: nat): seq<bool> {
    if block == 0 then s
    else SetRange(if start == 0 then s else SetRange(s, start, len, true), block, 1, true)
  }
}
