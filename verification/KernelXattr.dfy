/** The kernel module's attribute store of one inode (src/xattr.c): get, set, replace, delete. */
module KernelXattr {
  import opened Layout
  import opened Bits
  import opened XattrCodec
  import opened KernelBitmap
  import opened KernelAlloc
  import opened KernelXattrRecords
  import opened KernelXattrBuffer
  import opened KernelXattrBlocks

  datatype Status = Done | EInval | ENoData | EExist | ENoSpc

  /** What a get answers: the size alone when no buffer is given. */
  datatype Answer = Missing | TooSmallBuffer | Length(n: nat) | Value(v: Bytes)

  const MAX_STORE: nat := 32768

  // The entry count is a 32-bit field of the index block.
  function Dec(c: nat): nat { (c + U32 - 1) % U32 }
  function Inc(c: nat): nat { (c + 1) % U32 }

  lemma DecIs(c: nat)
    requires c < U32
    ensures Dec(c) == (if c == 0 then U32 - 1 else c - 1) && Inc(Dec(c)) == c
    ensures Inc(c) == if c == U32 - 1 then 0 else c + 1
  {
  }

  // ---- what a set answers, from the state before it ----

  /** There is no run of blocks for the store with the new entry. */
  ghost predicate NoRun(bits: seq<bool>, indexed: bool, start: nat, len: nat, n: nat) {
    if indexed then (start == 0 || len < n) && !RunFrom(bits, 0, n)
    else forall b: nat :: FirstFit(bits, 0, b, 1) ==> !RunFrom(SetRange(bits, b, 1, false), 0, n)
  }

  /** The store with the new entry is too long, or there is no run of blocks for it. */
  ghost predicate NoSpaceFor(es: seq<Entry>, k: Key, value: Bytes, bits: seq<bool>, indexed: bool, start: nat, len: nat) {
    var size := |Store(Put(es, k, value))|;
    size > MAX_STORE || NoRun(bits, indexed, start, len, NumBlocks(size))
  }

  /** The answer of a set: arguments, index block, flags and space, in this order. */
  ghost function SetResult(es: seq<Entry>, k: Key, value: Bytes, create: bool, replace: bool,
                           bits: seq<bool>, indexed: bool, start: nat, len: nat): Status {
    if |k.name| == 0 || |k.name| > 255 then EInval
    else if |value| > 65535 || (!indexed && !RunFrom(bits, 0, 1)) then ENoSpc
    else if Has(es, k) && create then EExist
    else if !Has(es, k) && replace then ENoData
    else if NoSpaceFor(es, k, value, bits, indexed, start, len) then ENoSpc
    else Done
  }

  /** A replace without space: the old entry is already counted out when the space is found missing. */
  ghost predicate Miscounts(es: seq<Entry>, k: Key, value: Bytes, create: bool, bits: seq<bool>, indexed: bool, start: nat, len: nat) {
    && Has(es, k) && 1 <= |k.name| <= 255 && |value| <= 65535 && !create
    && NoSpaceFor(es, k, value, bits, indexed, start, len)
  }

  /**
   * The attribute fields of an inode: the index block (`xattr_block`, 0 when there is none), what the
   * index holds (total size, count, its single extent), and the device behind it.
   */
  class XattrInode {
    const sbi: SbInfo
    var disk: seq<Bytes>
    var block: nat
    var totalSize: nat
    var count: nat
    var start: nat
    var len: nat
    ghost var es: seq<Entry>

    /** An inode without attributes. */
    constructor (sb: SbInfo, device: seq<Bytes>)
      requires sb.Valid() && 0 < sb.nrBlocks && !sb.bfree[0] && |device| == sb.nrBlocks && Blocks(device)
      ensures sbi == sb && Valid() && es == [] && block == 0 && start == 0
    {
      sbi, disk := sb, device;
      block, totalSize, count, start, len := 0, 0, 0, 0, 0;
      es := [];
    }

    /** The bytes in the store. */
    ghost function Content(): Bytes
      reads `disk, `start, `len, `totalSize
    {
      if start == 0 || start + len > |disk| then [] else StoredBytes(disk[start..start + len], totalSize)
    }

    /** The index block and the data run are taken and apart, and the run is long enough. */
    ghost predicate Owned()
      reads `block, `start, `len, `totalSize, sbi, sbi.bfree
    {
      && sbi.nrBlocks <= sbi.bfree.Length
      && (block != 0 ==> Taken(sbi.bfree[..sbi.nrBlocks], block, 1))
      && (start != 0 ==>
            && block != 0 && 0 < len && Taken(sbi.bfree[..sbi.nrBlocks], start, len)
            && !(start <= block < start + len) && totalSize <= 4096 * len)
      && (start == 0 ==> totalSize == 0)
    }

    /** Everything but the entry count. */
    ghost predicate Sound()
      reads `disk, `block, `start, `len, `totalSize, `es, sbi, sbi.bfree, sbi.ifree
    {
      && sbi.Valid() && 0 < sbi.nrBlocks && !sbi.bfree[0]
      && |disk| == sbi.nrBlocks && Blocks(disk)
      && Owned()
      && Content() == Store(es) && totalSize == |Store(es)|
      && AllSized(es) && DistinctKeys(es)
    }

    /** The count is a 32-bit number, and 0 while there is no index block. */
    ghost predicate CountOk()
      reads `count, `block
    {
      count < U32 && (block == 0 ==> count == 0)
    }

    /** A sound store whose count is right. */
    ghost predicate Valid()
      reads this, sbi, sbi.bfree, sbi.ifree
    {
      Sound() && CountOk() && count == |es|
    }

    /** The bitmap as the allocator sees it. */
    ghost function Free(): seq<bool>
      requires sbi.nrBlocks <= sbi.bfree.Length
      reads sbi, sbi.bfree
    {
      sbi.bfree[..sbi.nrBlocks]
    }

    /** `lolelffs_xattr_read_data`. */
    method ReadData() returns (data: array<byte>)
      requires Sound()
      ensures fresh(data) && data[..] == Store(es)
    {
      data := new byte[totalSize];
      if start != 0 {
        ReadRun(disk[start..start + len], totalSize, data);
      }
    }

    /** `lolelffs_xattr_get`: the value last set, its size, or that the caller's buffer is too small. */
    method Get(k: Key, room: Option<nat>) returns (r: Answer)
      requires Sound()
      ensures r == if k !in AsMap(es) then Missing
                   else if room == None then Length(|AsMap(es)[k]|)
                   else if room.value < |AsMap(es)[k]| then TooSmallBuffer
                   else Value(AsMap(es)[k])
    {
      if block == 0 || totalSize == 0 {
        StoreIsEmpty(es);
        return Missing;
      }
      var data := ReadData();
      var o := FindEntry(data[..], k, es);
      if o.None? {
        return Missing;
      }
      var value := ValueAt(data, o.value, es, IndexOf(es, k));
      if room.None? {
        return Length(|value|);
      }
      return if room.value < |value| then TooSmallBuffer else Value(value);
    }

    /** The index block, allocated on first use. */
    method EnsureIndex() returns (ok: bool)
      requires Sound() && CountOk()
      modifies this, sbi`nrFreeBlocks, sbi.bfree
      ensures Sound() && CountOk() && es == old(es) && count == old(count)
      ensures ok <==> old(block) != 0 || RunFrom(old(Free()), 0, 1)
      ensures ok ==> block != 0
      ensures old(block) != 0 ==> Free() == old(Free()) && start == old(start) && len == old(len)
      ensures old(block) == 0 ==> es == [] && start == 0
      ensures old(block) == 0 && ok ==> FirstFit(old(Free()), 0, block, 1) && Free() == SetRange(old(Free()), block, 1, false)
    {
      if block != 0 {
        return true;
      }
      StoreIsEmpty(es);
      ghost var s := sbi.bfree[..];
      ghost var nr := sbi.nrBlocks;
      assert Free() == s[..nr];
      var b := sbi.GetFreeBlocks(1);
      if b == 0 {
        assert Free() == s[..nr];
        return false;
      }
      TakenAfter(s, nr, 1, b, sbi.bfree[..]);
      assert sbi.bfree[..][..nr] == sbi.bfree[..nr] == SetRange(s[..nr], b, 1, false);
      block, totalSize, count, start, len := b, 0, 0, 0, 0;
      return true;
    }

    /**
     * The new buffer of a set: the record of an existing key is moved over, the new record goes to
     * the end. The entry count in the index drops here when the key existed.
     */
    method Rebuild(k: Key, value: Bytes, create: bool, replace: bool) returns (r: Status, b: array<byte>)
      requires Sound() && count < U32 && Sized(Entry(k, value))
      modifies this`count
      ensures fresh(b)
      ensures r == EditAnswer(es, k, value, create, replace)
      ensures count == if Has(es, k) && (r == Done || r == ENoSpc) then Dec(old(count)) else old(count)
      ensures r == Done ==> b[..] == Store(Put(es, k, value))
    {
      var data := ReadData();
      var dropped;
      r, dropped, b := EditBuffer(data, k, value, create, replace, es);
      if dropped {
        count := Dec(count);
      }
    }

    /** The allocator is sound; the index block and a run of at least `needed` blocks are held. */
    ghost predicate Holds(needed: nat)
      reads `block, `start, `len, sbi, sbi.bfree, sbi.ifree
    {
      && sbi.Valid() && 0 < sbi.nrBlocks && !sbi.bfree[0]
      && block != 0 && Taken(sbi.bfree[..sbi.nrBlocks], block, 1)
      && start != 0 && 0 < needed <= len && Taken(sbi.bfree[..sbi.nrBlocks], start, len)
      && !(start <= block < start + len)
    }

    /** Make sure the run has `needed` blocks; a longer run replaces the old one. */
    method Reserve(needed: nat) returns (ok: bool)
      requires Sound() && block != 0 && needed > 0
      modifies this`start, this`len, sbi`nrFreeBlocks, sbi.bfree
      ensures ok ==> Holds(needed)
      ensures ok <==> !old(NoRun(Free(), true, start, len, needed))
      ensures !ok ==> Sound()
    {
      if start != 0 && len >= needed {
        return true;
      }
      ghost var s := sbi.bfree[..];
      assert Free() == s[..sbi.nrBlocks];
      var b := sbi.GetFreeBlocks(needed);
      if b == 0 {
        assert Free() == s[..sbi.nrBlocks];
        return false;
      }
      ghost var s1 := sbi.bfree[..];
      TakenAfter(s, sbi.nrBlocks, needed, b, s1);
      assert s1[..sbi.nrBlocks] == sbi.bfree[..sbi.nrBlocks];
      if start != 0 {
        TakenAfterPut(s1[..sbi.nrBlocks], start, len);
        sbi.PutBlocks(start, len);
        assert sbi.bfree[..sbi.nrBlocks] == SetRange(s1[..sbi.nrBlocks], start, len, true);
      }
      start, len := b, needed;
      return true;
    }

    /** Write the new buffer to the run and record its size. */
    method Fill(b: array<byte>, size: nat, ghost entries: seq<Entry>)
      requires size <= b.Length && size <= 4096 * len && Holds(1) && |disk| == sbi.nrBlocks && Blocks(disk)
      requires b[..size] == Store(entries) && AllSized(entries) && DistinctKeys(entries)
      modifies this`disk, this`totalSize, this`es
      ensures Sound() && es == entries
    {
      var run := WriteRun(disk[start..start + len], b, size);
      SpliceRun(disk, start, run);
      disk := disk[..start] + run + disk[start + len..];
      totalSize := size;
      es := entries;
    }

    /** Put a whole new buffer on disk, in a run that is long enough. */
    method Place(b: array<byte>, ghost entries: seq<Entry>) returns (ok: bool)
      requires Sound() && block != 0 && b[..] == Store(entries) && 0 < b.Length
      requires AllSized(entries) && DistinctKeys(entries)
      modifies this, sbi`nrFreeBlocks, sbi.bfree
      ensures Sound() && count == old(count) && block == old(block)
      ensures es == if ok then entries else old(es)
      ensures ok <==> !old(NoRun(Free(), true, start, len, NumBlocks(|Store(entries)|)))
    {
      assert |b[..]| == b.Length && b[..b.Length] == b[..];
      ok := Reserve(NumBlocks(b.Length));
      if ok {
        Fill(b, b.Length, entries);
      }
    }

    /** Place the buffer with the new record and count it. */
    method Commit(b: array<byte>, ghost k: Key, ghost value: Bytes) returns (ok: bool)
      requires Sound() && block != 0 && Sized(Entry(k, value)) && b[..] == Store(Put(es, k, value))
      modifies this, sbi`nrFreeBlocks, sbi.bfree
      ensures Sound() && block == old(block)
      ensures es == if ok then Put(old(es), k, value) else old(es)
      ensures count == if ok then Inc(old(count)) else old(count)
      ensures ok <==> !old(NoRun(Free(), true, start, len, NumBlocks(|Store(Put(es, k, value))|)))
    {
      ghost var entries := Put(es, k, value);
      PutReady(es, k, value, entries);
      ok := Place(b, entries);
      if ok {
        count := Inc(count);
      }
    }

    /** The part of a set after its arguments are checked and the index block is there. */
    method SetSized(k: Key, value: Bytes, create: bool, replace: bool) returns (r: Status)
      requires Sound() && count < U32 && block != 0 && Sized(Entry(k, value))
      modifies this, sbi`nrFreeBlocks, sbi.bfree
      ensures Sound() && block == old(block)
      ensures r == old(SizedResult(es, k, value, create, replace, Free(), start, len))
      ensures es == if r == Done then Put(old(es), k, value) else old(es)
      ensures count == CountAfter(old(count), Has(old(es), k), r)
    {
      var b;
      r, b := Rebuild(k, value, create, replace);
      if r == Done {
        var ok := Commit(b, k, value);
        r := if ok then Done else ENoSpc;
      }
    }

    /** The part of a set after its arguments are checked. */
    method SetChecked(k: Key, value: Bytes, create: bool, replace: bool) returns (r: Status)
      requires Sound() && CountOk() && Sized(Entry(k, value))
      modifies this, sbi`nrFreeBlocks, sbi.bfree
      ensures Sound() && CountOk()
      ensures r == old(SetResult(es, k, value, create, replace, Free(), block != 0, start, len))
      ensures es == if r == Done then Put(old(es), k, value) else old(es)
      ensures var miss := old(Miscounts(es, k, value, create, Free(), block != 0, start, len));
        && count == (if miss then Dec(old(count)) else if r == Done && !Has(old(es), k) then Inc(old(count)) else old(count))
        && (old(count == |es|) ==> (count == |es| <==> !miss))
    {
      ghost var bits, start0, len0, indexed := Free(), start, len, block != 0;
      var ok := EnsureIndex();
      if !ok {
        NoIndexAnswer(k, value, create, replace, bits, start0, len0);
        return ENoSpc;
      }
      r := SetIndexed(k, value, create, replace, bits, indexed, start0, len0);
    }

    /** The same, once the index block is there; the ghost arguments are the state before. */
    method SetIndexed(k: Key, value: Bytes, create: bool, replace: bool, ghost bits: seq<bool>, ghost indexed: bool, ghost start0: nat, ghost len0: nat)
      returns (r: Status)
      requires Sound() && CountOk() && block != 0 && Sized(Entry(k, value))
      requires if indexed then Free() == bits && start == start0 && len == len0
               else es == [] && start == start0 == 0 && FirstFit(bits, 0, block, 1) && Free() == SetRange(bits, block, 1, false)
      modifies this, sbi`nrFreeBlocks, sbi.bfree
      ensures Sound() && CountOk()
      ensures r == SetResult(old(es), k, value, create, replace, bits, indexed, start0, len0)
      ensures es == if r == Done then Put(old(es), k, value) else old(es)
      ensures var miss := Miscounts(old(es), k, value, create, bits, indexed, start0, len0);
        && count == (if miss then Dec(old(count)) else if r == Done && !Has(old(es), k) then Inc(old(count)) else old(count))
        && (old(count == |es|) ==> (count == |es| <==> !miss))
    {
      SameAnswer(es, k, value, create, replace, bits, Free(), indexed, block, start0, len0, start, len);
      r := SetSized(k, value, create, replace);
      CountRight(old(es), k, value, es, old(count), count, r);
    }

    /**
     * `lolelffs_xattr_set` with a value, for any store, also one that was miscounted before. The answer
     * is fixed by the state before the call. On success the attribute map is updated; otherwise no
     * entry changes. The count follows, except for a replace that finds no space.
     */
    method Set(k: Key, value: Bytes, create: bool, replace: bool) returns (r: Status)
      requires Sound() && CountOk()
      modifies this, sbi`nrFreeBlocks, sbi.bfree
      ensures Sound() && CountOk()
      ensures r == old(SetResult(es, k, value, create, replace, Free(), block != 0, start, len))
      ensures es == if r == Done then Put(old(es), k, value) else old(es)
      ensures count == if old(Miscounts(es, k, value, create, Free(), block != 0, start, len)) then Dec(old(count))
                       else if r == Done && !Has(old(es), k) then Inc(old(count)) else old(count)
      ensures old(Valid()) ==> (Valid() <==> !old(Miscounts(es, k, value, create, Free(), block != 0, start, len)))
    {
      if |k.name| == 0 || |k.name| > 255 {
        return EInval;
      }
      if |value| > 65535 {
        return ENoSpc;
      }
      r := SetChecked(k, value, create, replace);
    }

    /** `lolelffs_xattr_set` without a value: exactly this key goes. */
    method Delete(k: Key) returns (r: Status)
      requires Sound() && CountOk()
      modifies this
      ensures Sound() && CountOk()
      ensures r == (if |k.name| == 0 || |k.name| > 255 then EInval else if Has(old(es), k) then Done else ENoData)
      ensures es == if r == Done then RemoveKey(old(es), k) else old(es)
      ensures count == if r == Done then Dec(old(count)) else old(count)
      ensures old(Valid()) ==> Valid()
    {
      if |k.name| == 0 || |k.name| > 255 {
        return EInval;
      }
      if block == 0 {
        StoreIsEmpty(es);
        return ENoData;
      }
      var found, data, size := FindForDelete(k);
      if !found {
        return ENoData;
      }
      Shrink(data, size, k);
      return Done;
    }

    /** The buffer without the record of `k`, if there is one. */
    method FindForDelete(k: Key) returns (found: bool, data: array<byte>, size: nat)
      requires Sound()
      ensures fresh(data) && (found <==> Has(es, k))
      ensures found ==> size <= data.Length && data[..size] == Store(RemoveKey(es, k)) && size <= totalSize
    {
      size := 0;
      data := ReadData();
      var o := FindEntry(data[..], k, es);
      found := o.Some?;
      if found {
        size := DropRecord(data, o.value, k, es);
      }
    }

    /** Write back the store without the record of `k`. */
    method Shrink(data: array<byte>, size: nat, ghost k: Key)
      requires Sound() && CountOk() && Has(es, k) && size <= data.Length && data[..size] == Store(RemoveKey(es, k)) && size <= totalSize
      modifies this
      ensures Sound() && CountOk() && es == RemoveKey(old(es), k) && count == Dec(old(count))
      ensures old(Valid()) ==> Valid()
    {
      DeleteReady(es, k);
      assert start != 0;
      ghost var before := |es|;
      Fill(data, size, RemoveKey(es, k));
      DecIs(count);
      count := Dec(count);
      assert |es| == before - 1;
    }
  }

  /** The answer once there is an index block. */
  ghost function SizedResult(es: seq<Entry>, k: Key, value: Bytes, create: bool, replace: bool, bits: seq<bool>, start: nat, len: nat): Status {
    var r := EditAnswer(es, k, value, create, replace);
    if r == Done && NoRun(bits, true, start, len, NumBlocks(|Store(Put(es, k, value))|)) then ENoSpc else r
  }

  function CountAfter(count: nat, has: bool, r: Status): nat {
    if r == Done then (if has then Inc(Dec(count)) else Inc(count)) else if r == ENoSpc && has then Dec(count) else count
  }

  /** Allocating the index block first does not change what the set answers. */
  lemma SameAnswer(es: seq<Entry>, k: Key, value: Bytes, create: bool, replace: bool, bits: seq<bool>, now: seq<bool>,
                   indexed: bool, block: nat, start0: nat, len0: nat, start: nat, len: nat)
    requires 1 <= |k.name| <= 255 && |value| <= 65535
    requires if indexed then now == bits && start == start0 && len == len0
             else es == [] && start == start0 == 0 && FirstFit(bits, 0, block, 1) && now == SetRange(bits, block, 1, false)
    ensures SizedResult(es, k, value, create, replace, now, start, len)
         == SetResult(es, k, value, create, replace, bits, indexed, start0, len0)
    ensures SizedResult(es, k, value, create, replace, now, start, len) == ENoSpc && Has(es, k)
       <==> Miscounts(es, k, value, create, bits, indexed, start0, len0)
  {
    if !indexed {
      assert RunFrom(bits, 0, 1);
      forall b: nat | FirstFit(bits, 0, b, 1) ensures b == block { FirstFitUnique(bits, 0, b, block, 1); }
    }
  }

  /** Without an index block and without a free block the answer is that there is no space, and nothing is miscounted. */
  lemma NoIndexAnswer(k: Key, value: Bytes, create: bool, replace: bool, bits: seq<bool>, start: nat, len: nat)
    requires 1 <= |k.name| <= 255 && |value| <= 65535 && !RunFrom(bits, 0, 1)
    ensures SetResult([], k, value, create, replace, bits, false, start, len) == ENoSpc
    ensures !Miscounts([], k, value, create, bits, false, start, len)
  {
  }

  lemma EntriesTakeSpace(es: seq<Entry>)
    ensures |es| <= |Store(es)|
  {
    StoreEnds(es);
    OffsetGrows(es, |es|);
  }

  lemma {:induction false} OffsetGrows(es: seq<Entry>, i: nat)
    requires i <= |es|
    ensures i <= OffsetAt(es, i)
  {
    if i > 0 { OffsetGrows(es, i - 1); }
  }

  lemma CountRight(es: seq<Entry>, k: Key, value: Bytes, es': seq<Entry>, c: nat, c': nat, r: Status)
    requires DistinctKeys(es) && AllSized(es) && Sized(Entry(k, value)) && c < U32 && c' == CountAfter(c, Has(es, k), r)
    requires es' == (if r == Done then Put(es, k, value) else es) && (r == Done ==> |Store(es')| <= MAX_STORE)
    ensures c' < U32
    ensures c' == if r == ENoSpc && Has(es, k) then Dec(c) else if r == Done && !Has(es, k) then Inc(c) else c
    ensures c == |es| ==> (c' == |es'| <==> !(r == ENoSpc && Has(es, k)))
  {
    DecIs(c);
    PutIsUpdate(es, k, value);
    EntriesTakeSpace(es');
  }

  /** The edit of the buffer: move over the old record, append the new one. */
  method EditBuffer(data: array<byte>, k: Key, value: Bytes, create: bool, replace: bool, ghost es: seq<Entry>)
    returns (r: Status, dropped: bool, b: array<byte>)
    requires data[..] == Store(es) && AllSized(es) && DistinctKeys(es) && Sized(Entry(k, value))
    modifies data
    ensures fresh(b)
    ensures r == EditAnswer(es, k, value, create, replace)
    ensures dropped <==> Has(es, k) && (r == Done || r == ENoSpc)
    ensures r == Done ==> b[..] == Store(Put(es, k, value))
  {
    b := new byte[0];
    dropped := false;
    var o := FindEntry(data[..], k, es);
    if o.Some? && create {
      return EExist, false, b;
    }
    if o.None? && replace {
      return ENoData, false, b;
    }
    dropped := o.Some?;
    var size := KeepOthers(data, o, k, es);
    StoreAppend(RemoveKey(es, k), Entry(k, value));
    if size + Aligned(12 + |k.name| + 1 + |value|) > MAX_STORE {
      return ENoSpc, dropped, b;
    }
    b := AppendRecord(data, size, Entry(k, value));
    return Done, dropped, b;
  }

  method KeepOthers(data: array<byte>, o: Option<nat>, k: Key, ghost es: seq<Entry>) returns (size: nat)
    requires data[..] == Store(es) && AllSized(es) && DistinctKeys(es)
    requires o == if Has(es, k) then Some(OffsetAt(es, IndexOf(es, k))) else None
    modifies data
    ensures size <= data.Length && data[..size] == Store(RemoveKey(es, k))
  {
    if o.Some? {
      size := DropRecord(data, o.value, k, es);
    } else {
      NothingToDrop(es, k);
      size := data.Length;
      assert data[..size] == data[..];
    }
  }

  lemma NothingToDrop(es: seq<Entry>, k: Key)
    requires DistinctKeys(es) && !Has(es, k)
    ensures RemoveKey(es, k) == es
  {
    RemoveAt(es, k);
  }

  lemma DropIs(es: seq<Entry>, k: Key)
    requires DistinctKeys(es) && Has(es, k)
    ensures DropAt(es, IndexOf(es, k), Store(RemoveKey(es, k)))
  {
    RemoveIsWithout(es, k);
    DropWithout(es, IndexOf(es, k));
  }

  /** `t` is the store without the bytes of entry `i`. */
  predicate DropAt(es: seq<Entry>, i: nat, t: Bytes)
    requires i < |es|
  {
    var s := Store(es);
    var o := OffsetAt(es, i);
    var n := Aligned(Size(es[i]));
    o + n <= |s| && t == s[..o] + s[o + n..|s|]
  }

  lemma DropWithout(es: seq<Entry>, i: nat)
    requires i < |es|
    ensures DropAt(es, i, Store(Without(es, i)))
  {
    StoreWithout(es, i);
    ToTheEnd(Store(es), OffsetAt(es, i) + Aligned(Size(es[i])));
  }

  lemma ToTheEnd(s: Bytes, a: nat)
    requires a <= |s|
    ensures s[a..] == s[a..|s|]
  {
  }

  lemma RemoveIsWithout(es: seq<Entry>, k: Key)
    requires DistinctKeys(es) && Has(es, k)
    ensures RemoveKey(es, k) == Without(es, IndexOf(es, k))
  {
    RemoveAt(es, k);
  }

  /** Remove the record of an existing key from the buffer. */
  method DropRecord(data: array<byte>, o: nat, k: Key, ghost es: seq<Entry>) returns (size: nat)
    requires data[..] == Store(es) && AllSized(es) && DistinctKeys(es) && Has(es, k) && o == OffsetAt(es, IndexOf(es, k))
    modifies data
    ensures size <= data.Length && data[..size] == Store(RemoveKey(es, k))
  {
    DropIs(es, k);
    size := CutRecord(data, o, es, IndexOf(es, k));
  }

  /** Move everything after the record at `o` over it. */
  method CutRecord(data: array<byte>, o: nat, ghost es: seq<Entry>, ghost j: nat) returns (size: nat)
    requires data[..] == Store(es) && AllSized(es) && j < |es| && o == OffsetAt(es, j)
    modifies data
    ensures var s := old(data[..]); var n := Aligned(Size(es[j]));
      o + n <= |s| && size == |s| - n <= data.Length && data[..size] == s[..o] + s[o + n..|s|]
  {
    var n := RecordSizeAt(data, o, es, j);
    size := data.Length - n;
    CloseGap(data, data.Length, o, n);
  }

  /** What the edit of the buffer answers: flags, then the size. */
  function EditAnswer(es: seq<Entry>, k: Key, value: Bytes, create: bool, replace: bool): Status {
    if Has(es, k) && create then EExist
    else if !Has(es, k) && replace then ENoData
    else if |Store(Put(es, k, value))| > MAX_STORE then ENoSpc
    else Done
  }

  /** The list after a set: the key moves to the end. */
  function Put(es: seq<Entry>, k: Key, value: Bytes): seq<Entry> {
    RemoveKey(es, k) + [Entry(k, value)]
  }

  /** A set is an update of the map. */
  lemma PutIsUpdate(es: seq<Entry>, k: Key, value: Bytes)
    requires DistinctKeys(es)
    ensures AsMap(Put(es, k, value)) == AsMap(es)[k := value]
    ensures DistinctKeys(Put(es, k, value))
    ensures |Put(es, k, value)| == |es| + (if Has(es, k) then 0 else 1)
    ensures AllSized(es) && Sized(Entry(k, value)) ==> AllSized(Put(es, k, value))
  {
    var kept := RemoveKey(es, k);
    RemoveKeepsDistinct(es, k);
    KeyIsGone(es, k);
    PutSets(kept, k, value);
    RemoveIsRemoval(es, k);
    UpdateAbsorbs(AsMap(es), k, value);
    PutKeepsSizes(es, k, value);
  }

  lemma PutReady(es: seq<Entry>, k: Key, value: Bytes, entries: seq<Entry>)
    requires DistinctKeys(es) && AllSized(es) && Sized(Entry(k, value)) && entries == Put(es, k, value)
    ensures DistinctKeys(entries) && AllSized(entries) && |Store(entries)| > 0
    ensures |entries| == |es| + (if Has(es, k) then 0 else 1)
  {
    PutIsUpdate(es, k, value);
    StoreAppend(RemoveKey(es, k), Entry(k, value));
  }

  lemma DeleteReady(es: seq<Entry>, k: Key)
    requires DistinctKeys(es) && AllSized(es) && Has(es, k)
    ensures DistinctKeys(RemoveKey(es, k)) && AllSized(RemoveKey(es, k))
    ensures |RemoveKey(es, k)| == |es| - 1 && |Store(es)| > 0
  {
    RemoveKeepsDistinct(es, k);
    PutKeepsSizes(es, k, []);
    StoreEnds(es);
  }

  lemma UpdateAbsorbs(m: map<Key, Bytes>, k: Key, value: Bytes)
    ensures (m - {k})[k := value] == m[k := value]
  {
  }

  lemma KeyIsGone(es: seq<Entry>, k: Key)
    requires DistinctKeys(es)
    ensures !Has(RemoveKey(es, k), k)
  {
    RemoveIsRemoval(es, k);
    assert k !in AsMap(RemoveKey(es, k));
  }

  lemma PutSets(kept: seq<Entry>, k: Key, value: Bytes)
    requires DistinctKeys(kept) && !Has(kept, k)
    ensures DistinctKeys(kept + [Entry(k, value)]) && AsMap(kept + [Entry(k, value)]) == AsMap(kept)[k := value]
  {
    assert SetEntry(kept, k, value) == kept + [Entry(k, value)];
    SetIsUpdate(kept, k, value);
    SetKeepsDistinct(kept, k, value);
  }

  lemma PutKeepsSizes(es: seq<Entry>, k: Key, value: Bytes)
    requires DistinctKeys(es)
    ensures AllSized(es) ==> AllSized(RemoveKey(es, k))
    ensures AllSized(es) && Sized(Entry(k, value)) ==> AllSized(Put(es, k, value))
  {
    RemoveAt(es, k);
  }

  lemma SpliceRun(disk: seq<Bytes>, start: nat, run: seq<Bytes>)
    requires start + |run| <= |disk| && Blocks(disk) && Blocks(run)
    ensures var d := disk[..start] + run + disk[start + |run|..];
      |d| == |disk| && Blocks(d) && d[start..start + |run|] == run
  {
  }

  lemma TakenAfterPut(s: seq<bool>, start: nat, len: nat)
    ensures forall b: nat, n: nat :: Taken(s, b, n) && (b + n <= start || start + len <= b) ==> Taken(SetRange(s, start, len, true), b, n)
  {
  }

  lemma TakenAfter(s: seq<bool>, size: nat, len: nat, r: nat, s': seq<bool>)
    requires size <= |s| && r != 0 && Allocates(s, 0, size, len, r, s')
    ensures |s'| == |s| && !s'[..size][r] && Taken(s'[..size], r, len)
    ensures forall b: nat, n: nat :: Taken(s[..size], b, n) ==> Taken(s'[..size], b, n)
    ensures forall b: nat, n: nat :: Taken(s[..size], b, n) && n > 0 ==> b + n <= r || r + len <= b
  {
    assert s'[..size] == SetRange(s[..size], r, len, false);
    forall b: nat, n: nat | Taken(s[..size], b, n) && n > 0 ensures b + n <= r || r + len <= b {
      assert s[..size][r] && !s[..size][b];
    }
  }
}
