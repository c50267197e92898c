/** The record format of the kernel module's attribute store (src/xattr.c, src/lolelffs.h): records padded to 4 bytes. */
module KernelXattrRecords {
  import opened Layout
  import opened Wire
  import opened XattrCodec

  function Aligned(n: nat): (r: nat)
    ensures r % 4 == 0 && n <= r < n + 4
  {
    (n + 3) / 4 * 4
  }

  lemma AlignedAdd(o: nat, n: nat)
    requires o % 4 == 0
    ensures Aligned(o + n) == o + Aligned(n)
  {
  }

  /** Unpadded size of a record. */
  function Size(e: Entry): nat { 13 + |e.key.name| + |e.value| }

  /** Header, name, NUL, value, zeros up to the next multiple of 4. */
  function PaddedRecord(e: Entry): (r: Bytes)
    ensures |r| == Aligned(Size(e))
  {
    Record(e) + Zeros(Aligned(Size(e)) - Size(e))
  }

  function PaddedRecords(es: seq<Entry>): (rs: seq<Bytes>)
    ensures |rs| == |es|
  {
    seq(|es|, i requires 0 <= i < |es| => PaddedRecord(es[i]))
  }

  /** The whole store. */
  function Store(es: seq<Entry>): Bytes {
    Join(PaddedRecords(es))
  }

  /** Where record `i` starts: the sum of the padded sizes before it. */
  function OffsetAt(es: seq<Entry>, i: nat): (o: nat)
    requires i <= |es|
    ensures o % 4 == 0
  {
    if i == 0 then 0 else OffsetAt(es, i - 1) + Aligned(Size(es[i - 1]))
  }

  /** What `set` accepts: a name of 1 to 255 bytes and a value of at most 65535. */
  predicate Sized(e: Entry) {
    1 <= |e.key.name| <= 255 && |e.value| <= 65535
  }

  predicate AllSized(es: seq<Entry>) {
    forall i :: 0 <= i < |es| ==> Sized(es[i])
  }

  lemma {:induction false} OffsetIsStart(es: seq<Entry>, i: nat)
    requires i <= |es|
    ensures Starts(PaddedRecords(es))[i] == OffsetAt(es, i)
  {
    var rs := PaddedRecords(es);
    if i == 0 {
      assert rs[..0] == [];
    } else {
      OffsetIsStart(es, i - 1);
      JoinStep(rs, i - 1);
    }
  }

  /** Record `i` lies between its offset and the next. */
  lemma RecordLies(es: seq<Entry>, i: nat)
    requires i < |es|
    ensures At(Store(es), OffsetAt(es, i), PaddedRecord(es[i]))
  {
    var rs := PaddedRecords(es);
    JoinLaid(rs);
    OffsetIsStart(es, i);
    assert At(Store(es), Starts(rs)[i], rs[i]);
  }

  lemma StoreEnds(es: seq<Entry>)
    ensures OffsetAt(es, |es|) == |Store(es)|
  {
    JoinLaid(PaddedRecords(es));
    OffsetIsStart(es, |es|);
  }

  // ---- reading ----

  /** One turn of the loops over the store: the entry at `o` and the offset of the next. */
  function ReadOne(data: Bytes, o: nat): Parsed {
    if o + 12 > |data| then End
    else
      var nameLen, valueLen, valueOffset := data[o], U16At(data, o + 2), U32At(data, o + 4);
      if nameLen == 0 then End
      else if o + 12 + nameLen > |data| || o + valueOffset + valueLen > |data| then Bad
      else
        match NsOf(data[o + 1])
        case None => Bad
        case Some(ns) =>
          One(Entry(Key(ns, data[o + 12..o + 12 + nameLen]), data[o + valueOffset..o + valueOffset + valueLen]),
              Aligned(o + 12 + nameLen + 1 + valueLen))
  }

  function ReadTurn(data: Bytes): nat -> Parsed {
    (o: nat) => ReadOne(data, o)
  }

  /** All entries, in order. */
  function ReadAll(data: Bytes): Result<seq<Entry>> {
    Scan(ReadTurn(data), |data|, 0)
  }

  /** The fields of entry `e` are found at `o`, and the next record starts at `next`. */
  predicate EntryAt(data: Bytes, o: nat, e: Entry, next: nat) {
    var n, v := |e.key.name|, |e.value|;
    && o + Size(e) <= |data|
    && data[o] == n && data[o + 1] == NsIndex(e.key.ns) && U16At(data, o + 2) == v && U32At(data, o + 4) == 13 + n
    && data[o + 12..o + 12 + n] == e.key.name && data[o + 13 + n..o + 13 + n + v] == e.value
    && next == Aligned(o + 12 + n + 1 + v)
  }

  lemma RecordParts(data: Bytes, o: nat, e: Entry)
    requires At(data, o, PaddedRecord(e))
    ensures At(data, o, Header(e)) && At(data, o + 12, e.key.name) && At(data, o + 13 + |e.key.name|, e.value)
    ensures o + Size(e) <= |data|
  {
    var n, v := e.key.name, e.value;
    AtSplit(data, o, Record(e), Zeros(Aligned(Size(e)) - Size(e)));
    AtSplit(data, o, Header(e), n + [0] + v);
    AtSplit(data, o + 12, n + [0], v);
    AtSplit(data, o + 12, n, [0]);
  }

  lemma FieldsAt(data: Bytes, o: nat, e: Entry)
    requires At(data, o, PaddedRecord(e)) && Sized(e) && o % 4 == 0
    ensures EntryAt(data, o, e, o + Aligned(Size(e)))
  {
    RecordParts(data, o, e);
    ReadHeader(data, o, e);
    AlignedAdd(o, Size(e));
  }

  lemma EntrySeen(es: seq<Entry>, j: nat)
    requires AllSized(es) && j < |es|
    ensures EntryAt(Store(es), OffsetAt(es, j), es[j], OffsetAt(es, j + 1))
    ensures OffsetAt(es, j) < OffsetAt(es, j + 1) <= |Store(es)|
  {
    RecordLies(es, j);
    FieldsAt(Store(es), OffsetAt(es, j), es[j]);
  }

  lemma ReadRecord(data: Bytes, o: nat, e: Entry, next: nat)
    requires EntryAt(data, o, e, next) && Sized(e)
    ensures ReadOne(data, o) == One(e, next)
  {
  }

  function Offsets(es: seq<Entry>): (o: seq<nat>)
    ensures |o| == |es| + 1
  {
    seq(|es| + 1, i requires 0 <= i <= |es| => OffsetAt(es, i))
  }

  lemma RecordTurn(es: seq<Entry>, j: nat)
    requires AllSized(es) && j < |es|
    ensures TurnYields(ReadTurn(Store(es)), |Store(es)|, Offsets(es), es, j)
  {
    EntrySeen(es, j);
    ReadRecord(Store(es), OffsetAt(es, j), es[j], OffsetAt(es, j + 1));
  }

  /** The store is read back as exactly the entries written, so it determines them. */
  lemma ReadInvertsStore(es: seq<Entry>)
    requires AllSized(es)
    ensures ReadAll(Store(es)) == Ok(es)
  {
    StoreEnds(es);
    forall j | 0 <= j < |es| ensures TurnYields(ReadTurn(Store(es)), |Store(es)|, Offsets(es), es, j) {
      RecordTurn(es, j);
    }
    ScanChain(ReadTurn(Store(es)), |Store(es)|, Offsets(es), es, 0);
  }

  /** The test of one record against the key. */
  predicate Matches(data: Bytes, o: nat, k: Key)
    requires o + 12 <= |data|
  {
    && data[o + 1] == NsIndex(k.ns) && data[o] == |k.name|
    && o + 12 + |k.name| <= |data| && data[o + 12..o + 12 + |k.name|] == k.name
  }

  lemma MatchIsKey(data: Bytes, o: nat, e: Entry, next: nat, k: Key)
    requires EntryAt(data, o, e, next)
    ensures Matches(data, o, k) <==> e.key == k
  {
  }

  /** `lolelffs_xattr_find_entry`: walk the records and stop at the key. */
  method FindEntry(data: Bytes, k: Key, ghost es: seq<Entry>) returns (r: Option<nat>)
    requires data == Store(es) && AllSized(es)
    ensures r == if Has(es, k) then Some(OffsetAt(es, IndexOf(es, k))) else None
  {
    StoreEnds(es);
    var offset := 0;
    ghost var j := 0;
    while offset + 12 <= |data|
      invariant 0 <= j <= IndexOf(es, k) && offset == OffsetAt(es, j)
      decreases |es| - j
    {
      EntrySeen(es, j);
      MatchIsKey(data, offset, es[j], OffsetAt(es, j + 1), k);
      var nameLen, valueLen := data[offset], U16At(data, offset + 2);
      if nameLen == 0 {
        break;
      }
      if Matches(data, offset, k) {
        return Some(offset);
      }
      offset := Aligned(offset + 12 + nameLen + 1 + valueLen);
      j := j + 1;
    }
    if j < |es| {
      EntrySeen(es, j);
    }
    return None;
  }
}
