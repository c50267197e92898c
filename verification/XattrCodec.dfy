/** The Rust extended-attribute records: names, serialized entries and their parser. */
module XattrCodec {
  import opened Layout
  import opened Wire

  datatype Namespace = User | Trusted | System | Security

  /** Attribute identity: namespace and name without prefix. */
  datatype Key = Key(ns: Namespace, name: Bytes)

  datatype Entry = Entry(key: Key, value: Bytes)

  function NsIndex(n: Namespace): byte {
    match n case User => 0 case Trusted => 1 case System => 2 case Security => 3
  }

  function NsOf(i: nat): Option<Namespace> {
    if i == 0 then Some(User) else if i == 1 then Some(Trusted)
    else if i == 2 then Some(System) else if i == 3 then Some(Security) else None
  }

  // "user.", "trusted.", "system.", "security."
  function Prefix(n: Namespace): Bytes {
    match n
    case User => [117, 115, 101, 114, 46]
    case Trusted => [116, 114, 117, 115, 116, 101, 100, 46]
    case System => [115, 121, 115, 116, 101, 109, 46]
    case Security => [115, 101, 99, 117, 114, 105, 116, 121, 46]
  }

  function StripPrefix(name: Bytes, n: Namespace): Option<Bytes> {
    if Prefix(n) <= name then Some(name[|Prefix(n)|..]) else None
  }

  /** `parse_xattr_name`: split a full name into namespace and base name. */
  function ParseName(name: Bytes): Result<Key> {
    match StripPrefix(name, User)
    case Some(b) => Ok(Key(User, b))
    case None =>
      match StripPrefix(name, Trusted)
      case Some(b) => Ok(Key(Trusted, b))
      case None =>
        match StripPrefix(name, System)
        case Some(b) => Ok(Key(System, b))
        case None =>
          match StripPrefix(name, Security)
          case Some(b) => Ok(Key(Security, b))
          case None => Err(BadXattrName)
  }

  /** The name that `list_xattrs` reports. */
  function FullName(k: Key): Bytes {
    Prefix(k.ns) + k.name
  }

  lemma PrefixesDisjoint(m: Namespace, n: Namespace, base: Bytes)
    requires m != n
    ensures !(Prefix(n) <= Prefix(m) + base)
  {
    assert (Prefix(m) + base)[0] == Prefix(m)[0];
    assert (Prefix(m) + base)[1] == Prefix(m)[1];
    assert Prefix(n)[0] != Prefix(m)[0] || Prefix(n)[1] != Prefix(m)[1];
  }

  /** Listed names parse back to the attribute. */
  lemma ParseInvertsFullName(k: Key)
    ensures ParseName(FullName(k)) == Ok(k)
  {
    assert FullName(k)[|Prefix(k.ns)|..] == k.name;
    forall n: Namespace | n != k.ns ensures !(Prefix(n) <= FullName(k)) {
      PrefixesDisjoint(k.ns, n, k.name);
    }
  }

  /** Every accepted name is the one listed for it. */
  lemma FullNameInvertsParse(name: Bytes)
    requires ParseName(name).Ok?
    ensures FullName(ParseName(name).value) == name
  {
  }

  // ---- serialization ----

  function Header(e: Entry): (h: Bytes)
    ensures |h| == 12
  {
    [|e.key.name| % 256, NsIndex(e.key.ns)] + Le16(|e.value|) + Le32(13 + |e.key.name| % 256) + [0, 0, 0, 0]
  }

  /** One record: header, name, NUL, value. Lengths are cut to 8 and 16 bits as in the header. */
  function Record(e: Entry): Bytes {
    Header(e) + (e.key.name + [0] + e.value)
  }

  function Records(es: seq<Entry>): (rs: seq<Bytes>)
    ensures |rs| == |es|
  {
    seq(|es|, i requires 0 <= i < |es| => Record(es[i]))
  }

  /** `serialize_xattr_entries`. */
  function Serialize(es: seq<Entry>): Bytes {
    Join(Records(es))
  }

  /** The lengths fit their header fields and the record is not the end marker. */
  predicate Fits(e: Entry) {
    |e.key.name| <= 255 && |e.value| <= 65535 && (e.key.name != [] || e.value != [])
  }

  predicate AllFit(es: seq<Entry>) {
    forall i :: 0 <= i < |es| ==> Fits(es[i])
  }

  // ---- parsing ----

  datatype Parsed = End | Bad | One(entry: Entry, next: nat)

  /** One turn of the `parse_xattr_entries` loop at `o`. `utf8` stands for the UTF-8 check. */
  function ParseOne(data: Bytes, o: nat, utf8: Bytes -> bool): (p: Parsed)
    ensures p.One? ==> p.next > o && Fits(p.entry)
  {
    if o + 12 > |data| then End
    else
      var nameLen := data[o];
      var valueLen := U16At(data, o + 2);
      var valueOffset := U32At(data, o + 4);
      if nameLen == 0 && valueLen == 0 then End
      else if o + 12 + nameLen > |data| then Bad
      else
        var name := data[o + 12..o + 12 + nameLen];
        var nul := o + 12 + nameLen;
        if !utf8(name) then Bad
        else if nul >= |data| || data[nul] != 0 then Bad
        else if o + valueOffset + valueLen > |data| then Bad
        else match NsOf(data[o + 1])
             case None => Bad
             case Some(ns) =>
               One(Entry(Key(ns, name), data[o + valueOffset..o + valueOffset + valueLen]), nul + 1 + valueLen)
  }

  function Turn(data: Bytes, utf8: Bytes -> bool): nat -> Parsed {
    (o: nat) => ParseOne(data, o, utf8)
  }

  /** Repeat a loop turn from offset `o` until it ends, fails or leaves the `n` bytes. */
  function Scan(turn: nat -> Parsed, n: nat, o: nat): Result<seq<Entry>>
    decreases n + 1 - o
  {
    match turn(o)
    case End => Ok([])
    case Bad => Err(CorruptXattr)
    case One(e, next) => if next > n || next <= o then Ok([e]) else Then([e], Scan(turn, n, next))
  }

  /** What `parse_xattr_entries` makes of the bytes. */
  function Parse(data: Bytes, utf8: Bytes -> bool): Result<seq<Entry>> {
    Scan(Turn(data, utf8), |data|, 0)
  }

  function Then(es: seq<Entry>, rest: Result<seq<Entry>>): Result<seq<Entry>> {
    if rest.Err? then rest else Ok(es + rest.value)
  }

  lemma ThenLaws(a: seq<Entry>, b: seq<Entry>, rest: Result<seq<Entry>>)
    ensures Then([], rest) == rest
    ensures Then(a, Then(b, rest)) == Then(a + b, rest)
  {
    if rest.Ok? {
      assert [] + rest.value == rest.value;
      assert a + (b + rest.value) == a + b + rest.value;
    }
  }

  /** `parse_xattr_entries`: the loop over a moving offset. */
  method ParseEntries(data: Bytes, utf8: Bytes -> bool) returns (r: Result<seq<Entry>>)
    ensures r == Parse(data, utf8)
  {
    var entries: seq<Entry> := [];
    var offset := 0;
    ghost var turn, n := Turn(data, utf8), |data|;
    ThenLaws([], [], Scan(turn, n, 0));
    while offset + 12 <= |data|
      invariant offset > |data| ==> Parse(data, utf8) == Ok(entries)
      invariant offset <= |data| ==> Parse(data, utf8) == Then(entries, Scan(turn, n, offset))
      decreases |data| - offset
    {
      assert turn(offset) == ParseOne(data, offset, utf8);
      assert entries + [] == entries;
      match ParseOne(data, offset, utf8)
      case End => return Ok(entries);
      case Bad => return Err(CorruptXattr);
      case One(e, next) =>
        if next <= |data| {
          ThenLaws(entries, [e], Scan(turn, n, next));
        }
        entries := entries + [e];
        offset := next;
    }
    assert turn(offset) == ParseOne(data, offset, utf8) == End;
    assert entries + [] == entries;
    return Ok(entries);
  }

  /** Records that parse are within the header limits. */
  lemma {:induction false} ScannedFits(turn: nat -> Parsed, n: nat, o: nat)
    requires forall p :: turn(p).One? ==> Fits(turn(p).entry)
    ensures Scan(turn, n, o).Ok? ==> AllFit(Scan(turn, n, o).value)
    decreases n + 1 - o
  {
    var p := turn(o);
    if p.One? && o < p.next <= n {
      ScannedFits(turn, n, p.next);
    }
  }

  lemma ReadHeader(data: Bytes, o: nat, e: Entry)
    requires At(data, o, Header(e)) && Fits(e)
    ensures o + 12 <= |data|
    ensures data[o] == |e.key.name| && data[o + 1] == NsIndex(e.key.ns)
    ensures U16At(data, o + 2) == |e.value|
    ensures U32At(data, o + 4) == 13 + |e.key.name|
  {
    var a: Bytes := [|e.key.name| % 256, NsIndex(e.key.ns)];
    var b, c := Le16(|e.value|), Le32(13 + |e.key.name| % 256);
    AtSplit(data, o, a + b + c, [0, 0, 0, 0]);
    AtSplit(data, o, a + b, c);
    AtSplit(data, o, a, b);
    AtByte(data, o, a, 0);
    AtByte(data, o, a, 1);
    Read16(data, o + 2, |e.value|);
    Read32(data, o + 4, 13 + |e.key.name|);
  }

  lemma ParseRecord(data: Bytes, o: nat, e: Entry, utf8: Bytes -> bool)
    requires At(data, o, Record(e)) && Fits(e) && utf8(e.key.name)
    ensures ParseOne(data, o, utf8) == One(e, o + |Record(e)|)
    ensures o + |Record(e)| <= |data|
  {
    var n, v := e.key.name, e.value;
    AtSplit(data, o, Header(e), n + [0] + v);
    ReadBody(data, o + 12, n, v);
    ReadHeader(data, o, e);
  }

  lemma ReadBody(data: Bytes, o: nat, n: Bytes, v: Bytes)
    requires At(data, o, n + [0] + v)
    ensures At(data, o, n) && At(data, o + |n| + 1, v) && data[o + |n|] == 0
  {
    AtSplit(data, o, n + [0], v);
    AtSplit(data, o, n, [0]);
    AtByte(data, o + |n|, [0], 0);
  }

  predicate AllText(es: seq<Entry>, utf8: Bytes -> bool) {
    forall i :: 0 <= i < |es| ==> utf8(es[i].key.name)
  }

  /** The loop turn at the j-th offset yields the j-th entry and moves to the next offset. */
  predicate TurnYields(turn: nat -> Parsed, n: nat, offs: seq<nat>, es: seq<Entry>, j: nat)
    requires |offs| == |es| + 1 && j < |es|
  {
    offs[j] < offs[j + 1] <= n && turn(offs[j]) == One(es[j], offs[j + 1])
  }

  lemma {:induction false} ScanChain(turn: nat -> Parsed, n: nat, offs: seq<nat>, es: seq<Entry>, i: nat)
    requires |offs| == |es| + 1 && i <= |es| && offs[|es|] == n && turn(n) == End
    requires forall j :: 0 <= j < |es| ==> TurnYields(turn, n, offs, es, j)
    ensures Scan(turn, n, offs[i]) == Ok(es[i..])
    decreases |es| - i
  {
    if i < |es| {
      ScanChain(turn, n, offs, es, i + 1);
      assert TurnYields(turn, n, offs, es, i);
      assert es[i..] == [es[i]] + es[i + 1..];
    }
  }

  lemma RecordTurn(data: Bytes, offs: seq<nat>, es: seq<Entry>, j: nat, utf8: Bytes -> bool)
    requires Laid(data, offs, Records(es)) && j < |es| && Fits(es[j]) && utf8(es[j].key.name)
    ensures TurnYields(Turn(data, utf8), |data|, offs, es, j)
  {
    assert At(data, offs[j], Records(es)[j]);
    ParseRecord(data, offs[j], es[j], utf8);
  }

  lemma FittingParses(es: seq<Entry>, utf8: Bytes -> bool)
    requires AllFit(es) && AllText(es, utf8)
    ensures Parse(Serialize(es), utf8) == Ok(es)
  {
    var data, offs := Serialize(es), Starts(Records(es));
    JoinLaid(Records(es));
    forall j | 0 <= j < |es| ensures TurnYields(Turn(data, utf8), |data|, offs, es, j) {
      RecordTurn(data, offs, es, j, utf8);
    }
    ScanChain(Turn(data, utf8), |data|, offs, es, 0);
  }

  /** Parsing inverts serialization exactly when every entry fits its header. */
  lemma ParseInvertsSerialize(es: seq<Entry>, utf8: Bytes -> bool)
    requires AllText(es, utf8)
    ensures Parse(Serialize(es), utf8) == Ok(es) <==> AllFit(es)
  {
    if AllFit(es) {
      FittingParses(es, utf8);
    }
    ScannedFits(Turn(Serialize(es), utf8), |Serialize(es)|, 0);
  }

  /** The bytes of "user.a" with `n` zero bytes of value under a header that says 0. */
  function LongRecord(n: nat): Bytes {
    [1, 0, 0, 0, 14, 0, 0, 0, 0, 0, 0, 0, 97, 0] + Zeros(n)
  }

  lemma LongRecordParses(n: nat, utf8: Bytes -> bool)
    requires utf8([97]) && n >= 12
    ensures Parse(LongRecord(n), utf8) == Ok([Entry(Key(User, [97]), [])])
  {
    var data := LongRecord(n);
    var turn := Turn(data, utf8);
    assert data[12..13] == [97];
    var x := Entry(Key(User, [97]), []);
    assert turn(0) == One(x, 14);
    assert turn(14) == End;
    assert Scan(turn, |data|, 0) == Then([x], Ok([]));
    assert [x] + [] == [x];
  }

  lemma OneRecord(e: Entry)
    ensures Serialize([e]) == Record(e)
  {
    var rs := Records([e]);
    assert rs[..0] == [];
    assert Join(rs) == Join(rs[..0]) + rs[0] == rs[0];
  }

  /** A value one byte too long for its header reads back as an empty one. */
  lemma LongValueIsLost(utf8: Bytes -> bool)
    requires utf8([97])
    ensures Parse(Serialize([Entry(Key(User, [97]), Zeros(65536))]), utf8) == Ok([Entry(Key(User, [97]), [])])
  {
    var e := Entry(Key(User, [97]), Zeros(65536));
    OneRecord(e);
    assert Header(e) == [1, 0, 0, 0, 14, 0, 0, 0, 0, 0, 0, 0];
    assert Record(e) == LongRecord(65536);
    LongRecordParses(65536, utf8);
  }

  // ---- the entry list as a map ----

  predicate DistinctKeys(es: seq<Entry>) {
    forall i, j :: 0 <= i < j < |es| ==> es[i].key != es[j].key
  }

  /** Position of the first entry with key `k`, or |es|. */
  function IndexOf(es: seq<Entry>, k: Key): (i: nat)
    ensures i <= |es|
    ensures i < |es| ==> es[i].key == k
    ensures forall j :: 0 <= j < i ==> es[j].key != k
  {
    if es == [] then 0 else if es[0].key == k then 0 else 1 + IndexOf(es[1..], k)
  }

  predicate Has(es: seq<Entry>, k: Key) {
    IndexOf(es, k) < |es|
  }

  function KeySet(es: seq<Entry>): (r: set<Key>)
    ensures forall k :: k in r <==> Has(es, k)
  {
    var r := set i | 0 <= i < |es| :: es[i].key;
    assert forall k :: Has(es, k) ==> es[IndexOf(es, k)].key in r;
    r
  }

  function AsMap(es: seq<Entry>): map<Key, Bytes> {
    map k | k in KeySet(es) :: es[IndexOf(es, k)].value
  }

  lemma IndexOfAt(es: seq<Entry>, i: nat)
    requires DistinctKeys(es) && i < |es|
    ensures IndexOf(es, es[i].key) == i
  {
  }

  /** The number of entries is the number of keys. */
  lemma {:induction false} KeySetSize(es: seq<Entry>)
    requires DistinctKeys(es)
    ensures |KeySet(es)| == |es|
  {
    if es == [] {
      assert KeySet(es) == {};
    } else {
      var n := |es| - 1;
      KeySetSize(es[..n]);
      IndexOfInit(es);
      assert KeySet(es) == KeySet(es[..n]) + {es[n].key};
    }
  }

  lemma IndexOfInit(es: seq<Entry>)
    requires DistinctKeys(es) && es != []
    ensures !Has(es[..|es| - 1], es[|es| - 1].key)
    ensures forall k :: Has(es, k) <==> Has(es[..|es| - 1], k) || k == es[|es| - 1].key
  {
    var n := |es| - 1;
    forall k ensures Has(es, k) <==> Has(es[..n], k) || k == es[n].key {
      var i := IndexOf(es[..n], k);
      assert i < n ==> es[i].key == k;
      var j := IndexOf(es, k);
      assert j < n ==> es[..n][j].key == k;
    }
  }

  /** `set_xattr` on the entry list: replace in place, or append. */
  function SetEntry(es: seq<Entry>, k: Key, v: Bytes): seq<Entry> {
    var i := IndexOf(es, k);
    if i < |es| then es[i := Entry(k, v)] else es + [Entry(k, v)]
  }

  /** `remove_xattr` on the entry list: keep every other entry. */
  function RemoveKey(es: seq<Entry>, k: Key): seq<Entry> {
    if es == [] then [] else (if es[0].key == k then [] else [es[0]]) + RemoveKey(es[1..], k)
  }

  lemma SetIndex(es: seq<Entry>, k: Key, v: Bytes, x: Key)
    ensures var es' := SetEntry(es, k, v);
            && (x == k ==> IndexOf(es', x) == IndexOf(es, k) < |es'|)
            && (x != k ==> (Has(es', x) <==> Has(es, x)) && (Has(es, x) ==> IndexOf(es', x) == IndexOf(es, x)))
  {
    var es' := SetEntry(es, k, v);
    var i, j := IndexOf(es, x), IndexOf(es', x);
    assert i < |es| && x != k ==> es'[i].key == x;
    assert j < |es'| && x != k ==> j < |es| && es[j].key == x;
    assert es'[IndexOf(es, k)].key == k;
  }

  lemma AsMapIs(es: seq<Entry>, m: map<Key, Bytes>)
    requires forall x :: x in m <==> Has(es, x)
    requires forall x :: x in m ==> Has(es, x) && m[x] == es[IndexOf(es, x)].value
    ensures AsMap(es) == m
  {
  }

  lemma SetKeepsDistinct(es: seq<Entry>, k: Key, v: Bytes)
    requires DistinctKeys(es)
    ensures DistinctKeys(SetEntry(es, k, v))
  {
  }

  /** Setting an attribute updates exactly its own key. */
  lemma SetIsUpdate(es: seq<Entry>, k: Key, v: Bytes)
    ensures AsMap(SetEntry(es, k, v)) == AsMap(es)[k := v]
  {
    var es' := SetEntry(es, k, v);
    var m := AsMap(es)[k := v];
    forall x: Key ensures x in m <==> Has(es', x) { SetIndex(es, k, v, x); }
    forall x | x in m ensures m[x] == es'[IndexOf(es', x)].value { SetIndex(es, k, v, x); }
    AsMapIs(es', m);
  }

  lemma {:induction false} RemoveAt(es: seq<Entry>, k: Key)
    requires DistinctKeys(es)
    ensures var i := IndexOf(es, k);
            RemoveKey(es, k) == if i < |es| then es[..i] + es[i + 1..] else es
  {
    if es != [] {
      RemoveAt(es[1..], k);
      if es[0].key == k {
        assert IndexOf(es[1..], k) == |es| - 1;
      }
    }
  }

  /** Taking out the entry at `i` takes out its key and leaves every other entry at its key. */
  lemma RemoveIndex(es: seq<Entry>, k: Key, x: Key)
    requires DistinctKeys(es) && Has(es, k)
    ensures var i := IndexOf(es, k); var r := es[..i] + es[i + 1..];
            && (Has(r, x) <==> Has(es, x) && x != k)
            && (Has(r, x) ==> r[IndexOf(r, x)] == es[IndexOf(es, x)])
  {
    var i := IndexOf(es, k);
    var r := es[..i] + es[i + 1..];
    var j, l := IndexOf(r, x), IndexOf(es, x);
    if j < |r| {
      var j' := if j < i then j else j + 1;
      assert r[j] == es[j'];
      IndexOfAt(es, j');
    }
    if l < |es| && x != k {
      var l' := if l < i then l else l - 1;
      assert r[l'] == es[l];
    }
  }

  lemma RemoveKeepsDistinct(es: seq<Entry>, k: Key)
    requires DistinctKeys(es)
    ensures DistinctKeys(RemoveKey(es, k))
    ensures |RemoveKey(es, k)| == if Has(es, k) then |es| - 1 else |es|
  {
    RemoveAt(es, k);
  }

  /** Removing an attribute removes exactly its own key. */
  lemma RemoveIsRemoval(es: seq<Entry>, k: Key)
    requires DistinctKeys(es)
    ensures AsMap(RemoveKey(es, k)) == AsMap(es) - {k}
  {
    RemoveAt(es, k);
    var r, m := RemoveKey(es, k), AsMap(es) - {k};
    if Has(es, k) {
      forall x: Key ensures x in m <==> Has(r, x) { RemoveIndex(es, k, x); }
      forall x | x in m ensures m[x] == r[IndexOf(r, x)].value { RemoveIndex(es, k, x); }
      AsMapIs(r, m);
    }
  }

  lemma RemoveKeepsFit(es: seq<Entry>, k: Key, utf8: Bytes -> bool)
    requires DistinctKeys(es) && AllFit(es) && AllText(es, utf8)
    ensures AllFit(RemoveKey(es, k)) && AllText(RemoveKey(es, k), utf8)
  {
    RemoveAt(es, k);
  }

  lemma SetKeepsFit(es: seq<Entry>, k: Key, v: Bytes, utf8: Bytes -> bool)
    requires AllFit(es) && AllText(es, utf8) && Fits(Entry(k, v)) && utf8(k.name)
    ensures AllFit(SetEntry(es, k, v)) && AllText(SetEntry(es, k, v), utf8)
  {
  }

  lemma SerializeConcat(a: seq<Entry>, b: seq<Entry>)
    ensures Serialize(a + b) == Serialize(a) + Serialize(b)
  {
    assert Records(a + b) == Records(a) + Records(b);
    JoinConcat(Records(a), Records(b));
  }

  lemma DropShrinks(es: seq<Entry>, i: nat)
    requires i < |es|
    ensures |Serialize(es[..i] + es[i + 1..])| <= |Serialize(es)|
  {
    SerializeConcat(es[..i], es[i + 1..]);
    SerializeConcat(es[..i], es[i..]);
    SerializeConcat([es[i]], es[i + 1..]);
    assert es[..i] + es[i..] == es;
    assert [es[i]] + es[i + 1..] == es[i..];
  }

  /** Removing an entry never lengthens the serialized list. */
  lemma RemoveShrinks(es: seq<Entry>, k: Key)
    requires DistinctKeys(es)
    ensures |Serialize(RemoveKey(es, k))| <= |Serialize(es)|
  {
    RemoveAt(es, k);
    if IndexOf(es, k) < |es| {
      DropShrinks(es, IndexOf(es, k));
    }
  }

  lemma SerializeEmpty(es: seq<Entry>)
    ensures Serialize(es) == [] <==> es == []
  {
  }
}
