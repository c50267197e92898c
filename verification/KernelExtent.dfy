/** The kernel module's extent index: counting, validation and search (src/extent.c). */
module KernelExtent {
  import opened Layout
  import opened Extents

  const EXT_HAS_META: nat := 4
  const FULL: nat := 0xFFFF_FFFF

  /** `ee_flags & LOLELFFS_EXT_HAS_META`. */
  predicate HasMeta(e: Extent) { e.flags / EXT_HAS_META % 2 == 1 }

  function MaxLen(e: Extent): nat {
    if HasMeta(e) then MAX_EXTENT_BLOCKS else MAX_EXTENT_BLOCKS_LARGE
  }

  /** Slots before the first one without a physical block. */
  function InUse(exts: seq<Extent>): (n: nat)
    ensures n <= |exts|
    ensures forall j :: 0 <= j < n ==> exts[j].start != 0
    ensures n < |exts| ==> exts[n].start == 0
  {
    if exts == [] || exts[0].start == 0 then 0 else 1 + InUse(exts[1..])
  }

  function TableOf(exts: seq<Extent>): seq<Extent> {
    exts[..InUse(exts)]
  }

  predicate LengthOk(e: Extent) {
    0 < e.len <= MaxLen(e)
  }

  /** What validation accepts: lengths in bounds, logical blocks contiguous from 0. */
  predicate Validated(exts: seq<Extent>) {
    var tab := TableOf(exts);
    Tiles(tab) && forall j :: 0 <= j < |tab| ==> LengthOk(tab[j])
  }

  /** `lolelffs_count_extents`. */
  method CountExtents(index: array<Extent>) returns (n: nat)
    requires index.Length == MAX_EXTENTS
    ensures n == InUse(index[..])
  {
    n := 0;
    while n < MAX_EXTENTS
      invariant n <= MAX_EXTENTS && n <= InUse(index[..])
    {
      if index[n].start == 0 {
        break;
      }
      n := n + 1;
    }
  }

  lemma {:induction false} OffsetBound(tab: seq<Extent>, j: nat)
    requires j <= |tab| && forall i :: 0 <= i < j ==> tab[i].len <= MAX_EXTENT_BLOCKS_LARGE
    ensures Offset(tab, j) <= 524288 * j
  {
    if j > 0 {
      OffsetStep(tab, j - 1);
      OffsetBound(tab, j - 1);
    } else {
      OffsetEnds(tab);
    }
  }

  /** A validated index maps at most 170 x 524288 blocks, so no sum of its fields leaves 32 bits. */
  lemma NoOverflow(exts: seq<Extent>, j: nat)
    requires Validated(exts) && |exts| <= MAX_EXTENTS && j < InUse(exts)
    ensures exts[j].block + exts[j].len <= |Phys(TableOf(exts))| <= 89128960 < U32
  {
    var tab := TableOf(exts);
    OffsetBound(tab, |tab|);
    OffsetEnds(tab);
    OffsetStep(tab, j);
    PhysPrefix(tab, j + 1);
    assert tab[j] == exts[j];
  }

  lemma SumStep(tab: seq<Extent>, i: nat)
    requires i < |tab| <= MAX_EXTENTS && forall j :: 0 <= j <= i ==> LengthOk(tab[j])
    ensures (Offset(tab, i) + tab[i].len) % U32 == Offset(tab, i + 1)
  {
    OffsetStep(tab, i);
    OffsetBound(tab, i);
  }

  /** `lolelffs_validate_extents`, with its 32-bit running sum. */
  method ValidateExtents(index: array<Extent>) returns (ok: bool)
    requires index.Length == MAX_EXTENTS
    ensures ok <==> Validated(index[..])
  {
    var n := CountExtents(index);
    ghost var tab := TableOf(index[..]);
    OffsetEnds(tab);
    var expected := 0;
    for i := 0 to n
      invariant expected == Offset(tab, i)
      invariant forall j :: 0 <= j < i ==> LengthOk(tab[j]) && tab[j].block == Offset(tab, j)
    {
      var e := index[i];
      assert tab[i] == e;
      if e.len == 0 || e.len > MaxLen(e) {
        return false;
      }
      if e.block != expected {
        return false;
      }
      if e.start == 0 {
        return false;
      }
      SumStep(tab, i);
      expected := (expected + e.len) % U32;
    }
    return true;
  }

  // ---- searching ----

  /** The answer of a linear scan: the extent holding the block, else the first unused slot, else FULL. */
  function Lookup(exts: seq<Extent>, k: nat): nat {
    var tab := TableOf(exts);
    var j := Find(tab, k);
    if j < |tab| then j else if |tab| < MAX_EXTENTS then |tab| else FULL
  }

  lemma Missing(tab: seq<Extent>, k: nat)
    requires forall j :: 0 <= j < |tab| ==> !Contains(tab[j], k)
    ensures Find(tab, k) == |tab|
  {
  }

  lemma Outside(tab: seq<Extent>, k: nat, left: nat)
    requires Tiles(tab) && left <= |tab|
    requires forall i :: 0 <= i < left ==> tab[i].block + tab[i].len <= k
    requires forall i :: left <= i < |tab| ==> k < tab[i].block
    ensures Find(tab, k) == |tab|
  {
    Missing(tab, k);
  }

  /** One halving step moves a bound past every extent on that side. */
  lemma Halved(tab: seq<Extent>, mid: nat, k: nat)
    requires Tiles(tab) && mid < |tab|
    ensures k < tab[mid].block ==> forall i :: mid <= i < |tab| ==> k < tab[i].block
    ensures tab[mid].block + tab[mid].len <= k ==> forall i :: 0 <= i <= mid ==> tab[i].block + tab[i].len <= k
  {
    forall i | mid <= i < |tab| ensures tab[mid].block <= tab[i].block {
      if mid < i { TilesOrdered(tab, mid, i); }
    }
    forall i | 0 <= i <= mid ensures tab[i].block + tab[i].len <= tab[mid].block + tab[mid].len {
      if i < mid { TilesOrdered(tab, i, mid); }
    }
  }

  /** What looking at one extent of a validated index tells about block `k`. */
  lemma Probe(exts: seq<Extent>, mid: nat, k: nat)
    requires Validated(exts) && |exts| <= MAX_EXTENTS && mid < InUse(exts)
    ensures var tab, e := TableOf(exts), exts[mid];
      && (e.block + e.len) % U32 == e.block + e.len
      && (k < e.block ==> forall i :: mid <= i < |tab| ==> k < tab[i].block)
      && (e.block + e.len <= k ==> forall i :: 0 <= i <= mid ==> tab[i].block + tab[i].len <= k)
      && (e.block <= k < e.block + e.len ==> Find(tab, k) == mid)
  {
    var tab := TableOf(exts);
    assert tab[mid] == exts[mid];
    NoOverflow(exts, mid);
    Halved(tab, mid, k);
    if Contains(tab[mid], k) { FindUnique(tab, k, mid); }
  }

  predicate PassedBelow(tab: seq<Extent>, left: nat, k: nat) {
    left <= |tab| && forall i :: 0 <= i < left ==> tab[i].block + tab[i].len <= k
  }

  predicate PassedAbove(tab: seq<Extent>, right: nat, k: nat) {
    forall i :: right <= i < |tab| ==> k < tab[i].block
  }

  /** Where `iblock` lies relative to extent `mid`. */
  method Compare(index: array<Extent>, mid: nat, iblock: nat) returns (c: int)
    requires index.Length == MAX_EXTENTS && Validated(index[..]) && mid < InUse(index[..])
    ensures c < 0 ==> PassedAbove(TableOf(index[..]), mid, iblock)
    ensures c > 0 ==> PassedBelow(TableOf(index[..]), mid + 1, iblock)
    ensures c == 0 ==> Find(TableOf(index[..]), iblock) == mid
  {
    var block, len := index[mid].block, index[mid].len;
    Probe(index[..], mid, iblock);
    return if iblock < block then -1 else if iblock >= (block + len) % U32 then 1 else 0;
  }

  /** The binary search among the used extents. */
  method Bisect(index: array<Extent>, n: nat, iblock: nat) returns (r: nat)
    requires index.Length == MAX_EXTENTS && Validated(index[..]) && n == InUse(index[..])
    ensures r == Find(TableOf(index[..]), iblock)
  {
    ghost var tab := TableOf(index[..]);
    var left, right := 0, n;
    while left < right
      invariant 0 <= left <= right <= n && PassedBelow(tab, left, iblock) && PassedAbove(tab, right, iblock)
    {
      var mid := left + (right - left) / 2;
      var c := Compare(index, mid, iblock);
      if c < 0 {
        right := mid;
      } else if c > 0 {
        left := mid + 1;
      } else {
        return mid;
      }
    }
    Outside(tab, iblock, left);
    return n;
  }

  /** `lolelffs_ext_search`: the binary search is the linear scan. */
  method ExtSearch(index: array<Extent>, iblock: nat) returns (r: nat)
    requires index.Length == MAX_EXTENTS && Validated(index[..])
    ensures r == Lookup(index[..], iblock)
  {
    var n := CountExtents(index);
    if n == 0 {
      return 0;
    }
    r := Bisect(index, n, iblock);
    if r == n && n == MAX_EXTENTS {
      r := FULL;
    }
  }

  /** `lolelffs_ext_search_with_hint`: every hint gives the same answer. */
  method ExtSearchWithHint(index: array<Extent>, iblock: nat, hint: nat) returns (r: nat)
    requires index.Length == MAX_EXTENTS && Validated(index[..])
    ensures r == Lookup(index[..], iblock)
  {
    ghost var exts := index[..];
    ghost var tab := TableOf(exts);
    var n := CountExtents(index);
    if n == 0 {
      return 0;
    }
    if hint < n {
      Probe(exts, hint, iblock);
      if index[hint].block <= iblock < (index[hint].block + index[hint].len) % U32 {
        return hint;
      }
      if hint + 1 < n {
        Probe(exts, hint + 1, iblock);
        if index[hint + 1].block <= iblock < (index[hint + 1].block + index[hint + 1].len) % U32 {
          return hint + 1;
        }
      }
    }
    r := ExtSearch(index, iblock);
  }
}
