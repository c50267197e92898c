/** Extent tables: the logical-to-physical block map of one inode. */
module Extents {
  import opened Layout

  function Range(start: nat, len: nat): (r: seq<nat>)
    ensures |r| == len && forall t :: 0 <= t < len ==> r[t] == start + t
  {
    seq(len, t requires 0 <= t < len => start + t)
  }

  /** The physical block of every logical block, in logical order. */
  function Phys(tab: seq<Extent>): seq<nat> {
    if tab == [] then [] else Phys(tab[..|tab| - 1]) + Range(tab[|tab| - 1].start, tab[|tab| - 1].len)
  }

  /** First logical block of extent `j` of a gap-free table. */
  function Offset(tab: seq<Extent>, j: nat): nat
    requires j <= |tab|
  {
    |Phys(tab[..j])|
  }

  /** Extents are non-empty and tile the logical blocks from 0 without a gap. */
  predicate Tiles(tab: seq<Extent>) {
    forall j :: 0 <= j < |tab| ==> tab[j].len > 0 && tab[j].block == Offset(tab, j)
  }

  predicate Contains(e: Extent, k: nat) {
    e.block <= k < e.block + e.len
  }

  /** Linear scan: the first extent holding logical block `k`, or |tab|. */
  function Find(tab: seq<Extent>, k: nat): (j: nat)
    ensures j <= |tab|
    ensures j < |tab| ==> Contains(tab[j], k)
    ensures forall i :: 0 <= i < j ==> !Contains(tab[i], k)
  {
    if tab == [] then 0
    else
      var j := Find(tab[..|tab| - 1], k);
      if j < |tab| - 1 then assert tab[..|tab| - 1][j] == tab[j]; j
      else if Contains(tab[|tab| - 1], k) then
        assert forall i :: 0 <= i < j ==> tab[..|tab| - 1][i] == tab[i]; j
      else
        assert forall i :: 0 <= i < j ==> tab[..|tab| - 1][i] == tab[i]; |tab|
  }

  /** Slots before the first empty one, where every walk over an index stops. */
  function UsedCount(exts: seq<Extent>): (n: nat)
    ensures n <= |exts|
    ensures forall j :: 0 <= j < n ==> exts[j].len > 0
    ensures n < |exts| ==> exts[n].len == 0
  {
    if exts == [] || exts[0].len == 0 then 0 else 1 + UsedCount(exts[1..])
  }

  function Used(exts: seq<Extent>): seq<Extent> {
    exts[..UsedCount(exts)]
  }

  /** The fields besides block numbers and lengths fit their places on disk. */
  predicate Small(tab: seq<Extent>) {
    forall j :: 0 <= j < |tab| ==> SmallFields(tab[j])
  }

  predicate SmallFields(x: Extent) {
    x.comp < U16 && x.enc < 256 && x.reserved < 256 && x.flags < U16 && x.reserved2 < U16 && x.meta < U32
  }

  /** A full index block: 170 slots, a tiling prefix, and nothing after it. */
  predicate ValidIndex(exts: seq<Extent>) {
    && |exts| == MAX_EXTENTS
    && Tiles(Used(exts)) && Small(Used(exts))
    && forall j :: UsedCount(exts) <= j < |exts| ==> exts[j] == EMPTY_EXTENT
  }

  function PadTable(tab: seq<Extent>): (exts: seq<Extent>)
    requires |tab| <= MAX_EXTENTS
    ensures |exts| == MAX_EXTENTS
    ensures forall j :: 0 <= j < MAX_EXTENTS ==> exts[j] == if j < |tab| then tab[j] else EMPTY_EXTENT
  {
    tab + seq(MAX_EXTENTS - |tab|, _ => EMPTY_EXTENT)
  }

  lemma UsedUnique(exts: seq<Extent>, n: nat)
    requires n <= |exts|
    requires forall j :: 0 <= j < n ==> exts[j].len > 0
    requires n < |exts| ==> exts[n].len == 0
    ensures UsedCount(exts) == n
  {
  }

  /** Padding a table to 170 slots and walking it gives the table back. */
  lemma UsedPad(tab: seq<Extent>)
    requires |tab| <= MAX_EXTENTS
    requires Tiles(tab) && Small(tab)
    ensures Used(PadTable(tab)) == tab
    ensures ValidIndex(PadTable(tab))
  {
    UsedUnique(PadTable(tab), |tab|);
  }

  lemma OffsetStep(tab: seq<Extent>, j: nat)
    requires j < |tab|
    ensures Offset(tab, j + 1) == Offset(tab, j) + tab[j].len
    ensures Phys(tab[..j + 1]) == Phys(tab[..j]) + Range(tab[j].start, tab[j].len)
  {
    assert tab[..j + 1][..j] == tab[..j];
  }

  lemma OffsetEnds(tab: seq<Extent>)
    ensures Offset(tab, 0) == 0 && Offset(tab, |tab|) == |Phys(tab)|
  {
    assert tab[..0] == [] && tab[..|tab|] == tab;
  }

  lemma {:induction false} PhysPrefix(tab: seq<Extent>, j: nat)
    requires j <= |tab|
    ensures Offset(tab, j) <= |Phys(tab)|
    ensures Phys(tab)[..Offset(tab, j)] == Phys(tab[..j])
    decreases |tab|
  {
    if j < |tab| {
      var init := tab[..|tab| - 1];
      PhysPrefix(init, j);
      assert init[..j] == tab[..j];
    } else {
      assert tab[..j] == tab;
    }
  }

  lemma PhysAt(tab: seq<Extent>, j: nat, t: nat)
    requires j < |tab| && t < tab[j].len
    ensures Offset(tab, j) + t < |Phys(tab)|
    ensures Phys(tab)[Offset(tab, j) + t] == tab[j].start + t
  {
    OffsetStep(tab, j);
    PhysPrefix(tab, j + 1);
    var o := Offset(tab, j) + t;
    assert Phys(tab)[o] == Phys(tab)[..Offset(tab, j + 1)][o];
  }

  /** In a tiling table later extents start where earlier ones have ended. */
  lemma {:induction false} TilesOrdered(tab: seq<Extent>, i: nat, j: nat)
    requires Tiles(tab) && i < j < |tab|
    ensures tab[i].block + tab[i].len <= tab[j].block
    decreases j
  {
    OffsetStep(tab, j - 1);
    if i < j - 1 {
      TilesOrdered(tab, i, j - 1);
    }
  }

  /** Tiling, said without the block map: the first extent starts at 0 and each next where the last ended. */
  predicate Chained(tab: seq<Extent>) {
    && (tab != [] ==> tab[0].block == 0)
    && forall j :: 0 <= j < |tab| ==> tab[j].len > 0 && (j > 0 ==> tab[j].block == tab[j - 1].block + tab[j - 1].len)
  }

  lemma TilesChained(tab: seq<Extent>)
    requires Tiles(tab)
    ensures Chained(tab)
    ensures tab != [] ==> tab[|tab| - 1].block + tab[|tab| - 1].len == |Phys(tab)|
  {
    assert tab[..0] == [];
    assert tab[..|tab|] == tab;
    forall j | 0 <= j < |tab| ensures Offset(tab, j + 1) == Offset(tab, j) + tab[j].len {
      OffsetStep(tab, j);
    }
  }

  /** Every mapped logical block lies in some extent. */
  lemma {:induction false} Covered(tab: seq<Extent>, k: nat) returns (i: nat)
    requires Tiles(tab) && k < |Phys(tab)|
    ensures i < |tab| && Contains(tab[i], k)
  {
    OffsetEnds(tab);
    i := 0;
    while Offset(tab, i + 1) <= k
      invariant i < |tab| && Offset(tab, i) <= k
      decreases |tab| - i
    {
      i := i + 1;
    }
    OffsetStep(tab, i);
  }

  /** Exactly the mapped logical blocks are found, each in its only extent and at the mapped place. */
  lemma FindMapped(tab: seq<Extent>, k: nat)
    requires Tiles(tab)
    ensures Find(tab, k) < |tab| <==> k < |Phys(tab)|
    ensures k < |Phys(tab)| ==> Phys(tab)[k] == tab[Find(tab, k)].start + (k - tab[Find(tab, k)].block)
  {
    if k < |Phys(tab)| {
      var i := Covered(tab, k);
      assert Find(tab, k) <= i;
    }
    var j := Find(tab, k);
    if j < |tab| {
      PhysAt(tab, j, k - tab[j].block);
    }
  }

  lemma FindUnique(tab: seq<Extent>, k: nat, j: nat)
    requires Tiles(tab) && j < |tab| && Contains(tab[j], k)
    ensures Find(tab, k) == j
  {
    var i := Find(tab, k);
    if i < j { TilesOrdered(tab, i, j); }
  }

  /** Appending an extent where the table ends keeps it tiling and extends the map. */
  lemma TilesAppend(tab: seq<Extent>, e: Extent)
    requires Tiles(tab) && e.len > 0 && e.block == |Phys(tab)|
    ensures Tiles(tab + [e])
    ensures Phys(tab + [e]) == Phys(tab) + Range(e.start, e.len)
  {
    var t := tab + [e];
    assert t[..|tab|] == tab;
    forall j | 0 <= j < |t| ensures t[j].len > 0 && t[j].block == Offset(t, j) {
      assert j <= |tab| ==> t[..j] == tab[..j];
      assert tab[..|tab|] == tab;
    }
  }

  predicate SamePlacement(a: seq<Extent>, b: seq<Extent>) {
    |a| == |b| && forall j :: 0 <= j < |a| ==> a[j].block == b[j].block && a[j].len == b[j].len && a[j].start == b[j].start
  }

  lemma {:induction false} PhysSame(a: seq<Extent>, b: seq<Extent>)
    requires SamePlacement(a, b)
    ensures Phys(a) == Phys(b)
  {
    if a != [] {
      PhysSame(a[..|a| - 1], b[..|a| - 1]);
    }
  }

  /** Only the placement fields of the extents matter for the map. */
  lemma TilesSame(a: seq<Extent>, b: seq<Extent>)
    requires SamePlacement(a, b) && Tiles(a)
    ensures Phys(a) == Phys(b) && Tiles(b)
  {
    PhysSame(a, b);
    forall j | 0 <= j < |b| ensures b[j].len > 0 && b[j].block == Offset(b, j) {
      PhysSame(a[..j], b[..j]);
    }
  }

  lemma {:induction false} MappedBound(tab: seq<Extent>, m: nat)
    requires forall j :: 0 <= j < |tab| ==> tab[j].len <= m
    ensures |Phys(tab)| <= |tab| * m
  {
    if tab != [] {
      MappedBound(tab[..|tab| - 1], m);
      assert |tab| * m == (|tab| - 1) * m + m;
    }
  }

  /**
   * Rust `find_extent`: binary search over all 170 slots. It agrees with the linear
   * scan, and reports None exactly for unmapped blocks.
   */
  method FindExtent(exts: seq<Extent>, k: nat) returns (r: Option<nat>)
    requires ValidIndex(exts)
    ensures r.Some? <==> k < |Phys(Used(exts))|
    ensures r.Some? ==> r.value == Find(Used(exts), k) < UsedCount(exts)
  {
    var tab := Used(exts);
    FindMapped(tab, k);
    var left, right := 0, |exts|;
    while left < right
      invariant 0 <= left <= right <= |exts|
      invariant left <= Find(tab, k)
      invariant Find(tab, k) < |tab| ==> Find(tab, k) < right
    {
      var mid := left + (right - left) / 2;
      var e := exts[mid];
      var f := Find(tab, k);
      if e.len == 0 || e.block > k {
        if f < |tab| && mid < f { TilesOrdered(tab, mid, f); }
        right := mid;
      } else if e.block + e.len <= k {
        if f < mid { TilesOrdered(tab, f, mid); }
        left := mid + 1;
      } else {
        FindUnique(tab, k, mid);
        return Some(mid);
      }
    }
    return None;
  }

  // ---- tables of single blocks ----

  predicate PlainTable(tab: seq<Extent>) {
    forall j :: 0 <= j < |tab| ==> tab[j] == PlainExtent(tab[j].block, 1, tab[j].start)
  }

  /** Such a table lists its blocks one by one. */
  lemma {:induction false} PlainPhys(tab: seq<Extent>)
    requires PlainTable(tab)
    ensures |Phys(tab)| == |tab| && forall j :: 0 <= j < |tab| ==> Phys(tab)[j] == tab[j].start
  {
    if tab != [] {
      var init := tab[..|tab| - 1];
      assert forall j :: 0 <= j < |init| ==> init[j] == tab[j];
      PlainPhys(init);
    }
  }
}
