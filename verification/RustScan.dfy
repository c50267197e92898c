/** The walk over the slots of a directory that every directory operation repeats. */
module RustScan {
  import opened Layout
  import opened Extents
  import opened DiskState
  import opened RustFs

  lemma SlotsAt(bs: seq<Block>, k: nat, f: nat)
    requires k < |bs| && f < 15 && AllDirs(bs)
    ensures 15 * k + f < |SlotsOf(bs)| && SlotsOf(bs)[15 * k + f] == bs[k].slots[f]
  {
    assert (15 * k + f) / 15 == k && (15 * k + f) % 15 == f;
  }

  /** First slot of a block that is wanted. */
  method ScanBlock(slots: seq<Slot>, want: Slot -> bool) returns (r: Option<nat>)
    ensures r.Some? ==> r.value < |slots| && want(slots[r.value]) && forall f :: 0 <= f < r.value ==> !want(slots[f])
    ensures r.None? ==> forall f :: 0 <= f < |slots| ==> !want(slots[f])
  {
    for f := 0 to |slots|
      invariant forall g :: 0 <= g < f ==> !want(slots[g])
    {
      if want(slots[f]) {
        return Some(f);
      }
    }
    return None;
  }

  /** A slot on disk: block number, index in the block, position in the directory. */
  datatype Place = Place(block: nat, slot: nat, pos: nat)

  /** None of the first `n` slots is wanted. */
  predicate NoneBefore(slots: seq<Slot>, want: Slot -> bool, n: nat) {
    n <= |slots| && forall p :: 0 <= p < n ==> !want(slots[p])
  }

  predicate FirstHit(slots: seq<Slot>, want: Slot -> bool, p: nat) {
    NoneBefore(slots, want, p) && p < |slots| && want(slots[p])
  }

  lemma BlockScanned(bs: seq<Block>, k: nat, n: nat, want: Slot -> bool)
    requires AllDirs(bs) && k < |bs| && n <= 15 && NoneBefore(SlotsOf(bs), want, 15 * k)
    requires forall f :: 0 <= f < n ==> !want(bs[k].slots[f])
    ensures NoneBefore(SlotsOf(bs), want, 15 * k + n)
    ensures n < 15 && want(bs[k].slots[n]) ==> FirstHit(SlotsOf(bs), want, 15 * k + n)
  {
    forall p | 0 <= p < 15 * k + n ensures !want(SlotsOf(bs)[p]) {
      if p >= 15 * k {
        SlotsAt(bs, k, p - 15 * k);
      }
    }
    if n < 15 { SlotsAt(bs, k, n); }
  }

  /** Walk the blocks of one extent. */
  method ScanExtent(fs: LolelfFs, start: nat, len: nat, want: Slot -> bool, o: nat, ghost bs: seq<Block>) returns (r: Option<Place>)
    requires AllDirs(bs) && o + len <= |bs| && start + len <= |fs.blocks|
    requires fs.blocks[start..start + len] == bs[o..o + len]
    requires NoneBefore(SlotsOf(bs), want, 15 * o)
    ensures r.None? ==> NoneBefore(SlotsOf(bs), want, 15 * (o + len))
    ensures r.Some? ==>
      && FirstHit(SlotsOf(bs), want, r.value.pos)
      && o <= r.value.pos / 15 < o + len && r.value.block == start + (r.value.pos / 15 - o) && r.value.slot == r.value.pos % 15
  {
    for t := 0 to len
      invariant NoneBefore(SlotsOf(bs), want, 15 * (o + t))
    {
      assert fs.blocks[start + t] == fs.blocks[start..start + len][t] == bs[o + t];
      var f := ScanBlock(fs.blocks[start + t].slots, want);
      BlockScanned(bs, o + t, if f.Some? then f.value else 15, want);
      if f.Some? {
        var p := 15 * (o + t) + f.value;
        assert p / 15 == o + t && p % 15 == f.value;
        return Some(Place(start + t, f.value, p));
      }
    }
    return None;
  }

  /** The blocks of extent `j` are the next blocks of the directory. */
  lemma ExtentBlocks(d: Disk, tab: seq<Extent>, j: nat)
    requires j < |tab| && tab[j].len > 0
    requires forall k :: 0 <= k < |Phys(tab)| ==> Phys(tab)[k] < |d.blocks|
    ensures var o := Offset(tab, j); var bs := Picked(d, Phys(tab)); var e := tab[j];
      && o + e.len == Offset(tab, j + 1) <= |bs| && e.start + e.len <= |d.blocks|
      && Phys(tab)[o..o + e.len] == Range(e.start, e.len)
      && d.blocks[e.start..e.start + e.len] == bs[o..o + e.len]
  {
    OffsetStep(tab, j);
    PhysPrefix(tab, j + 1);
    PhysAt(tab, j, tab[j].len - 1);
    var o, e, m := Offset(tab, j), tab[j], Phys(tab);
    assert m[o..o + e.len] == m[..Offset(tab, j + 1)][o..] == Range(e.start, e.len);
    PickedRange(d, m, o, e.start, e.len);
  }

  lemma PickedRange(d: Disk, m: seq<nat>, o: nat, start: nat, len: nat)
    requires o + len <= |m| && m[o..o + len] == Range(start, len) && start + len <= |d.blocks|
    ensures d.blocks[start..start + len] == Picked(d, m)[o..o + len]
  {
    var a, b := d.blocks[start..start + len], Picked(d, m)[o..o + len];
    forall t | 0 <= t < len ensures a[t] == b[t] {
      assert m[o + t] == m[o..o + len][t] == start + t;
    }
  }

  /** `p` is the first wanted slot of the directory with block map `m`. */
  predicate Hit(slots: seq<Slot>, m: seq<nat>, want: Slot -> bool, p: Place) {
    FirstHit(slots, want, p.pos) && p.pos / 15 < |m| && p.block == m[p.pos / 15] && p.slot == p.pos % 15
  }

  lemma HitIn(slots: seq<Slot>, m: seq<nat>, want: Slot -> bool, p: Place, o: nat, start: nat, len: nat)
    requires o + len <= |m| && m[o..o + len] == Range(start, len) && FirstHit(slots, want, p.pos)
    requires o <= p.pos / 15 < o + len && p.block == start + (p.pos / 15 - o) && p.slot == p.pos % 15
    ensures Hit(slots, m, want, p)
  {
    var k := p.pos / 15;
    assert m[k] == m[o..o + len][k - o];
  }

  /** Walk extent `j`, which holds the blocks from `o` on. */
  method ScanNth(fs: LolelfFs, e: Extent, want: Slot -> bool, o: nat, ghost tab: seq<Extent>, ghost j: nat, ghost slots: seq<Slot>)
    returns (r: Option<Place>)
    requires j < |tab| && tab[j] == e && e.len > 0 && o == Offset(tab, j)
    requires AllDirs(Picked(fs.Snap(), Phys(tab))) && slots == SlotsOf(Picked(fs.Snap(), Phys(tab)))
    requires forall k :: 0 <= k < |Phys(tab)| ==> Phys(tab)[k] < |fs.blocks|
    requires NoneBefore(slots, want, 15 * o)
    ensures o + e.len == Offset(tab, j + 1)
    ensures r.None? ==> NoneBefore(slots, want, 15 * (o + e.len))
    ensures r.Some? ==> Hit(slots, Phys(tab), want, r.value)
  {
    ExtentBlocks(fs.Snap(), tab, j);
    r := ScanExtent(fs, e.start, e.len, want, o, Picked(fs.Snap(), Phys(tab)));
    if r.Some? {
      HitIn(slots, Phys(tab), want, r.value, o, e.start, e.len);
    }
  }

  /** The walk over extents, blocks and slots: it visits the slots in order and stops at the first wanted one. */
  method Scan(fs: LolelfFs, exts: seq<Extent>, want: Slot -> bool) returns (r: Option<Place>)
    requires ValidIndex(exts) && AllDirs(Picked(fs.Snap(), Phys(Used(exts))))
    requires forall k :: 0 <= k < |Phys(Used(exts))| ==> Phys(Used(exts))[k] < |fs.blocks|
    ensures var m := Phys(Used(exts)); var slots := SlotsOf(Picked(fs.Snap(), m));
      if r.None? then NoneBefore(slots, want, |slots|) else Hit(slots, m, want, r.value)
  {
    ghost var tab := Used(exts);
    ghost var slots := SlotsOf(Picked(fs.Snap(), Phys(tab)));
    OffsetEnds(tab);
    var o := 0;
    var j := 0;
    while j < |exts| && exts[j].len > 0
      invariant 0 <= j <= |tab| && o == Offset(tab, j)
      invariant NoneBefore(slots, want, 15 * o)
    {
      r := ScanNth(fs, exts[j], want, o, tab, j, slots);
      if r.Some? {
        return;
      }
      o := o + exts[j].len;
      j := j + 1;
    }
    return None;
  }
}
