/** The kernel module's free bitmaps (src/bitmap.h): in-place allocation, with and without a hint. */
module KernelBitmap {
  import opened Bits

  /** `bitmap_clear` and `bitmap_set`. */
  method Fill(a: array<bool>, start: nat, len: nat, v: bool)
    requires start + len <= a.Length
    modifies a
    ensures a[..] == SetRange(old(a[..]), start, len, v)
  {
    for i := 0 to len
      invariant forall b :: 0 <= b < a.Length ==> a[b] == if start <= b < start + i then v else old(a[b])
    {
      a[start + i] := v;
    }
  }

  /** `find_next_bit`: the first free bit in [start, size), or `size`. */
  method FindNext(a: array<bool>, size: nat, start: nat) returns (bit: nat)
    requires start <= size <= a.Length
    ensures start <= bit <= size && (bit < size ==> a[bit]) && forall b :: start <= b < bit ==> !a[b]
  {
    bit := start;
    while bit < size && !a[bit]
      invariant start <= bit <= size && forall b :: start <= b < bit ==> !a[b]
    {
      bit := bit + 1;
    }
  }

  /** The run scan over the set bits of [start, size): the least start of a free run, or `size`. */
  method ScanRuns(a: array<bool>, size: nat, start: nat, len: nat) returns (r: nat)
    requires start <= size <= a.Length && len > 0
    ensures r < size ==> FirstFit(a[..size], start, r, len)
    ensures r >= size ==> r == size && !RunFrom(a[..size], start, len)
  {
    ghost var bits := a[..size];
    var prev, count := 0, 0;
    var bit := start;
    while bit < size
      invariant start <= bit <= size && count < len
      invariant count > 0 ==> start <= prev < bit && start <= prev + 1 - count && forall b :: prev + 1 - count <= b <= prev ==> bits[b]
      invariant count > 0 ==> forall b :: prev < b < bit ==> !bits[b]
      invariant count == 0 ==> bit == start || forall b :: start <= b < bit ==> !bits[b]
      invariant forall p :: start <= p < (if count > 0 && prev + 1 == bit then prev + 1 - count else bit) ==> !Run(bits, p, len)
    {
      if a[bit] {
        if prev != bit - 1 {
          count := 0;
        }
        prev := bit;
        count := count + 1;
        if count == len {
          return bit + 1 - len;
        }
      } else {
        assert !bits[bit];
      }
      bit := bit + 1;
    }
    r := size;
  }

  /**
   * What an allocation from [lo, hi) does: it takes the leftmost free run there, exactly its bits
   * change; without such a run nothing changes and the answer is 0.
   */
  ghost predicate Allocates(s: seq<bool>, lo: nat, hi: nat, len: nat, r: nat, s': seq<bool>) {
    && hi <= |s|
    && if len > 0 && RunFrom(s[..hi], lo, len)
       then FirstFit(s[..hi], lo, r, len) && s' == SetRange(s, r, len, false)
       else r == 0 && s' == s
  }

  lemma SingleBitFits(s: seq<bool>, lo: nat, hi: nat, bit: nat)
    requires lo <= bit <= hi <= |s| && (bit < hi ==> s[bit]) && forall b :: lo <= b < bit ==> !s[b]
    ensures bit < hi ==> FirstFit(s[..hi], lo, bit, 1)
    ensures bit == hi ==> !RunFrom(s[..hi], lo, 1)
  {
    forall p: nat | lo <= p < bit ensures !Run(s[..hi], p, 1) { assert !s[..hi][p]; }
  }

  /** Both paths of an allocation from [lo, hi): the single-bit fast path agrees with the run scan. */
  method TakeIn(a: array<bool>, lo: nat, hi: nat, len: nat) returns (found: bool, r: nat)
    requires lo <= hi <= a.Length
    modifies a
    ensures Allocates(old(a[..]), lo, hi, len, r, a[..])
    ensures found <==> len > 0 && RunFrom(old(a[..])[..hi], lo, len)
  {
    ghost var s := a[..];
    assert a[..hi] == s[..hi];
    if len == 0 {
      return false, 0;
    }
    var p: nat;
    if len == 1 {
      p := FindNext(a, hi, lo);
      SingleBitFits(s, lo, hi, p);
    } else {
      p := ScanRuns(a, hi, lo, len);
    }
    if p >= hi {
      return false, 0;
    }
    Fill(a, p, len, false);
    return true, p;
  }

  /** `get_first_free_bits`. */
  method GetFirstFreeBits(a: array<bool>, size: nat, len: nat) returns (r: nat)
    requires size <= a.Length
    modifies a
    ensures Allocates(old(a[..]), 0, size, len, r, a[..])
  {
    var found;
    found, r := TakeIn(a, 0, size, len);
  }

  /** `get_free_bits_from_hint`: leftmost in [hint, size), otherwise leftmost in [0, hint). */
  method GetFreeBitsFromHint(a: array<bool>, size: nat, len: nat, hint: nat) returns (r: nat)
    requires size <= a.Length
    modifies a
    ensures var start := if hint >= size then 0 else hint; var s := old(a[..]);
      if RunFrom(s[..size], start, len) then Allocates(s, start, size, len, r, a[..])
      else Allocates(s, 0, start, len, r, a[..])
  {
    var start := if hint >= size then 0 else hint;
    var found;
    found, r := TakeIn(a, start, size, len);
    if !found && start > 0 {
      found, r := TakeIn(a, 0, start, len);
    }
  }

  /** The hinted search reports failure exactly when every free run straddles the hint. */
  lemma HintFailsIff(s: seq<bool>, size: nat, start: nat, len: nat)
    requires start <= size <= |s| && len > 0
    ensures !RunFrom(s[..size], start, len) && !RunFrom(s[..start], 0, len) <==>
            forall p: nat :: Run(s[..size], p, len) ==> p < start < p + len
  {
    forall p: nat ensures Run(s[..start], p, len) <==> Run(s[..size], p, len) && p + len <= start {
      if Run(s[..start], p, len) {
        forall i | p <= i < p + len ensures s[..size][i] { assert s[..start][i]; }
      }
      if Run(s[..size], p, len) && p + len <= start {
        forall i | p <= i < p + len ensures s[..start][i] { assert s[..size][i]; }
      }
    }
  }

  /** A run across the hint is missed although it is free. */
  lemma StraddlingRunIsMissed()
    ensures var s := [false, false, true, true, false];
      Run(s[..5], 2, 2) && !RunFrom(s[..5], 3, 2) && !RunFrom(s[..3], 0, 2)
  {
    var s := [false, false, true, true, false];
    assert s[..5] == s;
    forall p: nat | Run(s, p, 2) ensures p < 3 < p + 2 {
      assert s[p] && s[p + 1];
    }
    HintFailsIff(s, 5, 3, 2);
  }
}
