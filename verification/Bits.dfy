/** Free bitmaps as sequences of booleans (true means free). */
module Bits {
  /** Number of free bits. */
  function Count(s: seq<bool>): nat {
    if |s| == 0 then 0 else Count(s[..|s| - 1]) + (if s[|s| - 1] then 1 else 0)
  }

  function SetRange(s: seq<bool>, start: nat, len: nat, v: bool): (r: seq<bool>)
    ensures |r| == |s|
    ensures forall i :: 0 <= i < |s| ==> r[i] == if start <= i < start + len then v else s[i]
  {
    seq(|s|, i requires 0 <= i < |s| => if start <= i < start + len then v else s[i])
  }

  /** `len` consecutive bits from `start` are all free. */
  predicate Run(s: seq<bool>, start: nat, len: nat) {
    start + len <= |s| && forall i :: start <= i < start + len ==> s[i]
  }

  /** `start` is the least position at or above `lo` where a free run of `len` bits begins. */
  predicate FirstFit(s: seq<bool>, lo: nat, start: nat, len: nat) {
    lo <= start && Run(s, start, len) && forall p :: lo <= p < start ==> !Run(s, p, len)
  }

  /** A fully free run of `len` bits starts somewhere at or above `lo`. */
  ghost predicate RunFrom(s: seq<bool>, lo: nat, len: nat) {
    exists p: nat :: lo <= p && Run(s, p, len)
  }

  lemma FirstFitUnique(s: seq<bool>, lo: nat, a: nat, b: nat, len: nat)
    requires FirstFit(s, lo, a, len) && FirstFit(s, lo, b, len)
    ensures a == b
  {
  }

  /** The only start a first-fit allocation can have. */
  ghost function FitAt(s: seq<bool>, lo: nat, len: nat): (b: nat)
    requires RunFrom(s, lo, len)
    ensures FirstFit(s, lo, b, len)
  {
    FitExists(s, lo, len);
    var b: nat :| FirstFit(s, lo, b, len);
    b
  }

  lemma {:induction false} FitExists(s: seq<bool>, lo: nat, len: nat)
    requires RunFrom(s, lo, len)
    ensures exists b: nat :: FirstFit(s, lo, b, len)
    decreases |s| - lo
  {
    if Run(s, lo, len) {
      assert FirstFit(s, lo, lo, len);
    } else {
      var p: nat :| lo <= p && Run(s, p, len);
      assert p > lo && RunFrom(s, lo + 1, len);
      FitExists(s, lo + 1, len);
      var b: nat :| FirstFit(s, lo + 1, b, len);
      assert FirstFit(s, lo, b, len);
    }
  }

  lemma {:induction false} CountUpdate(s: seq<bool>, i: nat, v: bool)
    requires i < |s|
    ensures Count(s[i := v]) == Count(s) - (if s[i] then 1 else 0) + (if v then 1 else 0)
  {
    var n := |s| - 1;
    if i == n {
      assert s[i := v][..n] == s[..n];
    } else {
      assert s[i := v][..n] == s[..n][i := v];
      CountUpdate(s[..n], i, v);
    }
  }

  lemma {:induction false} CountConcat(a: seq<bool>, b: seq<bool>)
    ensures Count(a + b) == Count(a) + Count(b)
  {
    if b == [] {
      assert a + b == a;
    } else {
      assert (a + b)[..|a + b| - 1] == a + b[..|b| - 1];
      CountConcat(a, b[..|b| - 1]);
    }
  }

  lemma {:induction false} CountUniform(s: seq<bool>, v: bool)
    requires forall i :: 0 <= i < |s| ==> s[i] == v
    ensures Count(s) == if v then |s| else 0
  {
    if s != [] {
      CountUniform(s[..|s| - 1], v);
    }
  }

  /** Flipping a whole run moves the count by exactly its length. */
  lemma {:induction false} CountSetRange(s: seq<bool>, start: nat, len: nat, v: bool)
    requires start + len <= |s|
    requires forall i :: start <= i < start + len ==> s[i] == !v
    ensures Count(SetRange(s, start, len, v)) == if v then Count(s) + len else Count(s) - len
    ensures !v ==> len <= Count(s)
    decreases len
  {
    if len == 0 {
      assert SetRange(s, start, len, v) == s;
    } else {
      var t := SetRange(s, start, len - 1, v);
      assert SetRange(s, start, len, v) == t[start + len - 1 := v];
      CountSetRange(s, start, len - 1, v);
      CountUpdate(t, start + len - 1, v);
    }
  }

  lemma {:induction false} CountPositive(s: seq<bool>)
    ensures Count(s) > 0 <==> exists i :: 0 <= i < |s| && s[i]
  {
    if s != [] {
      var n := |s| - 1;
      CountPositive(s[..n]);
      if i :| 0 <= i < |s| && s[i] {
        assert i < n ==> s[..n][i];
      }
      if s[n] {}
      else if Count(s[..n]) > 0 {
        var i :| 0 <= i < n && s[..n][i];
        assert s[i];
      }
    }
  }

  /** A bitmap that is free exactly in one window. */
  lemma CountWindow(s: seq<bool>, lo: nat, hi: nat)
    requires lo <= hi <= |s| && forall i :: 0 <= i < |s| ==> s[i] == (lo <= i < hi)
    ensures Count(s) == hi - lo
  {
    CountUniform(s[..lo], false);
    CountUniform(s[lo..hi], true);
    CountUniform(s[hi..], false);
    CountConcat(s[..lo], s[lo..hi]);
    CountConcat(s[..hi], s[hi..]);
    assert s[..lo] + s[lo..hi] == s[..hi];
    assert s[..hi] + s[hi..] == s;
  }

  /** A run of taken bits. */
  predicate Taken(s: seq<bool>, start: nat, len: nat) {
    start + len <= |s| && forall i :: start <= i < start + len ==> !s[i]
  }

  /** Freeing any range gains at most its length, and exactly its length when all of it was taken. */
  lemma {:induction false} GainsAtMost(s: seq<bool>, i: nat, len: nat)
    requires i <= |s|
    ensures Count(SetRange(s, i, len, true)) <= Count(s) + len
    ensures Count(SetRange(s, i, len, true)) == Count(s) + len <==> Taken(s, i, len)
    decreases len
  {
    if len == 0 {
      assert SetRange(s, i, len, true) == s;
    } else {
      var t, b := SetRange(s, i, len - 1, true), i + len - 1;
      GainsAtMost(s, i, len - 1);
      if b < |s| {
        assert SetRange(s, i, len, true) == t[b := true];
        CountUpdate(t, b, true);
      } else {
        assert SetRange(s, i, len, true) == t;
      }
    }
  }

  lemma CountNext(s: seq<bool>, p: nat)
    requires p < |s|
    ensures Count(s[..p + 1]) == Count(s[..p]) + (if s[p] then 1 else 0)
  {
    assert s[..p + 1][..p] == s[..p];
  }
}
