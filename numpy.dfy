/**
 * The numpy and Python primitives the analysis relies on, stated over `real`:
 * searchsorted (both sides), slicing, linspace, bin midpoints, sum, interp and std.
 * exp and sqrt cannot be computed here, so they are parameters of the model
 * (`Numerics`) and only the facts in `ValidNumerics` are known of them.
 */
module NumPy {

  // ---------------------------------------------------------------------------
  // Abstract transcendental functions
  // ---------------------------------------------------------------------------

  /** np.exp and np.sqrt (also Python's `** 0.5`), supplied by the caller. */
  datatype Numerics = Numerics(exp: real -> real, sqrt: real -> real)

  /** np.exp */
  function Exp(nm: Numerics, x: real): real { nm.exp(x) }

  /** np.sqrt */
  function Sqrt(nm: Numerics, x: real): real { nm.sqrt(x) }

  /** exp is positive; sqrt is the non-negative square root on non-negative reals. */
  ghost predicate ValidNumerics(nm: Numerics) {
    && (forall x :: Exp(nm, x) > 0.0)
    && (forall x :: x >= 0.0 ==> Sqrt(nm, x) >= 0.0 && Sqrt(nm, x) * Sqrt(nm, x) == x)
  }

  function Sq(x: real): real { x * x }

  function Abs(x: real): real { if x < 0.0 then -x else x }

  function Min(a: nat, b: nat): nat { if a <= b then a else b }

  lemma SquareBelowProduct(u: real, w: real)
    requires 0.0 <= u < w
    ensures Sq(u) <= u * w
  {
  }

  lemma ProductBelowSquare(u: real, w: real)
    requires 0.0 <= u < w
    ensures u * w < Sq(w)
  {
  }

  lemma LeLt(a: real, b: real, c: real)
    requires a <= b
    requires b < c
    ensures a < c
  {
  }

  /** Squaring is strictly increasing on the non-negative reals. */
  lemma SquareBelow(u: real, w: real)
    requires 0.0 <= u < w
    ensures Sq(u) < Sq(w)
  {
    SquareBelowProduct(u, w);
    ProductBelowSquare(u, w);
    LeLt(Sq(u), u * w, Sq(w));
  }

  /** For non-negative reals, u < w exactly when u^2 < w^2. */
  lemma SquareMonotone(u: real, w: real)
    requires u >= 0.0 && w >= 0.0
    ensures u < w <==> Sq(u) < Sq(w)
  {
    if u < w {
      SquareBelow(u, w);
    } else if w < u {
      SquareBelow(w, u);
    }
  }

  /** The square root of anything at least v*v is at least v. */
  lemma SqrtAtLeast(nm: Numerics, x: real, v: real)
    requires ValidNumerics(nm)
    requires v >= 0.0 && x >= v * v
    ensures Sqrt(nm, x) >= v
  {
    var r := Sqrt(nm, x);
    assert r >= 0.0 && Sq(r) == x;
    SquareMonotone(r, v);
  }

  /** The square root of anything above v*v is above v. */
  lemma SqrtAbove(nm: Numerics, x: real, v: real)
    requires ValidNumerics(nm)
    requires v >= 0.0 && x > v * v
    ensures Sqrt(nm, x) > v
  {
    var r := Sqrt(nm, x);
    assert r >= 0.0 && Sq(r) == x;
    SquareMonotone(v, r);
  }

  // ---------------------------------------------------------------------------
  // Sorted sequences and numpy.searchsorted
  // ---------------------------------------------------------------------------

  predicate Sorted(s: seq<real>) {
    forall i, j :: 0 <= i <= j < |s| ==> s[i] <= s[j]
  }

  predicate StrictlySorted(s: seq<real>) {
    forall i, j :: 0 <= i < j < |s| ==> s[i] < s[j]
  }

  /** np.searchsorted(s, x, side='left'): the first index whose element is not below x. */
  function LeftIdx(s: seq<real>, x: real): (r: nat)
    ensures r <= |s|
    ensures forall k :: 0 <= k < r ==> s[k] < x
    ensures r < |s| ==> s[r] >= x
  {
    if |s| == 0 || s[0] >= x then 0 else 1 + LeftIdx(s[1..], x)
  }

  /** np.searchsorted(s, x, side='right'): the first index whose element is above x. */
  function RightIdx(s: seq<real>, x: real): (r: nat)
    ensures r <= |s|
    ensures forall k :: 0 <= k < r ==> s[k] <= x
    ensures r < |s| ==> s[r] > x
  {
    if |s| == 0 || s[0] > x then 0 else 1 + RightIdx(s[1..], x)
  }

  /** On a sorted sequence every element from the left insertion point on is at least x. */
  lemma LeftIdxSorted(s: seq<real>, x: real)
    requires Sorted(s)
    ensures forall k :: LeftIdx(s, x) <= k < |s| ==> s[k] >= x
  {
  }

  /** On a sorted sequence every element from the right insertion point on is above x. */
  lemma RightIdxSorted(s: seq<real>, x: real)
    requires Sorted(s)
    ensures forall k :: RightIdx(s, x) <= k < |s| ==> s[k] > x
  {
  }

  /** On a strictly increasing sequence the right insertion point of an element is just past it. */
  lemma RightIdxAtElement(s: seq<real>, k: nat)
    requires StrictlySorted(s) && k < |s|
    ensures RightIdx(s, s[k]) == k + 1
  {
  }

  /** The left insertion point is the only index with its two defining properties. */
  lemma {:induction false} LeftIdxUnique(s: seq<real>, x: real, r: nat)
    requires r <= |s|
    requires forall k :: 0 <= k < r ==> s[k] < x
    requires r < |s| ==> s[r] >= x
    ensures r == LeftIdx(s, x)
  {
    if |s| > 0 && s[0] < x {
      LeftIdxUnique(s[1..], x, r - 1);
    }
  }

  /** The right insertion point is the only index with its two defining properties. */
  lemma {:induction false} RightIdxUnique(s: seq<real>, x: real, r: nat)
    requires r <= |s|
    requires forall k :: 0 <= k < r ==> s[k] <= x
    requires r < |s| ==> s[r] > x
    ensures r == RightIdx(s, x)
  {
    if |s| > 0 && s[0] <= x {
      RightIdxUnique(s[1..], x, r - 1);
    }
  }

  /** Binary search for the left insertion point, as numpy performs it. */
  method SearchSortedLeft(s: seq<real>, x: real) returns (r: nat)
    requires Sorted(s)
    ensures r == LeftIdx(s, x)
  {
    var lo, hi := 0, |s|;
    while lo < hi
      invariant 0 <= lo <= hi <= |s|
      invariant forall k :: 0 <= k < lo ==> s[k] < x
      invariant forall k :: hi <= k < |s| ==> s[k] >= x
      decreases hi - lo
    {
      var mid := (lo + hi) / 2;
      if s[mid] < x {
        lo := mid + 1;
      } else {
        hi := mid;
      }
    }
    r := lo;
    LeftIdxUnique(s, x, r);
  }

  /** Binary search for the right insertion point, as numpy performs it. */
  method SearchSortedRight(s: seq<real>, x: real) returns (r: nat)
    requires Sorted(s)
    ensures r == RightIdx(s, x)
  {
    var lo, hi := 0, |s|;
    while lo < hi
      invariant 0 <= lo <= hi <= |s|
      invariant forall k :: 0 <= k < lo ==> s[k] <= x
      invariant forall k :: hi <= k < |s| ==> s[k] > x
      decreases hi - lo
    {
      var mid := (lo + hi) / 2;
      if s[mid] <= x {
        lo := mid + 1;
      } else {
        hi := mid;
      }
    }
    r := lo;
    RightIdxUnique(s, x, r);
  }

  // ---------------------------------------------------------------------------
  // Slicing and array construction
  // ---------------------------------------------------------------------------

  /** Python's s[a:b] for non-negative bounds: both are clamped to len(s); empty when a >= b. */
  function PySlice<T>(s: seq<T>, a: nat, b: nat): (r: seq<T>)
    ensures |r| == if a < Min(b, |s|) then Min(b, |s|) - a else 0
    ensures forall k :: 0 <= k < |r| ==> a + k < |s| && r[k] == s[a + k]
  {
    var hi := Min(b, |s|);
    if a < hi then s[a..hi] else []
  }

  /** s[::-1] */
  function Reverse<T>(s: seq<T>): (r: seq<T>)
    ensures |r| == |s|
    ensures forall k :: 0 <= k < |s| ==> r[k] == s[|s| - 1 - k]
  {
    seq(|s|, k requires 0 <= k < |s| => s[|s| - 1 - k])
  }

  lemma ReverseReverse<T>(s: seq<T>)
    ensures Reverse(Reverse(s)) == s
  {
  }

  /** np.linspace(start, stop, num): num evenly spaced values, both end points included. */
  function Linspace(start: real, stop: real, num: nat): (r: seq<real>)
    ensures |r| == num
  {
    seq(num, k requires 0 <= k < num =>
      if num == 1 then start else start + (k as real) * ((stop - start) / ((num - 1) as real)))
  }

  /** linspace starts at start and ends at stop. */
  lemma LinspaceEnds(start: real, stop: real, num: nat)
    requires num >= 2
    ensures Linspace(start, stop, num)[0] == start
    ensures Linspace(start, stop, num)[num - 1] == stop
  {
    var d := (num - 1) as real;
    assert d * ((stop - start) / d) == stop - start;
  }

  /** linspace is non-decreasing when start <= stop and increasing when start < stop. */
  lemma LinspaceSorted(start: real, stop: real, num: nat)
    requires start <= stop
    ensures Sorted(Linspace(start, stop, num))
    ensures start < stop ==> StrictlySorted(Linspace(start, stop, num))
  {
    var e := Linspace(start, stop, num);
    if num >= 2 {
      var step := (stop - start) / ((num - 1) as real);
      assert step >= 0.0;
      assert start < stop ==> step > 0.0;
      forall i, j | 0 <= i <= j < num
        ensures e[i] <= e[j]
        ensures i < j && start < stop ==> e[i] < e[j]
      {
        MulGap(i, j, step);
      }
    }
  }

  /** The gap between two multiples of a non-negative step. */
  lemma MulGap(i: nat, j: nat, step: real)
    requires i <= j && step >= 0.0
    ensures (i as real) * step <= (j as real) * step
    ensures i < j && step > 0.0 ==> (i as real) * step < (j as real) * step
  {
    assert (j as real) * step - (i as real) * step == ((j - i) as real) * step;
  }

  /** 0.5 * (edges[:-1] + edges[1:]) */
  function Midpoints(e: seq<real>): (r: seq<real>)
    requires |e| >= 1
    ensures |r| == |e| - 1
  {
    seq(|e| - 1, k requires 0 <= k < |e| - 1 => 0.5 * (e[k] + e[k + 1]))
  }

  /** Each bin centre lies strictly between its two edges. */
  lemma MidpointsBetween(e: seq<real>)
    requires |e| >= 1 && StrictlySorted(e)
    ensures forall k :: 0 <= k < |e| - 1 ==> e[k] < Midpoints(e)[k] < e[k + 1]
  {
  }

  // ---------------------------------------------------------------------------
  // Reductions
  // ---------------------------------------------------------------------------

  /** s.sum() */
  function Sum(s: seq<real>): real {
    if |s| == 0 then 0.0 else Sum(s[..|s| - 1]) + s[|s| - 1]
  }

  /** The sum of a prefix grows by the next element. */
  lemma SumPrefixStep(s: seq<real>, k: nat)
    requires k < |s|
    ensures Sum(s[..k + 1]) == Sum(s[..k]) + s[k]
  {
    assert s[..k + 1][..k] == s[..k];
  }

  /** A sum of positive terms over a longer prefix is larger. */
  lemma {:induction false} SumPrefixIncreasing(s: seq<real>, i: nat, j: nat)
    requires i < j <= |s|
    requires forall k :: 0 <= k < |s| ==> s[k] > 0.0
    ensures Sum(s[..i]) < Sum(s[..j])
  {
    SumPrefixStep(s, j - 1);
    if i < j - 1 {
      SumPrefixIncreasing(s, i, j - 1);
    }
  }

  function Mean(s: seq<real>): real
    requires |s| > 0
  {
    Sum(s) / (|s| as real)
  }

  /** The sum of squared deviations from m. */
  function SumSqDev(s: seq<real>, m: real): (r: real)
    ensures r >= 0.0
  {
    if |s| == 0 then 0.0 else SumSqDev(s[..|s| - 1], m) + Sq(s[|s| - 1] - m)
  }

  /** np.var: the population variance. */
  function Variance(s: seq<real>): (r: real)
    requires |s| > 0
    ensures r >= 0.0
  {
    SumSqDev(s, Mean(s)) / (|s| as real)
  }

  /** np.std: the population standard deviation; never negative. */
  function Std(nm: Numerics, s: seq<real>): (r: real)
    requires |s| > 0
    ensures ValidNumerics(nm) ==> r >= 0.0
  {
    Sqrt(nm, Variance(s))
  }

  /** Every element equal to c gives zero spread. */
  lemma {:induction false} SumSqDevConstant(s: seq<real>, c: real)
    requires forall k :: 0 <= k < |s| ==> s[k] == c
    ensures SumSqDev(s, c) == 0.0
  {
    if |s| > 0 {
      SumSqDevConstant(s[..|s| - 1], c);
    }
  }

  // ---------------------------------------------------------------------------
  // np.interp
  // ---------------------------------------------------------------------------

  /**
   * np.interp(x, xp, fp) with sample points xp (non-empty): fp[0] left of xp[0],
   * fp[-1] from xp[-1] on, otherwise the straight line between the two samples
   * bracketing x. np.interp raises ValueError for empty xp; callers model that.
   */
  function Interp(x: real, xp: seq<real>, fp: seq<real>): real
    requires |xp| == |fp| > 0
  {
    var n := |xp|;
    if x < xp[0] then fp[0]
    else if x >= xp[n - 1] then fp[n - 1]
    else
      var j := RightIdx(xp, x) - 1;
      var slope := (fp[j + 1] - fp[j]) / (xp[j + 1] - xp[j]);
      slope * (x - xp[j]) + fp[j]
  }

  /** Linear interpolation never leaves the range of the sample values. */
  lemma InterpWithin(x: real, xp: seq<real>, fp: seq<real>, lo: real, hi: real)
    requires |xp| == |fp| > 0
    requires forall k :: 0 <= k < |fp| ==> lo <= fp[k] <= hi
    ensures lo <= Interp(x, xp, fp) <= hi
  {
    var n := |xp|;
    if xp[0] <= x < xp[n - 1] {
      var j := RightIdx(xp, x) - 1;
      SegmentWithin(fp[j], fp[j + 1], xp[j + 1] - xp[j], x - xp[j], lo, hi);
    }
  }

  /** A point on the segment from (0, f0) to (w, f1) lies between the bounds of both ends. */
  lemma SegmentWithin(f0: real, f1: real, w: real, dx: real, lo: real, hi: real)
    requires w > 0.0 && 0.0 <= dx < w
    requires lo <= f0 <= hi && lo <= f1 <= hi
    ensures lo <= (f1 - f0) / w * dx + f0 <= hi
  {
    var t := dx / w;
    assert 0.0 <= t;
    assert t < 1.0 by {
      assert (w - dx) / w > 0.0;
      assert (w - dx) / w == w / w - dx / w;
    }
    assert (f1 - f0) / w * dx == t * (f1 - f0);
    assert t * (f1 - f0) + f0 == (1.0 - t) * f0 + t * f1;
    assert (1.0 - t) * f0 >= (1.0 - t) * lo && t * f1 >= t * lo;
    assert (1.0 - t) * f0 <= (1.0 - t) * hi && t * f1 <= t * hi;
  }

  /** Interpolating at a sample point of strictly increasing sample points gives that sample. */
  lemma InterpAtSample(xp: seq<real>, fp: seq<real>, k: nat)
    requires |xp| == |fp| && k < |xp|
    requires StrictlySorted(xp)
    ensures Interp(xp[k], xp, fp) == fp[k]
  {
    var n := |xp|;
    if k < n - 1 {
      RightIdxAtElement(xp, k);
    }
  }
}
