/**
 * Dwell time of the beam in each bin of a scanned row (_calc_bin_transit_times): the
 * stage accelerates from rest over the first `idx` bins, crosses the interior at the
 * scan speed, and decelerates over the last `idx` bins, mirrored.
 */
module Transit {
  import opened NumPy

  /** bin_edges[1:] - bin_edges[:-1] */
  function BinSizes(edges: seq<real>): (r: seq<real>)
    requires |edges| >= 1
    ensures |r| == |edges| - 1
    ensures forall k :: 0 <= k < |r| ==> r[k] == edges[k + 1] - edges[k]
  {
    seq(|edges| - 1, k requires 0 <= k < |edges| - 1 => edges[k + 1] - edges[k])
  }

  /** s = a/2 t^2 with t = v/a: the distance needed to reach the scan speed. */
  function AccelDistance(speed: real, accel: real): real
    requires accel != 0.0
  {
    accel / 2.0 * Sq(speed / accel)
  }

  /** The number of ramp bins at each end: the left insertion point of that distance. */
  function RampBins(edges: seq<real>, speed: real, accel: real): nat
    requires accel != 0.0
  {
    LeftIdx(edges, AccelDistance(speed, accel))
  }

  /**
   * The situations in which the source fills every bin: positive speed and acceleration,
   * at least one ramp bin, and the two ramps not overlapping.
   */
  predicate RampFits(edges: seq<real>, speed: real, accel: real) {
    && |edges| >= 1
    && speed > 0.0 && accel > 0.0
    && 1 <= RampBins(edges, speed, accel)
    && 2 * RampBins(edges, speed, accel) <= |edges| - 1
  }

  /** The speed after crossing a bin of the given size, entered at v: sqrt(v^2 + 2 a s). */
  function NextSpeed(nm: Numerics, size: real, v: real, accel: real): real {
    Sqrt(nm, 2.0 * size * accel + v * v)
  }

  /** Time to cross a bin of the given size entering at speed v under constant acceleration. */
  function RampTime(nm: Numerics, size: real, v: real, accel: real): real
    requires accel != 0.0
  {
    (NextSpeed(nm, size, v, accel) - v) / accel
  }

  /** The running speed after the first i ramp bins, starting from rest. */
  function RampSpeed(nm: Numerics, sizes: seq<real>, accel: real, i: nat): real
    requires i <= |sizes|
  {
    if i == 0 then 0.0
    else NextSpeed(nm, sizes[i - 1], RampSpeed(nm, sizes, accel, i - 1), accel)
  }

  /** The ramps of `idx` bins at each end fit into the row without overlapping. */
  predicate RampsFit(sizes: seq<real>, speed: real, accel: real, idx: nat) {
    speed > 0.0 && accel > 0.0 && 1 <= idx && 2 * idx <= |sizes|
  }

  /**
   * The dwell time of bin k of bins of the given sizes with `idx` ramp bins at each end: the
   * forward ramp, the interior at scan speed, and the backward ramp, whose bin n-1-k is
   * crossed at the speed the forward ramp had entering bin k.
   */
  function DwellAt(nm: Numerics, sizes: seq<real>, speed: real, accel: real, idx: nat, k: nat): real
    requires RampsFit(sizes, speed, accel, idx) && k < |sizes|
  {
    var n := |sizes|;
    if k < idx then RampTime(nm, sizes[k], RampSpeed(nm, sizes, accel, k), accel)
    else if k >= n - idx then RampTime(nm, sizes[k], RampSpeed(nm, sizes, accel, n - 1 - k), accel)
    else sizes[k] / speed
  }

  /** The dwell times of all bins. */
  function Dwell(nm: Numerics, sizes: seq<real>, speed: real, accel: real, idx: nat): (r: seq<real>)
    requires RampsFit(sizes, speed, accel, idx)
    ensures |r| == |sizes|
    ensures forall k :: 0 <= k < |sizes| ==> r[k] == DwellAt(nm, sizes, speed, accel, idx, k)
  {
    seq(|sizes|, k requires 0 <= k < |sizes| => DwellAt(nm, sizes, speed, accel, idx, k))
  }

  /** The dwell time of every bin of a row with the given edges, as the source leaves it. */
  function TransitTimes(nm: Numerics, edges: seq<real>, speed: real, accel: real): (r: seq<real>)
    requires RampFits(edges, speed, accel)
    ensures |r| == |edges| - 1
  {
    Dwell(nm, BinSizes(edges), speed, accel, RampBins(edges, speed, accel))
  }

  // ---------------------------------------------------------------------------
  // _calc_bin_transit_times
  // ---------------------------------------------------------------------------

  /**
   * Fills `tt` with the dwell time of every bin: size/speed in the interior, and the two
   * ramps from both ends at once, sharing one running speed.
   */
  method CalcBinTransitTimes(tt: array<real>, edges: seq<real>, speed: real, accel: real, nm: Numerics)
    requires Sorted(edges) && RampFits(edges, speed, accel)
    requires tt.Length == |edges| - 1
    modifies tt
    ensures tt[..] == TransitTimes(nm, edges, speed, accel)
  {
    var sizes := BinSizes(edges);
    var deAccelDist := AccelDistance(speed, accel);
    var idx := SearchSortedLeft(edges, deAccelDist);
    FillDwell(tt, sizes, speed, accel, idx, nm);
  }

  /** The body of _calc_bin_transit_times once the bin sizes and the ramp length are known. */
  method FillDwell(tt: array<real>, sizes: seq<real>, speed: real, accel: real, idx: nat, nm: Numerics)
    requires RampsFit(sizes, speed, accel, idx)
    requires tt.Length == |sizes|
    modifies tt
    ensures tt[..] == Dwell(nm, sizes, speed, accel, idx)
  {
    var n := tt.Length;
    forall k | idx <= k < n - idx {
      tt[k] := sizes[k] / speed;
    }
    var currentSpeed := 0.0;
    var i := 0;
    while i < idx
      invariant 0 <= i <= idx
      invariant currentSpeed == RampSpeed(nm, sizes, accel, i)
      invariant forall k :: 0 <= k < n && (k < i || n - i <= k || idx <= k < n - idx) ==>
        tt[k] == DwellAt(nm, sizes, speed, accel, idx, k)
    {
      currentSpeed := RampStep(tt, sizes, speed, accel, idx, nm, i, currentSpeed);
      i := i + 1;
    }
  }

  /**
   * One pass of the ramp loop: bin i and its mirror are crossed at the current speed, which
   * then grows by accel times the time spent in bin i.
   */
  method RampStep(tt: array<real>, sizes: seq<real>, speed: real, accel: real, idx: nat, nm: Numerics,
                  i: nat, currentSpeed: real) returns (nextSpeed: real)
    requires RampsFit(sizes, speed, accel, idx) && tt.Length == |sizes| && i < idx
    requires currentSpeed == RampSpeed(nm, sizes, accel, i)
    modifies tt
    ensures tt[i] == DwellAt(nm, sizes, speed, accel, idx, i)
    ensures tt[|sizes| - 1 - i] == DwellAt(nm, sizes, speed, accel, idx, |sizes| - 1 - i)
    ensures forall k :: 0 <= k < tt.Length && k != i && k != |sizes| - 1 - i ==> tt[k] == old(tt[k])
    ensures nextSpeed == RampSpeed(nm, sizes, accel, i + 1)
  {
    var reverseIdx := tt.Length - 1 - i;
    DwellRamp(nm, sizes, speed, accel, idx, i);
    RampSpeedStep(nm, sizes, accel, i);
    tt[i] := RampTime(nm, sizes[i], currentSpeed, accel);
    tt[reverseIdx] := RampTime(nm, sizes[reverseIdx], currentSpeed, accel);
    nextSpeed := currentSpeed + accel * tt[i];
  }

  /** Ramp bin i and its mirror n-1-i are both crossed at the speed of the first i bins. */
  lemma DwellRamp(nm: Numerics, sizes: seq<real>, speed: real, accel: real, idx: nat, i: nat)
    requires RampsFit(sizes, speed, accel, idx) && i < idx
    ensures Dwell(nm, sizes, speed, accel, idx)[i] == RampTime(nm, sizes[i], RampSpeed(nm, sizes, accel, i), accel)
    ensures Dwell(nm, sizes, speed, accel, idx)[|sizes| - 1 - i]
         == RampTime(nm, sizes[|sizes| - 1 - i], RampSpeed(nm, sizes, accel, i), accel)
  {
    var n := |sizes|;
    assert n - 1 - (n - 1 - i) == i;
  }

  /** Every interior bin, between the two ramps, is crossed at the scan speed. */
  lemma InteriorAtScanSpeed(nm: Numerics, edges: seq<real>, speed: real, accel: real, k: nat)
    requires RampFits(edges, speed, accel)
    requires RampBins(edges, speed, accel) <= k < |edges| - 1 - RampBins(edges, speed, accel)
    ensures TransitTimes(nm, edges, speed, accel)[k] == (edges[k + 1] - edges[k]) / speed
  {
  }

  // ---------------------------------------------------------------------------
  // Kinematics of the ramp
  // ---------------------------------------------------------------------------

  lemma MulDivCancel(a: real, b: real)
    requires a != 0.0
    ensures a * (b / a) == b
  {
  }

  /** The running speed grows by the acceleration times the time spent in the bin. */
  lemma RampSpeedStep(nm: Numerics, sizes: seq<real>, accel: real, i: nat)
    requires accel != 0.0 && i < |sizes|
    ensures RampSpeed(nm, sizes, accel, i + 1)
         == RampSpeed(nm, sizes, accel, i) + accel * RampTime(nm, sizes[i], RampSpeed(nm, sizes, accel, i), accel)
  {
    var v := RampSpeed(nm, sizes, accel, i);
    MulDivCancel(accel, NextSpeed(nm, sizes[i], v, accel) - v);
  }

  /** The square of the speed gained from rest over `dist` under `accel`: 2 a s. */
  function SpeedSquaredOver(accel: real, dist: real): real {
    2.0 * accel * dist
  }

  /** The gain over two stretches is the sum of the gains. */
  lemma SpeedSquaredOverAdd(accel: real, s: real, t: real)
    ensures SpeedSquaredOver(accel, s + t) == SpeedSquaredOver(accel, s) + SpeedSquaredOver(accel, t)
  {
    assert accel * (s + t) == accel * s + accel * t;
  }

  /** Leaving a bin of non-negative size, entered at v >= 0: w >= v and w^2 = v^2 + 2 a s. */
  lemma NextSpeedFacts(nm: Numerics, size: real, v: real, accel: real)
    requires ValidNumerics(nm) && accel > 0.0 && size >= 0.0 && v >= 0.0
    ensures NextSpeed(nm, size, v, accel) >= v
    ensures Sq(NextSpeed(nm, size, v, accel)) == SpeedSquaredOver(accel, size) + Sq(v)
  {
    var x := 2.0 * size * accel + v * v;
    assert 2.0 * size * accel >= 0.0;
    assert SpeedSquaredOver(accel, size) == 2.0 * size * accel;
    SqrtAtLeast(nm, x, v);
  }

  /** Leaving a bin of positive size the stage is strictly faster. */
  lemma NextSpeedAbove(nm: Numerics, size: real, v: real, accel: real)
    requires ValidNumerics(nm) && accel > 0.0 && size > 0.0 && v >= 0.0
    ensures NextSpeed(nm, size, v, accel) > v
  {
    var x := 2.0 * size * accel + v * v;
    assert 2.0 * size * accel > 0.0;
    SqrtAbove(nm, x, v);
  }

  /** The edges telescope: the first i bin sizes add up to edges[i] - edges[0]. */
  lemma {:induction false} SizesTelescope(edges: seq<real>, i: nat)
    requires |edges| >= 1 && i <= |edges| - 1
    ensures Sum(BinSizes(edges)[..i]) == edges[i] - edges[0]
  {
    if i > 0 {
      SizesTelescope(edges, i - 1);
      SumPrefixStep(BinSizes(edges), i - 1);
    }
  }

  /**
   * The kinematic identity v^2 = 2 a s: the running speed after i ramp bins is the
   * non-negative speed reached from rest over the first i bin sizes.
   */
  lemma {:induction false} RampSpeedSquared(nm: Numerics, sizes: seq<real>, accel: real, i: nat)
    requires ValidNumerics(nm) && accel > 0.0 && i <= |sizes|
    requires forall k :: 0 <= k < |sizes| ==> sizes[k] >= 0.0
    ensures RampSpeed(nm, sizes, accel, i) >= 0.0
    ensures Sq(RampSpeed(nm, sizes, accel, i)) == SpeedSquaredOver(accel, Sum(sizes[..i]))
  {
    if i > 0 {
      var v := RampSpeed(nm, sizes, accel, i - 1);
      RampSpeedSquared(nm, sizes, accel, i - 1);
      NextSpeedFacts(nm, sizes[i - 1], v, accel);
      SumPrefixStep(sizes, i - 1);
      SpeedSquaredOverAdd(accel, Sum(sizes[..i - 1]), sizes[i - 1]);
    }
  }

  /** The running speed never decreases. */
  lemma RampSpeedNonDecreasing(nm: Numerics, sizes: seq<real>, accel: real, i: nat)
    requires ValidNumerics(nm) && accel > 0.0 && i < |sizes|
    requires forall k :: 0 <= k < |sizes| ==> sizes[k] >= 0.0
    ensures RampSpeed(nm, sizes, accel, i) <= RampSpeed(nm, sizes, accel, i + 1)
  {
    RampSpeedSquared(nm, sizes, accel, i);
    NextSpeedFacts(nm, sizes[i], RampSpeed(nm, sizes, accel, i), accel);
  }

  /** dist = a/2 (v/a)^2 is the distance with 2 a dist = v^2. */
  lemma AccelDistanceSquared(speed: real, accel: real)
    requires accel != 0.0
    ensures SpeedSquaredOver(accel, AccelDistance(speed, accel)) == Sq(speed)
  {
    var t := speed / accel;
    MulDivCancel(accel, speed);
    assert 2.0 * accel * (accel / 2.0 * (t * t)) == (accel * t) * (accel * t);
  }

  /** 2 a x < 2 a y exactly when x < y, for a > 0. */
  lemma ScaleMonotone(a: real, x: real, y: real)
    requires a > 0.0
    ensures x < y <==> SpeedSquaredOver(a, x) < SpeedSquaredOver(a, y)
  {
    assert 2.0 * a * y - 2.0 * a * x == 2.0 * a * (y - x);
  }

  /** The speed on entering bin i is below the scan speed exactly when edges[i] is short of dist. */
  lemma RampSpeedBelow(nm: Numerics, edges: seq<real>, speed: real, accel: real, i: nat)
    requires ValidNumerics(nm) && Sorted(edges) && |edges| >= 1 && edges[0] == 0.0
    requires speed > 0.0 && accel > 0.0 && i <= |edges| - 1
    ensures RampSpeed(nm, BinSizes(edges), accel, i) < speed <==> edges[i] < AccelDistance(speed, accel)
  {
    var sizes := BinSizes(edges);
    assert forall k :: 0 <= k < |sizes| ==> sizes[k] >= 0.0;
    RampSpeedSquared(nm, sizes, accel, i);
    SizesTelescope(edges, i);
    AccelDistanceSquared(speed, accel);
    SpeedBelowIffShort(RampSpeed(nm, sizes, accel, i), speed, Sum(sizes[..i]), AccelDistance(speed, accel), accel);
  }

  /** A speed reached over distance s is below the speed reached over distance d when s < d. */
  lemma SpeedBelowIffShort(v: real, speed: real, s: real, d: real, accel: real)
    requires v >= 0.0 && speed > 0.0 && accel > 0.0
    requires Sq(v) == SpeedSquaredOver(accel, s) && SpeedSquaredOver(accel, d) == Sq(speed)
    ensures v < speed <==> s < d
  {
    SquareMonotone(v, speed);
    ScaleMonotone(accel, s, d);
  }

  /**
   * With edges starting at 0, as generate_fluence_map builds them, the stage is still below
   * the scan speed when it enters each ramp bin, and has reached it once the ramp is over.
   */
  lemma RampReachesScanSpeed(nm: Numerics, edges: seq<real>, speed: real, accel: real, i: nat)
    requires ValidNumerics(nm) && Sorted(edges) && RampFits(edges, speed, accel) && edges[0] == 0.0
    requires i < RampBins(edges, speed, accel)
    ensures RampSpeed(nm, BinSizes(edges), accel, i) < speed
    ensures RampSpeed(nm, BinSizes(edges), accel, RampBins(edges, speed, accel)) >= speed
  {
    RampSpeedBelow(nm, edges, speed, accel, i);
    RampSpeedBelow(nm, edges, speed, accel, RampBins(edges, speed, accel));
  }

  /** With bins of one size the dwell times read the same from both ends. */
  lemma MirrorSymmetric(nm: Numerics, sizes: seq<real>, speed: real, accel: real, idx: nat, size: real, k: nat)
    requires RampsFit(sizes, speed, accel, idx)
    requires forall q :: 0 <= q < |sizes| ==> sizes[q] == size
    requires k < |sizes|
    ensures Dwell(nm, sizes, speed, accel, idx)[k] == Dwell(nm, sizes, speed, accel, idx)[|sizes| - 1 - k]
  {
    assert sizes[k] == sizes[|sizes| - 1 - k];
  }

  /** A ramp bin of positive size, entered at v >= 0, takes a positive time. */
  lemma RampTimePositive(nm: Numerics, size: real, v: real, accel: real)
    requires ValidNumerics(nm) && accel > 0.0 && size > 0.0 && v >= 0.0
    ensures RampTime(nm, size, v, accel) > 0.0
  {
    NextSpeedAbove(nm, size, v, accel);
  }

  /** With bins of positive size every dwell time is positive. */
  lemma DwellPositive(nm: Numerics, sizes: seq<real>, speed: real, accel: real, idx: nat)
    requires ValidNumerics(nm) && RampsFit(sizes, speed, accel, idx)
    requires forall q :: 0 <= q < |sizes| ==> sizes[q] > 0.0
    ensures forall k :: 0 <= k < |sizes| ==> Dwell(nm, sizes, speed, accel, idx)[k] > 0.0
  {
    var tt := Dwell(nm, sizes, speed, accel, idx);
    var n := |sizes|;
    forall k | 0 <= k < n
      ensures tt[k] > 0.0
    {
      if k < idx {
        RampSpeedSquared(nm, sizes, accel, k);
        RampTimePositive(nm, sizes[k], RampSpeed(nm, sizes, accel, k), accel);
      } else if k >= n - idx {
        RampSpeedSquared(nm, sizes, accel, n - 1 - k);
        RampTimePositive(nm, sizes[k], RampSpeed(nm, sizes, accel, n - 1 - k), accel);
      }
    }
  }
}
