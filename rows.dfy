/**
 * One scanned row of the irradiation (_process_row_wait, _process_row_scan, _process_row):
 * the beam samples taken while the stage waited at an edge before the row, and those taken
 * while it crossed the row, are turned into Gaussian kernels on the fluence grids.
 * Each pass is described by the sequence of kernels it applies (`Deposit`s); the methods
 * apply them to the grids with apply_gauss_2d_kernel.
 */
module Rows {
  import opened Wrappers
  import opened NumPy
  import opened Kernel
  import opened Transit

  /** The elementary charge in coulomb (exact SI value), turning ampere-seconds into ions. */
  const ElementaryCharge: real := 0.0000000000000000001602176634

  /** One row of beam_data: a beam current measurement. */
  datatype BeamSample = BeamSample(timestamp: real, current: real, currentError: real)

  /** One row of scan_data: the geometry and timing of one scanned row. */
  datatype RowRecord = RowRecord(startTimestamp: real, stopTimestamp: real,
                                 startX: real, startY: real, scanSpeed: real, scanAccel: real)

  /**
   * What every row of one reconstruction shares: the kernel shape over the map's bin centres,
   * the bin edges in scan direction, the y offset of row 0 and the x extent of the scan area.
   */
  datatype Setup = Setup(kernel: Profile, edgesX: seq<real>, yOffset: real,
                         areaStartX: real, areaStopX: real)

  /**
   * The setup generate_fluence_map builds: sorted edges with one bin centre per bin, positive
   * beam widths, and the kernel options the row functions pass (skip_sigmas=6, normalized=False).
   */
  predicate ValidSetup(s: Setup) {
    && ValidProfile(s.kernel)
    && s.kernel.skipSigmas == 6.0 && !s.kernel.normalized
    && |s.edgesX| >= 2 && Sorted(s.edgesX)
    && |s.kernel.centersX| == |s.edgesX| - 1
  }

  function Timestamps(b: seq<BeamSample>): (r: seq<real>)
    ensures |r| == |b| && forall k :: 0 <= k < |b| ==> r[k] == b[k].timestamp
  {
    seq(|b|, k requires 0 <= k < |b| => b[k].timestamp)
  }

  function Currents(b: seq<BeamSample>): (r: seq<real>)
    ensures |r| == |b| && forall k :: 0 <= k < |b| ==> r[k] == b[k].current
  {
    seq(|b|, k requires 0 <= k < |b| => b[k].current)
  }

  function CurrentErrors(b: seq<BeamSample>): (r: seq<real>)
    ensures |r| == |b| && forall k :: 0 <= k < |b| ==> r[k] == b[k].currentError
  {
    seq(|b|, k requires 0 <= k < |b| => b[k].currentError)
  }

  // ---------------------------------------------------------------------------
  // Scan direction
  // ---------------------------------------------------------------------------

  datatype Direction = LeftToRight | RightToLeft

  /** row_start_x strictly within 0.5 mm of x. */
  predicate NearEdge(rowStartX: real, x: real) {
    x - 0.5 < rowStartX < x + 0.5
  }

  /**
   * The direction of a row from where it started: the start edge of the scan area is tried
   * first, then the stop edge; a row that started near neither raises ValueError.
   */
  function RowDirection(s: Setup, row: RowRecord): (r: Result<Direction, FluenceError>)
    ensures r.Failure? ==> r.error == RowOffEdge
  {
    if NearEdge(row.startX, s.areaStartX) then Success(LeftToRight)
    else if NearEdge(row.startX, s.areaStopX) then Success(RightToLeft)
    else Failure(RowOffEdge)
  }

  /**
   * The direction is decided by the edge the row started near; when the scan area is at
   * least 1 mm wide the two windows do not overlap, so the order of the tests does not matter.
   */
  lemma DirectionByEdge(s: Setup, row: RowRecord)
    requires Abs(s.areaStopX - s.areaStartX) >= 1.0
    ensures RowDirection(s, row) == Success(LeftToRight) <==> NearEdge(row.startX, s.areaStartX)
    ensures RowDirection(s, row) == Success(RightToLeft) <==> NearEdge(row.startX, s.areaStopX)
    ensures RowDirection(s, row).Failure?
        <==> !NearEdge(row.startX, s.areaStartX) && !NearEdge(row.startX, s.areaStopX)
  {
  }

  /** A row that started near the start edge is a left-to-right row, whatever the stop edge. */
  lemma StartEdgeFirst(s: Setup, row: RowRecord)
    requires NearEdge(row.startX, s.areaStartX)
    ensures RowDirection(s, row) == Success(LeftToRight)
  {
  }

  // ---------------------------------------------------------------------------
  // _process_row_wait
  // ---------------------------------------------------------------------------

  /** The x at which the beam waited before a row: the first edge, or the last one. */
  function WaitMuX(s: Setup, dir: Direction): real
    requires |s.edgesX| >= 1
  {
    match dir
    case LeftToRight => s.edgesX[0]
    case RightToLeft => s.edgesX[|s.edgesX| - 1]
  }

  /**
   * The kernel of wait sample i: the current times the time until the next sample, in ions,
   * with the error of that charge and the spread of the wait currents added in quadrature.
   */
  function WaitDeposit(nm: Numerics, wait: seq<BeamSample>, spread: real, muX: real, muY: real, i: nat): Deposit
    requires i + 1 < |wait|
  {
    var interval := wait[i + 1].timestamp - wait[i].timestamp;
    var ions := wait[i].current * interval / ElementaryCharge;
    var ionsError := wait[i].currentError * interval / ElementaryCharge;
    Deposit(ions, Sqrt(nm, Sq(ionsError) + Sq(spread)), muX, muY)
  }

  /** The kernels the wait before a row deposits, one per consecutive pair of samples. */
  function WaitDeposits(s: Setup, row: RowRecord, wait: seq<BeamSample>): (r: Result<seq<Deposit>, FluenceError>)
    requires ValidSetup(s) && |wait| > 0
    ensures r.Success? <==> RowDirection(s, row).Success?
    ensures r.Failure? ==> r.error == RowOffEdge
    ensures r.Success? ==> |r.value| == |wait| - 1
    ensures r.Success? ==> forall k :: 0 <= k < |r.value| ==>
      r.value[k].muX == WaitMuX(s, RowDirection(s, row).value) && r.value[k].muY == row.startY - s.yOffset
  {
    var dir :- RowDirection(s, row);
    var muX := WaitMuX(s, dir);
    var muY := row.startY - s.yOffset;
    var spread := Std(s.kernel.nm, Currents(wait));
    Success(seq(|wait| - 1, i requires 0 <= i < |wait| - 1 => WaitDeposit(s.kernel.nm, wait, spread, muX, muY, i)))
  }

  lemma NonNegativeQuotient(a: real, b: real, c: real)
    requires a >= 0.0 && b >= 0.0 && c > 0.0
    ensures a * b / c >= 0.0
  {
    NonNegativeProduct(a, b);
  }

  lemma NonNegativeProduct(a: real, b: real)
    requires a >= 0.0 && b >= 0.0
    ensures a * b >= 0.0
  {
  }

  /**
   * With non-negative currents and time-ordered samples every wait kernel carries a
   * non-negative number of ions and a non-negative error.
   */
  lemma WaitDepositsNonNegative(s: Setup, row: RowRecord, wait: seq<BeamSample>)
    requires ValidSetup(s) && |wait| > 0 && ValidNumerics(s.kernel.nm)
    requires Sorted(Timestamps(wait))
    requires forall k :: 0 <= k < |wait| ==> wait[k].current >= 0.0
    requires RowDirection(s, row).Success?
    ensures forall k :: 0 <= k < |wait| - 1 ==>
      WaitDeposits(s, row, wait).value[k].amplitude >= 0.0 && WaitDeposits(s, row, wait).value[k].amplitudeError >= 0.0
  {
    var ds := WaitDeposits(s, row, wait).value;
    forall k | 0 <= k < |wait| - 1
      ensures ds[k].amplitude >= 0.0 && ds[k].amplitudeError >= 0.0
    {
      assert Timestamps(wait)[k] <= Timestamps(wait)[k + 1];
      NonNegativeQuotient(wait[k].current, wait[k + 1].timestamp - wait[k].timestamp, ElementaryCharge);
    }
  }

  /**
   * Applies the kernels of the wait before a row to both grids, or raises for a row that
   * started near neither edge before touching any cell.
   */
  method ProcessRowWait(m: array2<real>, e: array2<real>, s: Setup, row: RowRecord, wait: seq<BeamSample>)
    returns (status: Outcome<FluenceError>)
    requires ValidSetup(s) && |wait| > 0
    requires m != e && e.Length0 == m.Length0 && e.Length1 == m.Length1
    requires m.Length0 <= |s.kernel.centersY| && m.Length1 <= |s.kernel.centersX|
    modifies m, e
    ensures status.Pass? <==> WaitDeposits(s, row, wait).Success?
    ensures status.Fail? ==> status.error == RowOffEdge
    ensures status.Fail? ==> Cells(m) == old(Cells(m)) && Cells(e) == old(Cells(e))
    ensures status.Pass? ==> Cells(m) == DepositedAll(old(Cells(m)), s.kernel, WaitDeposits(s, row, wait).value, Value)
    ensures status.Pass? ==> Cells(e) == DepositedAll(old(Cells(e)), s.kernel, WaitDeposits(s, row, wait).value, Error)
  {
    var dir := RowDirection(s, row);
    if dir.Failure? {
      return Fail(RowOffEdge);
    }
    var muX := WaitMuX(s, dir.value);
    var muY := row.startY - s.yOffset;
    var spread := Std(s.kernel.nm, Currents(wait));
    ghost var ds := WaitDeposits(s, row, wait).value;
    ghost var m0, e0 := Cells(m), Cells(e);
    var i := 0;
    while i < |wait| - 1
      invariant 0 <= i <= |wait| - 1
      invariant Cells(m) == DepositedAll(m0, s.kernel, ds[..i], Value)
      invariant Cells(e) == DepositedAll(e0, s.kernel, ds[..i], Error)
    {
      ApplyKernel(m, e, s, WaitDeposit(s.kernel.nm, wait, spread, muX, muY, i));
      assert ds[..i + 1] == ds[..i] + [ds[i]];
      DepositedAllSnoc(m0, s.kernel, ds[..i], ds[i], Value);
      DepositedAllSnoc(e0, s.kernel, ds[..i], ds[i], Error);
      i := i + 1;
    }
    assert ds[..|wait| - 1] == ds;
    status := Pass;
  }

  /** Applying one more kernel extends the sequence of applied kernels by one. */
  lemma DepositedAllSnoc(g: Grid, p: Profile, ds: seq<Deposit>, d: Deposit, layer: Layer)
    requires ValidProfile(p) && Fits(g, p)
    ensures DepositedAll(g, p, ds + [d], layer) == Deposited(DepositedAll(g, p, ds, layer), p, d, layer)
  {
    assert (ds + [d])[..|ds + [d]| - 1] == ds;
  }

  /**
   * apply_gauss_2d_kernel with the row functions' skip_sigmas=6, which never raises:
   * the kernel is added to both grids.
   */
  method ApplyKernel(m: array2<real>, e: array2<real>, s: Setup, d: Deposit)
    requires ValidSetup(s)
    requires m != e && e.Length0 == m.Length0 && e.Length1 == m.Length1
    requires m.Length0 <= |s.kernel.centersY| && m.Length1 <= |s.kernel.centersX|
    modifies m, e
    ensures Cells(m) == Deposited(old(Cells(m)), s.kernel, d, Value)
    ensures Cells(e) == Deposited(old(Cells(e)), s.kernel, d, Error)
  {
    var status := ApplyGauss2dKernel(m, e, s.kernel, d);
  }

  // ---------------------------------------------------------------------------
  // Row timing (_process_row_scan)
  // ---------------------------------------------------------------------------

  /** The dead time assumed at each end of a row: half of what the dwell times leave over. */
  function Overhead(tt: seq<real>, start: real, stop: real): real {
    (stop - start - Sum(tt)) / 2.0
  }

  /** Two overheads and the dwell times fill the row exactly. */
  lemma OverheadIdentity(tt: seq<real>, start: real, stop: real)
    ensures 2.0 * Overhead(tt, start, stop) + Sum(tt) == stop - start
  {
  }

  /** actual_row_start + cumsum(tt) - tt / 2: the time the beam is at each bin centre. */
  function CenterTimestamps(tt: seq<real>, rowStart: real): (r: seq<real>)
    ensures |r| == |tt|
    ensures forall k :: 0 <= k < |tt| ==> r[k] == rowStart + Sum(tt[..k + 1]) - tt[k] / 2.0
  {
    seq(|tt|, k requires 0 <= k < |tt| => rowStart + Sum(tt[..k + 1]) - tt[k] / 2.0)
  }

  /** The times of the bin centres of a row (the dwell times placed between the overheads). */
  function RowCenterTimes(tt: seq<real>, start: real, stop: real): (r: seq<real>)
    ensures |r| == |tt|
  {
    CenterTimestamps(tt, start + Overhead(tt, start, stop))
  }

  /**
   * With positive dwell times the bin-centre times strictly increase and lie strictly
   * between the end of the start overhead and the beginning of the stop overhead.
   */
  lemma CenterTimestampsOrdered(tt: seq<real>, start: real, stop: real)
    requires forall k :: 0 <= k < |tt| ==> tt[k] > 0.0
    ensures StrictlySorted(RowCenterTimes(tt, start, stop))
    ensures forall k :: 0 <= k < |tt| ==>
      start + Overhead(tt, start, stop) < RowCenterTimes(tt, start, stop)[k] < stop - Overhead(tt, start, stop)
  {
    var t0 := start + Overhead(tt, start, stop);
    OverheadIdentity(tt, start, stop);
    forall k | 0 <= k < |tt|
      ensures t0 < CenterTimestamps(tt, t0)[k] < t0 + Sum(tt)
    {
      CenterBetween(tt, t0, k);
    }
    forall i, j | 0 <= i < j < |tt|
      ensures CenterTimestamps(tt, t0)[i] < CenterTimestamps(tt, t0)[j]
    {
      CentersIncrease(tt, t0, i, j);
    }
  }

  lemma CenterBetween(tt: seq<real>, t0: real, k: nat)
    requires forall q :: 0 <= q < |tt| ==> tt[q] > 0.0
    requires k < |tt|
    ensures t0 < CenterTimestamps(tt, t0)[k] < t0 + Sum(tt)
  {
    SumPrefixStep(tt, k);
    SumPrefixNonNegative(tt, k);
    if k + 1 < |tt| {
      SumPrefixIncreasing(tt, k + 1, |tt|);
    }
    assert tt[..|tt|] == tt;
  }

  lemma CentersIncrease(tt: seq<real>, t0: real, i: nat, j: nat)
    requires forall q :: 0 <= q < |tt| ==> tt[q] > 0.0
    requires i < j < |tt|
    ensures CenterTimestamps(tt, t0)[i] < CenterTimestamps(tt, t0)[j]
  {
    SumPrefixStep(tt, i);
    SumPrefixStep(tt, j);
    if i + 1 < j {
      SumPrefixIncreasing(tt, i + 1, j);
    }
  }

  /** A prefix sum of positive terms is non-negative. */
  lemma {:induction false} SumPrefixNonNegative(s: seq<real>, k: nat)
    requires k <= |s|
    requires forall q :: 0 <= q < |s| ==> s[q] > 0.0
    ensures Sum(s[..k]) >= 0.0
  {
    if k > 0 {
      SumPrefixStep(s, k - 1);
      SumPrefixNonNegative(s, k - 1);
    }
  }

  // ---------------------------------------------------------------------------
  // _process_row_scan
  // ---------------------------------------------------------------------------

  /** The x of the kernel of bin k: the bin centres in scan order. */
  function ScanCenters(s: Setup, dir: Direction): (r: seq<real>)
    ensures |r| == |s.kernel.centersX|
  {
    match dir
    case LeftToRight => s.kernel.centersX
    case RightToLeft => Reverse(s.kernel.centersX)
  }

  /** The current interpolated at each bin-centre time, times the dwell time, in ions. */
  function BinIons(ts: seq<real>, tt: seq<real>, times: seq<real>, values: seq<real>): (r: seq<real>)
    requires |ts| == |tt| && |times| == |values| > 0
    ensures |r| == |tt|
  {
    seq(|tt|, k requires 0 <= k < |tt| => Interp(ts[k], times, values) * tt[k] / ElementaryCharge)
  }

  /** The kernel of bin k: its ions, their error and the spread of all bins in quadrature. */
  function BinDeposit(nm: Numerics, ions: seq<real>, ionErrors: seq<real>, spread: real,
                      centers: seq<real>, muY: real, k: nat): (d: Deposit)
    requires k < |ions| && k < |ionErrors| && k < |centers|
    ensures ValidNumerics(nm) ==> d.amplitudeError >= 0.0
  {
    Deposit(ions[k], Sqrt(nm, Sq(ionErrors[k]) + Sq(spread)), centers[k], muY)
  }

  /** The kernels of a row crossed in direction `dir`, one per bin. */
  function ScanKernels(s: Setup, row: RowRecord, rowBeam: seq<BeamSample>, tt: seq<real>, dir: Direction)
    : (r: seq<Deposit>)
    requires ValidSetup(s) && |tt| == |s.kernel.centersX| && |rowBeam| > 0
    ensures |r| == |tt|
    ensures forall k :: 0 <= k < |tt| ==> r[k].muX == ScanCenters(s, dir)[k] && r[k].muY == row.startY - s.yOffset
    ensures ValidNumerics(s.kernel.nm) ==> forall k :: 0 <= k < |tt| ==> r[k].amplitudeError >= 0.0
  {
    var ts := RowCenterTimes(tt, row.startTimestamp, row.stopTimestamp);
    var ions := BinIons(ts, tt, Timestamps(rowBeam), Currents(rowBeam));
    var ionErrors := BinIons(ts, tt, Timestamps(rowBeam), CurrentErrors(rowBeam));
    var spread := Std(s.kernel.nm, ions);
    var centers := ScanCenters(s, dir);
    seq(|tt|, k requires 0 <= k < |tt| =>
      BinDeposit(s.kernel.nm, ions, ionErrors, spread, centers, row.startY - s.yOffset, k))
  }

  /**
   * The kernels of a scanned row given its dwell times `tt`: np.interp raises on a row
   * without beam samples, then a row that started near neither edge raises.
   */
  function ScanDeposits(s: Setup, row: RowRecord, rowBeam: seq<BeamSample>, tt: seq<real>)
    : (r: Result<seq<Deposit>, FluenceError>)
    requires ValidSetup(s) && |tt| == |s.kernel.centersX|
    ensures r.Failure? ==> r.error == (if |rowBeam| == 0 then EmptyBeamData else RowOffEdge)
    ensures r.Success? <==> |rowBeam| > 0 && RowDirection(s, row).Success?
    ensures r.Success? ==> |r.value| == |tt|
  {
    if |rowBeam| == 0 then Failure(EmptyBeamData)
    else
      var dir :- RowDirection(s, row);
      Success(ScanKernels(s, row, rowBeam, tt, dir))
  }

  /**
   * The kernel of bin k sits at the centre of the k-th bin crossed: bin k from the left for
   * a left-to-right row, bin n-1-k for a right-to-left one.
   */
  lemma ScanDepositsPlaced(s: Setup, row: RowRecord, rowBeam: seq<BeamSample>, tt: seq<real>, k: nat)
    requires ValidSetup(s) && |tt| == |s.kernel.centersX| && k < |tt|
    requires ScanDeposits(s, row, rowBeam, tt).Success?
    ensures RowDirection(s, row) == Success(LeftToRight) ==>
      ScanDeposits(s, row, rowBeam, tt).value[k].muX == s.kernel.centersX[k]
    ensures RowDirection(s, row) == Success(RightToLeft) ==>
      ScanDeposits(s, row, rowBeam, tt).value[k].muX == s.kernel.centersX[|tt| - 1 - k]
    ensures ScanDeposits(s, row, rowBeam, tt).value[k].muY == row.startY - s.yOffset
  {
  }

  /**
   * Why the centres may simply be reversed for right-to-left rows: with bins of one size
   * the dwell times are symmetric, so the kernel of bin k, computed with dwell time tt[k],
   * lands in bin n-1-k, whose dwell time is the same.
   */
  lemma ReversedRowDwellMatches(nm: Numerics, edges: seq<real>, speed: real, accel: real, size: real, k: nat)
    requires RampFits(edges, speed, accel)
    requires forall q :: 0 <= q < |edges| - 1 ==> edges[q + 1] - edges[q] == size
    requires k < |edges| - 1
    ensures TransitTimes(nm, edges, speed, accel)[k] == TransitTimes(nm, edges, speed, accel)[|edges| - 2 - k]
  {
    MirrorSymmetric(nm, BinSizes(edges), speed, accel, RampBins(edges, speed, accel), size, k);
  }

  /**
   * Fills the dwell-time buffer for the row, then applies the kernel of every bin to both
   * grids. Raises, before touching any cell, for a row without beam samples (np.interp on
   * empty data) and for a row that started near neither edge, in that order.
   */
  method ProcessRowScan(m: array2<real>, e: array2<real>, tt: array<real>, s: Setup, row: RowRecord,
                        rowBeam: seq<BeamSample>)
    returns (status: Outcome<FluenceError>)
    requires ValidSetup(s) && RampFits(s.edgesX, row.scanSpeed, row.scanAccel)
    requires Sorted(Timestamps(rowBeam))
    requires tt.Length == |s.edgesX| - 1
    requires m != e && e.Length0 == m.Length0 && e.Length1 == m.Length1
    requires m.Length0 <= |s.kernel.centersY| && m.Length1 <= |s.kernel.centersX|
    modifies m, e, tt
    ensures tt[..] == RowTransitTimes(s, row)
    ensures status.Pass? <==> ScanDeposits(s, row, rowBeam, RowTransitTimes(s, row)).Success?
    ensures status.Fail? ==> status.error == ScanDeposits(s, row, rowBeam, RowTransitTimes(s, row)).error
    ensures status.Fail? ==> Cells(m) == old(Cells(m)) && Cells(e) == old(Cells(e))
    ensures status.Pass? ==> Cells(m) == DepositedAll(old(Cells(m)), s.kernel, ScanDeposits(s, row, rowBeam, RowTransitTimes(s, row)).value, Value)
    ensures status.Pass? ==> Cells(e) == DepositedAll(old(Cells(e)), s.kernel, ScanDeposits(s, row, rowBeam, RowTransitTimes(s, row)).value, Error)
  {
    CalcBinTransitTimes(tt, s.edgesX, row.scanSpeed, row.scanAccel, s.kernel.nm);
    var r := ScanDeposits(s, row, rowBeam, tt[..]);
    if r.Failure? {
      return Fail(r.error);
    }
    ApplyDeposits(m, e, s, r.value);
    status := Pass;
  }

  /** The kernel loop: applies the kernels first to last. */
  method ApplyDeposits(m: array2<real>, e: array2<real>, s: Setup, ds: seq<Deposit>)
    requires ValidSetup(s)
    requires m != e && e.Length0 == m.Length0 && e.Length1 == m.Length1
    requires m.Length0 <= |s.kernel.centersY| && m.Length1 <= |s.kernel.centersX|
    modifies m, e
    ensures Cells(m) == DepositedAll(old(Cells(m)), s.kernel, ds, Value)
    ensures Cells(e) == DepositedAll(old(Cells(e)), s.kernel, ds, Error)
  {
    ghost var m0, e0 := Cells(m), Cells(e);
    var i := 0;
    while i < |ds|
      invariant 0 <= i <= |ds|
      invariant Cells(m) == DepositedAll(m0, s.kernel, ds[..i], Value)
      invariant Cells(e) == DepositedAll(e0, s.kernel, ds[..i], Error)
    {
      ApplyKernel(m, e, s, ds[i]);
      assert ds[..i + 1] == ds[..i] + [ds[i]];
      DepositedAllSnoc(m0, s.kernel, ds[..i], ds[i], Value);
      DepositedAllSnoc(e0, s.kernel, ds[..i], ds[i], Error);
      i := i + 1;
    }
    assert ds[..|ds|] == ds;
  }

  // ---------------------------------------------------------------------------
  // _process_row
  // ---------------------------------------------------------------------------

  /** The beam samples not yet used by earlier rows: beam_data[cursor:]. */
  function Remaining(beam: seq<BeamSample>, cursor: nat): seq<BeamSample> {
    PySlice(beam, cursor, |beam|)
  }

  /** Index into the remaining samples of the first one taken at or after the row start. */
  function RowStartIdx(beam: seq<BeamSample>, cursor: nat, row: RowRecord): nat {
    LeftIdx(Timestamps(Remaining(beam, cursor)), row.startTimestamp)
  }

  /** Index into the remaining samples of the first one taken after the row stop. */
  function RowStopIdx(beam: seq<BeamSample>, cursor: nat, row: RowRecord): nat {
    RightIdx(Timestamps(Remaining(beam, cursor)), row.stopTimestamp)
  }

  /** The samples taken while the stage waited before the row. */
  function WaitSlice(beam: seq<BeamSample>, cursor: nat, row: RowRecord): seq<BeamSample> {
    PySlice(Remaining(beam, cursor), 0, RowStartIdx(beam, cursor, row))
  }

  /** The samples taken while the row was scanned. */
  function RowSlice(beam: seq<BeamSample>, cursor: nat, row: RowRecord): seq<BeamSample> {
    PySlice(Remaining(beam, cursor), RowStartIdx(beam, cursor, row), RowStopIdx(beam, cursor, row))
  }

  /** The cursor handed to the next row: just past the last sample of this one. */
  function NextCursor(beam: seq<BeamSample>, cursor: nat, row: RowRecord): nat {
    cursor + RowStopIdx(beam, cursor, row)
  }

  /** The wait is processed when the beam-data cursor is past 0 and the wait slice holds any sample. */
  function WaitPass(s: Setup, row: RowRecord, wait: seq<BeamSample>, cursorMoved: bool): Result<seq<Deposit>, FluenceError>
    requires ValidSetup(s)
  {
    if cursorMoved && |wait| > 0 then WaitDeposits(s, row, wait) else Success([])
  }

  /** The dwell times of the row's bins at its scan speed and acceleration. */
  function RowTransitTimes(s: Setup, row: RowRecord): (r: seq<real>)
    requires ValidSetup(s) && RampFits(s.edgesX, row.scanSpeed, row.scanAccel)
    ensures |r| == |s.kernel.centersX|
  {
    TransitTimes(s.kernel.nm, s.edgesX, row.scanSpeed, row.scanAccel)
  }

  /** The kernels of the two passes over a row: those of the wait, then those of the bins. */
  function Passes(s: Setup, row: RowRecord, wait: seq<BeamSample>, rowBeam: seq<BeamSample>, cursorMoved: bool)
    : (r: Result<seq<Deposit>, FluenceError>)
    requires ValidSetup(s) && RampFits(s.edgesX, row.scanSpeed, row.scanAccel)
  {
    var w :- WaitPass(s, row, wait, cursorMoved);
    var scan :- ScanDeposits(s, row, rowBeam, RowTransitTimes(s, row));
    Success(w + scan)
  }

  /** The kernels already applied when the passes raise: those of a wait that went through. */
  function PassesBeforeFailure(s: Setup, row: RowRecord, wait: seq<BeamSample>, cursorMoved: bool): seq<Deposit>
    requires ValidSetup(s)
  {
    var w := WaitPass(s, row, wait, cursorMoved);
    if w.Success? then w.value else []
  }

  /** The wait pass of a row of the beam data. */
  function RowWait(s: Setup, row: RowRecord, beam: seq<BeamSample>, cursor: nat): Result<seq<Deposit>, FluenceError>
    requires ValidSetup(s)
  {
    WaitPass(s, row, WaitSlice(beam, cursor, row), cursor > 0)
  }

  /** The kernels a row of the beam data deposits. */
  function RowDeposits(s: Setup, row: RowRecord, beam: seq<BeamSample>, cursor: nat)
    : (r: Result<seq<Deposit>, FluenceError>)
    requires ValidSetup(s) && RampFits(s.edgesX, row.scanSpeed, row.scanAccel)
    ensures r.Success? ==>
      RowWait(s, row, beam, cursor).Success? &&
      |r.value| == |RowWait(s, row, beam, cursor).value| + |s.kernel.centersX|
  {
    Passes(s, row, WaitSlice(beam, cursor, row), RowSlice(beam, cursor, row), cursor > 0)
  }

  /** The kernels already applied when a row of the beam data raises. */
  function AppliedBeforeFailure(s: Setup, row: RowRecord, beam: seq<BeamSample>, cursor: nat): seq<Deposit>
    requires ValidSetup(s)
  {
    PassesBeforeFailure(s, row, WaitSlice(beam, cursor, row), cursor > 0)
  }

  /**
   * The wait pass runs only when the beam-data cursor is past 0 and on a non-empty wait slice; then it
   * deposits one kernel per consecutive pair of wait samples, and otherwise none.
   */
  lemma WaitPassRuns(s: Setup, row: RowRecord, beam: seq<BeamSample>, cursor: nat)
    requires ValidSetup(s)
    ensures !(cursor > 0 && |WaitSlice(beam, cursor, row)| > 0) ==> RowWait(s, row, beam, cursor) == Success([])
    ensures cursor > 0 && |WaitSlice(beam, cursor, row)| > 0 ==>
      (RowWait(s, row, beam, cursor).Success? <==> RowDirection(s, row).Success?)
    ensures cursor > 0 && |WaitSlice(beam, cursor, row)| > 0 && RowWait(s, row, beam, cursor).Success? ==>
      |RowWait(s, row, beam, cursor).value| == |WaitSlice(beam, cursor, row)| - 1
  {
  }

  /** Only a row without beam samples can raise once its wait went through. */
  lemma RowFailsAfterWaitOnlyWithoutSamples(s: Setup, row: RowRecord, beam: seq<BeamSample>, cursor: nat)
    requires ValidSetup(s) && RampFits(s.edgesX, row.scanSpeed, row.scanAccel)
    requires RowDeposits(s, row, beam, cursor).Failure?
    requires |AppliedBeforeFailure(s, row, beam, cursor)| > 0
    ensures RowDeposits(s, row, beam, cursor).error == EmptyBeamData
    ensures |RowSlice(beam, cursor, row)| == 0
  {
  }

  lemma SortedTimestampsSlice(b: seq<BeamSample>, lo: nat, hi: nat)
    requires Sorted(Timestamps(b))
    ensures Sorted(Timestamps(PySlice(b, lo, hi)))
  {
    var t := Timestamps(PySlice(b, lo, hi));
    forall i, j | 0 <= i <= j < |t|
      ensures t[i] <= t[j]
    {
      assert Timestamps(b)[lo + i] <= Timestamps(b)[lo + j];
    }
  }

  /** The wait samples were all taken before the row started. */
  lemma WaitSliceBeforeRow(beam: seq<BeamSample>, cursor: nat, row: RowRecord)
    ensures forall k :: 0 <= k < |WaitSlice(beam, cursor, row)| ==>
      WaitSlice(beam, cursor, row)[k].timestamp < row.startTimestamp
  {
    var rest := Remaining(beam, cursor);
    forall k | 0 <= k < |WaitSlice(beam, cursor, row)|
      ensures WaitSlice(beam, cursor, row)[k].timestamp < row.startTimestamp
    {
      assert Timestamps(rest)[k] < row.startTimestamp;
    }
  }

  /** With time-ordered samples the row samples were all taken between row start and row stop. */
  lemma RowSliceWithinRow(beam: seq<BeamSample>, cursor: nat, row: RowRecord)
    requires Sorted(Timestamps(beam))
    ensures forall k :: 0 <= k < |RowSlice(beam, cursor, row)| ==>
      row.startTimestamp <= RowSlice(beam, cursor, row)[k].timestamp <= row.stopTimestamp
  {
    var rest := Remaining(beam, cursor);
    var lo := RowStartIdx(beam, cursor, row);
    SortedTimestampsSlice(beam, cursor, |beam|);
    LeftIdxSorted(Timestamps(rest), row.startTimestamp);
    forall k | 0 <= k < |RowSlice(beam, cursor, row)|
      ensures row.startTimestamp <= RowSlice(beam, cursor, row)[k].timestamp <= row.stopTimestamp
    {
      assert Timestamps(rest)[lo + k] >= row.startTimestamp;
      assert Timestamps(rest)[lo + k] <= row.stopTimestamp;
    }
  }

  /**
   * The next cursor never moves back and stays within the samples; with time-ordered samples
   * it splits those after the old cursor into the ones taken up to the row stop and the later ones.
   */
  lemma NextCursorSplits(beam: seq<BeamSample>, cursor: nat, row: RowRecord)
    requires Sorted(Timestamps(beam)) && cursor <= |beam|
    ensures cursor <= NextCursor(beam, cursor, row) <= |beam|
    ensures forall q :: cursor <= q < NextCursor(beam, cursor, row) ==> beam[q].timestamp <= row.stopTimestamp
    ensures forall q :: NextCursor(beam, cursor, row) <= q < |beam| ==> beam[q].timestamp > row.stopTimestamp
  {
    var rest := Remaining(beam, cursor);
    var hi := RowStopIdx(beam, cursor, row);
    SortedTimestampsSlice(beam, cursor, |beam|);
    RightIdxSorted(Timestamps(rest), row.stopTimestamp);
    forall q | cursor <= q < |beam|
      ensures q < cursor + hi ==> beam[q].timestamp <= row.stopTimestamp
      ensures q >= cursor + hi ==> beam[q].timestamp > row.stopTimestamp
    {
      assert rest[q - cursor] == beam[q];
      assert Timestamps(rest)[q - cursor] == beam[q].timestamp;
    }
  }

  /**
   * Processes one row: the wait before it (only for rows after the first), then the row
   * itself, and returns where the next row's samples start.
   */
  method ProcessRow(m: array2<real>, e: array2<real>, tt: array<real>, s: Setup, row: RowRecord,
                    beam: seq<BeamSample>, cursor: nat)
    returns (r: Result<nat, FluenceError>)
    requires ValidSetup(s) && RampFits(s.edgesX, row.scanSpeed, row.scanAccel)
    requires Sorted(Timestamps(beam))
    requires tt.Length == |s.edgesX| - 1
    requires m != e && e.Length0 == m.Length0 && e.Length1 == m.Length1
    requires m.Length0 <= |s.kernel.centersY| && m.Length1 <= |s.kernel.centersX|
    modifies m, e, tt
    ensures RowWait(s, row, beam, cursor).Failure? ==> tt[..] == old(tt[..])
    ensures RowWait(s, row, beam, cursor).Success? ==> tt[..] == RowTransitTimes(s, row)
    ensures r.Success? <==> RowDeposits(s, row, beam, cursor).Success?
    ensures r.Failure? ==> r.error == RowDeposits(s, row, beam, cursor).error
    ensures r.Success? ==> r.value == NextCursor(beam, cursor, row)
    ensures r.Success? ==>
      Cells(m) == DepositedAll(old(Cells(m)), s.kernel, RowDeposits(s, row, beam, cursor).value, Value) &&
      Cells(e) == DepositedAll(old(Cells(e)), s.kernel, RowDeposits(s, row, beam, cursor).value, Error)
    ensures r.Failure? ==>
      Cells(m) == DepositedAll(old(Cells(m)), s.kernel, AppliedBeforeFailure(s, row, beam, cursor), Value) &&
      Cells(e) == DepositedAll(old(Cells(e)), s.kernel, AppliedBeforeFailure(s, row, beam, cursor), Error)
  {
    var current := PySlice(beam, cursor, |beam|);
    SortedTimestampsSlice(beam, cursor, |beam|);
    var rowStartIdx := SearchSortedLeft(Timestamps(current), row.startTimestamp);
    var rowStopIdx := SearchSortedRight(Timestamps(current), row.stopTimestamp);
    var rowBeam := PySlice(current, rowStartIdx, rowStopIdx);
    SortedTimestampsSlice(current, rowStartIdx, rowStopIdx);
    var wait := PySlice(current, 0, rowStartIdx);
    assert wait == WaitSlice(beam, cursor, row);
    assert rowBeam == RowSlice(beam, cursor, row);
    var status := RowPasses(m, e, tt, s, row, cursor > 0, wait, rowBeam);
    if status.Fail? {
      return Failure(status.error);
    }
    r := Success(cursor + rowStopIdx);
  }

  /** The two passes of a row over its wait samples and its row samples. */
  method RowPasses(m: array2<real>, e: array2<real>, tt: array<real>, s: Setup, row: RowRecord,
                   cursorMoved: bool, wait: seq<BeamSample>, rowBeam: seq<BeamSample>)
    returns (status: Outcome<FluenceError>)
    requires ValidSetup(s) && RampFits(s.edgesX, row.scanSpeed, row.scanAccel)
    requires Sorted(Timestamps(rowBeam))
    requires tt.Length == |s.edgesX| - 1
    requires m != e && e.Length0 == m.Length0 && e.Length1 == m.Length1
    requires m.Length0 <= |s.kernel.centersY| && m.Length1 <= |s.kernel.centersX|
    modifies m, e, tt
    ensures WaitPass(s, row, wait, cursorMoved).Failure? ==> tt[..] == old(tt[..])
    ensures WaitPass(s, row, wait, cursorMoved).Success? ==> tt[..] == RowTransitTimes(s, row)
    ensures status.Pass? <==> Passes(s, row, wait, rowBeam, cursorMoved).Success?
    ensures status.Fail? ==> status.error == Passes(s, row, wait, rowBeam, cursorMoved).error
    ensures var applied := if status.Pass? then Passes(s, row, wait, rowBeam, cursorMoved).value
                           else PassesBeforeFailure(s, row, wait, cursorMoved);
      Cells(m) == DepositedAll(old(Cells(m)), s.kernel, applied, Value) &&
      Cells(e) == DepositedAll(old(Cells(e)), s.kernel, applied, Error)
  {
    ghost var m0, e0 := Cells(m), Cells(e);
    ghost var w := WaitPass(s, row, wait, cursorMoved);
    if cursorMoved && |wait| > 0 {
      status := ProcessRowWait(m, e, s, row, wait);
      if status.Fail? {
        assert DepositedAll(m0, s.kernel, [], Value) == m0;
        assert DepositedAll(e0, s.kernel, [], Error) == e0;
        return;
      }
    } else {
      assert DepositedAll(m0, s.kernel, [], Value) == m0;
      assert DepositedAll(e0, s.kernel, [], Error) == e0;
    }
    status := ProcessRowScan(m, e, tt, s, row, rowBeam);
    if status.Pass? {
      ghost var scan := ScanDeposits(s, row, rowBeam, RowTransitTimes(s, row)).value;
      DepositedAllAppend(m0, s.kernel, w.value, scan, Value);
      DepositedAllAppend(e0, s.kernel, w.value, scan, Error);
    }
  }
}
