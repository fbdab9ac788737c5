/**
 * generate_fluence_map: the bins of the scan area, the kernels of every row threaded through
 * one cursor into the beam data, and the finished maps in ions per square centimetre.
 */
module FluenceMap {
  import opened Wrappers
  import opened NumPy
  import opened Kernel
  import opened Transit
  import opened Rows
  import opened Common

  /** The run-wide record of an irradiation (one row of irrad_data). */
  datatype IrradData = IrradData(
    beamFwhmX: real, beamFwhmY: real,
    scanAreaStartX: real, scanAreaStartY: real, scanAreaStopX: real, scanAreaStopY: real,
    dutRectStartX: real, dutRectStartY: real, dutRectStopX: real, dutRectStopY: real)

  /** The ratio of the full width at half maximum of a Gaussian to its sigma. */
  const FwhmPerSigma: real := 2.3548

  /** From ions per square millimetre to ions per square centimetre. */
  const PerSquareCentimetre: real := 100.0

  /** The bin edges in scan direction, from 0 over the scan area's width. */
  function MapEdgesX(irrad: IrradData, binsX: nat): (r: seq<real>)
    ensures |r| == binsX + 1
  {
    Linspace(0.0, Abs(irrad.scanAreaStopX - irrad.scanAreaStartX), binsX + 1)
  }

  /** The bin edges in row direction, from 0 over the scan area's height. */
  function MapEdgesY(irrad: IrradData, binsY: nat): (r: seq<real>)
    ensures |r| == binsY + 1
  {
    Linspace(0.0, Abs(irrad.scanAreaStartY - irrad.scanAreaStopY), binsY + 1)
  }

  /** What the rows of one map share: bins, beam sigmas, the y offset of row 0 and the x edges. */
  function MapSetup(nm: Numerics, irrad: IrradData, binsY: nat, binsX: nat): (s: Setup)
    requires irrad.beamFwhmX > 0.0 && irrad.beamFwhmY > 0.0 && binsX >= 1
    ensures ValidSetup(s)
    ensures |s.kernel.centersX| == binsX && |s.kernel.centersY| == binsY
  {
    var edgesX := MapEdgesX(irrad, binsX);
    LinspaceSorted(0.0, Abs(irrad.scanAreaStopX - irrad.scanAreaStartX), binsX + 1);
    var kernel := Profile(nm, Midpoints(edgesX), Midpoints(MapEdgesY(irrad, binsY)),
                          irrad.beamFwhmX / FwhmPerSigma, irrad.beamFwhmY / FwhmPerSigma, 6.0, false);
    Setup(kernel, edgesX, irrad.scanAreaStartY, irrad.scanAreaStartX, irrad.scanAreaStopX)
  }

  /** Every row can be crossed with a speed profile that fits the scan area's bins. */
  predicate RowsFit(irrad: IrradData, binsX: nat, rows: seq<RowRecord>) {
    forall k :: 0 <= k < |rows| ==> RampFits(MapEdgesX(irrad, binsX), rows[k].scanSpeed, rows[k].scanAccel)
  }

  /** The kernels of the rows so far and the cursor into the beam data after them. */
  datatype Progress = Progress(deposits: seq<Deposit>, cursor: nat)

  /** The rows processed in order, each starting at the cursor the previous one returned. */
  function Reconstruct(s: Setup, rows: seq<RowRecord>, beam: seq<BeamSample>): Result<Progress, FluenceError>
    requires ValidSetup(s)
    requires forall k :: 0 <= k < |rows| ==> RampFits(s.edgesX, rows[k].scanSpeed, rows[k].scanAccel)
  {
    if |rows| == 0 then Success(Progress([], 0))
    else
      var before :- Reconstruct(s, rows[..|rows| - 1], beam);
      var row := rows[|rows| - 1];
      var ds :- RowDeposits(s, row, beam, before.cursor);
      Success(Progress(before.deposits + ds, NextCursor(beam, before.cursor, row)))
  }

  /** One more row: the reconstruction so far followed by that row. */
  lemma ReconstructStep(s: Setup, rows: seq<RowRecord>, beam: seq<BeamSample>, i: nat)
    requires ValidSetup(s) && i < |rows|
    requires forall k :: 0 <= k < |rows| ==> RampFits(s.edgesX, rows[k].scanSpeed, rows[k].scanAccel)
    requires Reconstruct(s, rows[..i], beam).Success?
    ensures var before := Reconstruct(s, rows[..i], beam).value;
      var ds := RowDeposits(s, rows[i], beam, before.cursor);
      Reconstruct(s, rows[..i + 1], beam)
        == if ds.Success? then Success(Progress(before.deposits + ds.value, NextCursor(beam, before.cursor, rows[i])))
           else Failure(ds.error)
  {
    assert rows[..i + 1][..i] == rows[..i];
  }

  /** With time-ordered samples the cursor never leaves the beam data. */
  lemma {:induction false} ReconstructCursorInBeam(s: Setup, rows: seq<RowRecord>, beam: seq<BeamSample>)
    requires ValidSetup(s) && Sorted(Timestamps(beam))
    requires forall k :: 0 <= k < |rows| ==> RampFits(s.edgesX, rows[k].scanSpeed, rows[k].scanAccel)
    requires Reconstruct(s, rows, beam).Success?
    ensures Reconstruct(s, rows, beam).value.cursor <= |beam|
  {
    if |rows| > 0 {
      var init := rows[..|rows| - 1];
      assert forall k :: 0 <= k < |init| ==> init[k] == rows[k];
      ReconstructCursorInBeam(s, init, beam);
      NextCursorSplits(beam, Reconstruct(s, init, beam).value.cursor, rows[|rows| - 1]);
    }
  }

  /** Later rows only append: the rows before i left their kernels as a prefix, and the cursor
      never moves back. */
  lemma {:induction false} ReconstructPrefix(s: Setup, rows: seq<RowRecord>, beam: seq<BeamSample>, i: nat)
    requires ValidSetup(s) && i <= |rows|
    requires forall k :: 0 <= k < |rows| ==> RampFits(s.edgesX, rows[k].scanSpeed, rows[k].scanAccel)
    requires Reconstruct(s, rows, beam).Success?
    ensures Reconstruct(s, rows[..i], beam).Success?
    ensures Reconstruct(s, rows[..i], beam).value.deposits <= Reconstruct(s, rows, beam).value.deposits
    ensures Reconstruct(s, rows[..i], beam).value.cursor <= Reconstruct(s, rows, beam).value.cursor
    decreases |rows|
  {
    if i == |rows| {
      assert rows[..i] == rows;
    } else {
      var init := rows[..|rows| - 1];
      assert forall k :: 0 <= k < |init| ==> init[k] == rows[k];
      TakeTake(rows, |rows| - 1, i);
      ReconstructPrefix(s, init, beam, i);
      var mid := Reconstruct(s, init, beam).value;
      var ds := RowDeposits(s, rows[|rows| - 1], beam, mid.cursor).value;
      assert Reconstruct(s, rows, beam).value.deposits == mid.deposits + ds;
    }
  }

  /** A grid of zeros. */
  function ZeroGrid(rows: nat, cols: nat): (g: Grid)
    ensures Shaped(g, rows, cols)
  {
    seq(rows, j => seq(cols, i => 0.0))
  }

  lemma ZeroCells(a: array2<real>)
    requires forall j, i :: 0 <= j < a.Length0 && 0 <= i < a.Length1 ==> a[j, i] == 0.0
    ensures Cells(a) == ZeroGrid(a.Length0, a.Length1)
  {
    forall j | 0 <= j < a.Length0
      ensures Cells(a)[j] == ZeroGrid(a.Length0, a.Length1)[j]
    {
    }
  }

  /** The finished cell: ions per square centimetre, the error after its square root. */
  function Finished(nm: Numerics, x: real, layer: Layer): real {
    match layer
    case Value => PerSquareCentimetre * x
    case Error => PerSquareCentimetre * Sqrt(nm, x)
  }

  /** The finished grid. */
  function FinishedGrid(nm: Numerics, g: Grid, layer: Layer): (r: Grid)
    ensures |r| == |g| && forall j :: 0 <= j < |g| ==> |r[j]| == |g[j]|
  {
    seq(|g|, j requires 0 <= j < |g| =>
      seq(|g[j]|, i requires 0 <= i < |g[j]| => Finished(nm, g[j][i], layer)))
  }

  /** The fluence map and its error map generate_fluence_map returns. */
  function FluenceMaps(nm: Numerics, irrad: IrradData, binsY: nat, binsX: nat,
                       rows: seq<RowRecord>, beam: seq<BeamSample>): Result<(Grid, Grid), FluenceError>
    requires irrad.beamFwhmX > 0.0 && irrad.beamFwhmY > 0.0 && binsX >= 1
    requires RowsFit(irrad, binsX, rows)
  {
    if |rows| == 0 then Failure(NoRows)
    else
      var s := MapSetup(nm, irrad, binsY, binsX);
      var p :- Reconstruct(s, rows, beam);
      var zero := ZeroGrid(binsY, binsX);
      Success((FinishedGrid(nm, DepositedAll(zero, s.kernel, p.deposits, Value), Value),
               FinishedGrid(nm, DepositedAll(zero, s.kernel, p.deposits, Error), Error)))
  }

  /** The maps of at least one row: the finished grids of the reconstruction, or its error. */
  lemma FluenceMapsOfRows(nm: Numerics, irrad: IrradData, binsY: nat, binsX: nat,
                          rows: seq<RowRecord>, beam: seq<BeamSample>)
    requires irrad.beamFwhmX > 0.0 && irrad.beamFwhmY > 0.0 && binsX >= 1
    requires RowsFit(irrad, binsX, rows) && |rows| > 0
    ensures var s := MapSetup(nm, irrad, binsY, binsX);
      var p := Reconstruct(s, rows, beam);
      var zero := ZeroGrid(binsY, binsX);
      FluenceMaps(nm, irrad, binsY, binsX, rows, beam)
        == if p.Failure? then Failure(p.error)
           else Success((FinishedGrid(nm, DepositedAll(zero, s.kernel, p.value.deposits, Value), Value),
                         FinishedGrid(nm, DepositedAll(zero, s.kernel, p.value.deposits, Error), Error)))
  {
  }

  /**
   * The squared errors summed before the square root are never negative, so with a valid
   * sqrt no cell of the error map is negative.
   */
  lemma ErrorMapNonNegative(nm: Numerics, irrad: IrradData, binsY: nat, binsX: nat,
                            rows: seq<RowRecord>, beam: seq<BeamSample>, j: nat, i: nat)
    requires irrad.beamFwhmX > 0.0 && irrad.beamFwhmY > 0.0 && binsX >= 1
    requires RowsFit(irrad, binsX, rows) && ValidNumerics(nm)
    requires FluenceMaps(nm, irrad, binsY, binsX, rows, beam).Success?
    requires j < binsY && i < binsX
    ensures FluenceMaps(nm, irrad, binsY, binsX, rows, beam).value.1[j][i] >= 0.0
  {
    var s := MapSetup(nm, irrad, binsY, binsX);
    var p := Reconstruct(s, rows, beam).value;
    var zero := ZeroGrid(binsY, binsX);
    ErrorNeverDecreasesAll(zero, s.kernel, p.deposits, j, i);
    assert DepositedAll(zero, s.kernel, p.deposits, Error)[j][i] >= 0.0;
  }

  /**
   * Builds the bins, fills both grids row by row, then finishes them: square root of the
   * error grid, and both scaled to ions per square centimetre. Raises for empty scan data
   * and for the first row that raises.
   */
  method GenerateFluenceMap(nm: Numerics, beam: seq<BeamSample>, rows: seq<RowRecord>, irrad: IrradData,
                            binsY: nat, binsX: nat)
    returns (status: Outcome<FluenceError>, fluence: array2<real>, fluenceError: array2<real>,
             centersX: seq<real>, centersY: seq<real>)
    requires irrad.beamFwhmX > 0.0 && irrad.beamFwhmY > 0.0 && binsX >= 1
    requires RowsFit(irrad, binsX, rows)
    requires Sorted(Timestamps(beam))
    ensures status.Pass? <==> FluenceMaps(nm, irrad, binsY, binsX, rows, beam).Success?
    ensures status.Fail? ==> status.error == FluenceMaps(nm, irrad, binsY, binsX, rows, beam).error
    ensures status.Pass? ==>
      && Cells(fluence) == FluenceMaps(nm, irrad, binsY, binsX, rows, beam).value.0
      && Cells(fluenceError) == FluenceMaps(nm, irrad, binsY, binsX, rows, beam).value.1
      && centersX == Midpoints(MapEdgesX(irrad, binsX)) && centersY == Midpoints(MapEdgesY(irrad, binsY))
  {
    fluence := new real[0, 0];
    fluenceError := new real[0, 0];
    centersX, centersY := [], [];
    if |rows| == 0 {
      return Fail(NoRows), fluence, fluenceError, centersX, centersY;
    }
    var s := MapSetup(nm, irrad, binsY, binsX);
    fluence := new real[binsY, binsX]((j, i) => 0.0);
    fluenceError := new real[binsY, binsX]((j, i) => 0.0);
    ZeroCells(fluence);
    ZeroCells(fluenceError);
    var transitTimes := new real[binsX](_ => 0.0);
    var r := FillGrids(fluence, fluenceError, transitTimes, s, rows, beam);
    FluenceMapsOfRows(nm, irrad, binsY, binsX, rows, beam);
    if r.Failure? {
      return Fail(r.error), fluence, fluenceError, centersX, centersY;
    }
    FinishGrids(fluence, fluenceError, nm);
    centersX, centersY := s.kernel.centersX, s.kernel.centersY;
    status := Pass;
  }

  /** The row loop: threads the cursor through the rows and stops at the first that raises. */
  method FillGrids(m: array2<real>, e: array2<real>, tt: array<real>, s: Setup, rows: seq<RowRecord>,
                   beam: seq<BeamSample>)
    returns (r: Result<nat, FluenceError>)
    requires ValidSetup(s)
    requires forall k :: 0 <= k < |rows| ==> RampFits(s.edgesX, rows[k].scanSpeed, rows[k].scanAccel)
    requires Sorted(Timestamps(beam))
    requires tt.Length == |s.edgesX| - 1
    requires m != e && e.Length0 == m.Length0 && e.Length1 == m.Length1
    requires m.Length0 <= |s.kernel.centersY| && m.Length1 <= |s.kernel.centersX|
    modifies m, e, tt
    ensures r.Success? <==> Reconstruct(s, rows, beam).Success?
    ensures r.Failure? ==> r.error == Reconstruct(s, rows, beam).error
    ensures r.Success? ==>
      && r.value == Reconstruct(s, rows, beam).value.cursor
      && Cells(m) == DepositedAll(old(Cells(m)), s.kernel, Reconstruct(s, rows, beam).value.deposits, Value)
      && Cells(e) == DepositedAll(old(Cells(e)), s.kernel, Reconstruct(s, rows, beam).value.deposits, Error)
  {
    ghost var m0, e0 := Cells(m), Cells(e);
    var cursor := 0;
    ghost var applied: seq<Deposit> := [];
    assert rows[..0] == [];
    assert DepositedAll(m0, s.kernel, [], Value) == m0;
    assert DepositedAll(e0, s.kernel, [], Error) == e0;
    var i := 0;
    while i < |rows|
      invariant 0 <= i <= |rows|
      invariant Reconstruct(s, rows[..i], beam) == Success(Progress(applied, cursor))
      invariant Cells(m) == DepositedAll(m0, s.kernel, applied, Value)
      invariant Cells(e) == DepositedAll(e0, s.kernel, applied, Error)
    {
      ReconstructStep(s, rows, beam, i);
      ghost var m1, e1 := Cells(m), Cells(e);
      var next := ProcessRow(m, e, tt, s, rows[i], beam, cursor);
      if next.Failure? {
        assert rows[..|rows|] == rows;
        FailureIsFinal(s, rows, beam, i + 1);
        return Failure(next.error);
      }
      DepositedAllAppend(m0, s.kernel, applied, RowDeposits(s, rows[i], beam, cursor).value, Value);
      DepositedAllAppend(e0, s.kernel, applied, RowDeposits(s, rows[i], beam, cursor).value, Error);
      applied := applied + RowDeposits(s, rows[i], beam, cursor).value;
      cursor := next.value;
      i := i + 1;
    }
    assert rows[..|rows|] == rows;
    r := Success(cursor);
  }

  /** Once a row raises, so does every longer run of rows. */
  lemma {:induction false} FailureIsFinal(s: Setup, rows: seq<RowRecord>, beam: seq<BeamSample>, i: nat)
    requires ValidSetup(s) && i <= |rows|
    requires forall k :: 0 <= k < |rows| ==> RampFits(s.edgesX, rows[k].scanSpeed, rows[k].scanAccel)
    requires Reconstruct(s, rows[..i], beam).Failure?
    ensures Reconstruct(s, rows, beam) == Reconstruct(s, rows[..i], beam)
    decreases |rows| - i
  {
    if i < |rows| {
      assert rows[..i + 1][..i] == rows[..i];
      FailureIsFinal(s, rows, beam, i + 1);
    } else {
      assert rows[..i] == rows;
    }
  }

  /** np.sqrt of the error grid, then both grids times 100, cell by cell. */
  method FinishGrids(m: array2<real>, e: array2<real>, nm: Numerics)
    requires m != e && e.Length0 == m.Length0 && e.Length1 == m.Length1
    modifies m, e
    ensures Cells(m) == FinishedGrid(nm, old(Cells(m)), Value)
    ensures Cells(e) == FinishedGrid(nm, old(Cells(e)), Error)
  {
    ghost var m0, e0 := Cells(m), Cells(e);
    var j := 0;
    while j < m.Length0
      invariant 0 <= j <= m.Length0
      invariant forall jj, ii :: 0 <= jj < j && 0 <= ii < m.Length1 ==>
        m[jj, ii] == Finished(nm, old(m[jj, ii]), Value) && e[jj, ii] == Finished(nm, old(e[jj, ii]), Error)
      invariant forall jj, ii :: j <= jj < m.Length0 && 0 <= ii < m.Length1 ==>
        m[jj, ii] == old(m[jj, ii]) && e[jj, ii] == old(e[jj, ii])
    {
      FinishRow(m, e, nm, j);
      j := j + 1;
    }
    forall jj | 0 <= jj < m.Length0
      ensures Cells(m)[jj] == FinishedGrid(nm, m0, Value)[jj]
      ensures Cells(e)[jj] == FinishedGrid(nm, e0, Error)[jj]
    {
    }
  }

  method FinishRow(m: array2<real>, e: array2<real>, nm: Numerics, j: nat)
    requires m != e && e.Length0 == m.Length0 && e.Length1 == m.Length1 && j < m.Length0
    modifies m, e
    ensures forall ii :: 0 <= ii < m.Length1 ==>
      m[j, ii] == Finished(nm, old(m[j, ii]), Value) && e[j, ii] == Finished(nm, old(e[j, ii]), Error)
    ensures forall jj, ii :: 0 <= jj < m.Length0 && jj != j && 0 <= ii < m.Length1 ==>
      m[jj, ii] == old(m[jj, ii]) && e[jj, ii] == old(e[jj, ii])
  {
    var i := 0;
    while i < m.Length1
      invariant 0 <= i <= m.Length1
      invariant forall ii :: 0 <= ii < i ==>
        m[j, ii] == Finished(nm, old(m[j, ii]), Value) && e[j, ii] == Finished(nm, old(e[j, ii]), Error)
      invariant forall ii :: i <= ii < m.Length1 ==> m[j, ii] == old(m[j, ii]) && e[j, ii] == old(e[j, ii])
      invariant forall jj, ii :: 0 <= jj < m.Length0 && jj != j && 0 <= ii < m.Length1 ==>
        m[jj, ii] == old(m[jj, ii]) && e[jj, ii] == old(e[jj, ii])
    {
      e[j, i] := PerSquareCentimetre * Sqrt(nm, e[j, i]);
      m[j, i] := PerSquareCentimetre * m[j, i];
      i := i + 1;
    }
  }
}
