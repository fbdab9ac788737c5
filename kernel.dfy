/**
 * Deposition of one Gaussian beam kernel onto the fluence grid and its error grid
 * (apply_gauss_2d_kernel). A grid is rows (y) of cells (x); `Cells` is the value of
 * an `array2` as such a grid, and `Deposited` / `DepositedAll` say what a sequence of
 * kernel applications leaves in it.
 */
module Kernel {
  import opened Wrappers
  import opened NumPy
  import opened Gauss

  /** The ValueErrors the fluence analysis raises. */
  datatype FluenceError =
    | SkipSigmasTooSmall   // apply_gauss_2d_kernel with skip_sigmas < 3
    | EmptyBeamData        // np.interp over an empty row slice
    | RowOffEdge           // row_start_x near neither edge of the scan area
    | NoRows               // np.max over an empty scan_data
    | MissingGeometry      // extract_dut_map without irrad_data and dut_rectangle
    | BadRectangle         // a centred rectangle that is not of length 2
    | IndexOutOfRange      // indexing past the end of a numpy array

  /** One kernel: the ions it carries, their error, and where it sits. */
  datatype Deposit = Deposit(amplitude: real, amplitudeError: real, muX: real, muY: real)

  /** What every kernel of one fluence map shares: the bins, the beam width and the options. */
  datatype Profile = Profile(nm: Numerics, centersX: seq<real>, centersY: seq<real>,
                             sigmaX: real, sigmaY: real, skipSigmas: real, normalized: bool)

  /** The fluence grid receives the amplitude, the error grid the squared amplitude error. */
  datatype Layer = Value | Error

  type Grid = seq<seq<real>>

  predicate ValidProfile(p: Profile) {
    p.sigmaX > 0.0 && p.sigmaY > 0.0
  }

  /** Every cell of g has a bin centre on both axes. */
  predicate Fits(g: Grid, p: Profile) {
    |g| <= |p.centersY| && forall j :: 0 <= j < |g| ==> |g[j]| <= |p.centersX|
  }

  /** g has `rows` rows of `cols` cells. */
  predicate Shaped(g: Grid, rows: nat, cols: nat) {
    |g| == rows && forall j :: 0 <= j < |g| ==> |g[j]| == cols
  }

  /** The array as a grid of rows. */
  function Cells(a: array2<real>): (g: Grid)
    reads a
    ensures Shaped(g, a.Length0, a.Length1)
  {
    seq(a.Length0, j requires 0 <= j < a.Length0 reads a =>
      seq(a.Length1, i requires 0 <= i < a.Length1 reads a => a[j, i]))
  }

  /** Cell (j, i) is within skip_sigmas standard deviations of the mean on both axes. */
  predicate InWindow(p: Profile, d: Deposit, j: nat, i: nat)
    requires j < |p.centersY| && i < |p.centersX|
  {
    Abs(p.centersY[j] - d.muY) <= p.skipSigmas * p.sigmaY
    && Abs(p.centersX[i] - d.muX) <= p.skipSigmas * p.sigmaX
  }

  function LayerAmplitude(d: Deposit, layer: Layer): real {
    match layer
    case Value => d.amplitude
    case Error => d.amplitudeError * d.amplitudeError
  }

  /** What one kernel adds to cell (j, i) of a layer. */
  function Gain(p: Profile, d: Deposit, layer: Layer, j: nat, i: nat): real
    requires ValidProfile(p) && j < |p.centersY| && i < |p.centersX|
  {
    if InWindow(p, d, j, i) then
      Pdf(p.nm, p.centersX[i], p.centersY[j], d.muX, d.muY, p.sigmaX, p.sigmaY,
          LayerAmplitude(d, layer), p.normalized)
    else 0.0
  }

  /** The grid after one successful kernel application. */
  function Deposited(g: Grid, p: Profile, d: Deposit, layer: Layer): (r: Grid)
    requires ValidProfile(p) && Fits(g, p)
    ensures |r| == |g| && forall j :: 0 <= j < |g| ==> |r[j]| == |g[j]|
  {
    seq(|g|, j requires 0 <= j < |g| =>
      seq(|g[j]|, i requires 0 <= i < |g[j]| => g[j][i] + Gain(p, d, layer, j, i)))
  }

  /** The grid after a sequence of kernels, applied first to last. */
  function DepositedAll(g: Grid, p: Profile, ds: seq<Deposit>, layer: Layer): (r: Grid)
    requires ValidProfile(p) && Fits(g, p)
    ensures |r| == |g| && forall j :: 0 <= j < |g| ==> |r[j]| == |g[j]|
    ensures Fits(r, p)
    decreases |ds|
  {
    if |ds| == 0 then g
    else Deposited(DepositedAll(g, p, ds[..|ds| - 1], layer), p, ds[|ds| - 1], layer)
  }

  // ---------------------------------------------------------------------------
  // The kernel window
  // ---------------------------------------------------------------------------

  /** A cell outside the window keeps its value. */
  lemma OutsideWindowUnchanged(g: Grid, p: Profile, d: Deposit, layer: Layer, j: nat, i: nat)
    requires ValidProfile(p) && Fits(g, p)
    requires j < |g| && i < |g[j]|
    requires !InWindow(p, d, j, i)
    ensures Deposited(g, p, d, layer)[j][i] == g[j][i]
  {
  }

  /**
   * Conversely, a kernel with non-zero amplitude changes every cell inside its window:
   * a cell changes exactly when it is in the window.
   */
  lemma ChangedIffInWindow(g: Grid, p: Profile, d: Deposit, layer: Layer, j: nat, i: nat)
    requires ValidProfile(p) && Fits(g, p) && ValidNumerics(p.nm)
    requires j < |g| && i < |g[j]|
    requires LayerAmplitude(d, layer) != 0.0
    ensures Deposited(g, p, d, layer)[j][i] != g[j][i] <==> InWindow(p, d, j, i)
  {
    PdfSign(p.nm, p.centersX[i], p.centersY[j], d.muX, d.muY, p.sigmaX, p.sigmaY,
            LayerAmplitude(d, layer), p.normalized);
  }

  /** The error grid never decreases: the squared error amplitude times exp is never negative. */
  lemma ErrorNeverDecreases(g: Grid, p: Profile, d: Deposit, j: nat, i: nat)
    requires ValidProfile(p) && Fits(g, p) && ValidNumerics(p.nm)
    requires j < |g| && i < |g[j]|
    ensures Deposited(g, p, d, Error)[j][i] >= g[j][i]
  {
    assert LayerAmplitude(d, Error) >= 0.0;
    PdfSign(p.nm, p.centersX[i], p.centersY[j], d.muX, d.muY, p.sigmaX, p.sigmaY,
            LayerAmplitude(d, Error), p.normalized);
  }

  /** The same holds for any number of kernels. */
  lemma {:induction false} ErrorNeverDecreasesAll(g: Grid, p: Profile, ds: seq<Deposit>, j: nat, i: nat)
    requires ValidProfile(p) && Fits(g, p) && ValidNumerics(p.nm)
    requires j < |g| && i < |g[j]|
    ensures DepositedAll(g, p, ds, Error)[j][i] >= g[j][i]
    decreases |ds|
  {
    if |ds| > 0 {
      var prev := DepositedAll(g, p, ds[..|ds| - 1], Error);
      ErrorNeverDecreasesAll(g, p, ds[..|ds| - 1], j, i);
      ErrorNeverDecreases(prev, p, ds[|ds| - 1], j, i);
    }
  }

  /** Kernels add up, so the order in which two are applied does not matter. */
  lemma DepositsCommute(g: Grid, p: Profile, d1: Deposit, d2: Deposit, layer: Layer)
    requires ValidProfile(p) && Fits(g, p)
    ensures Deposited(Deposited(g, p, d1, layer), p, d2, layer)
         == Deposited(Deposited(g, p, d2, layer), p, d1, layer)
  {
    var a := Deposited(Deposited(g, p, d1, layer), p, d2, layer);
    var b := Deposited(Deposited(g, p, d2, layer), p, d1, layer);
    assert forall j :: 0 <= j < |g| ==> a[j] == b[j];
  }

  /** Depositing a + b is depositing a and then b. */
  lemma {:induction false} DepositedAllAppend(g: Grid, p: Profile, a: seq<Deposit>, b: seq<Deposit>, layer: Layer)
    requires ValidProfile(p) && Fits(g, p)
    ensures DepositedAll(g, p, a + b, layer) == DepositedAll(DepositedAll(g, p, a, layer), p, b, layer)
    decreases |b|
  {
    if |b| == 0 {
      assert a + b == a;
    } else {
      assert (a + b)[..|a + b| - 1] == a + b[..|b| - 1];
      assert (a + b)[|a + b| - 1] == b[|b| - 1];
      DepositedAllAppend(g, p, a, b[..|b| - 1], layer);
    }
  }

  // ---------------------------------------------------------------------------
  // apply_gauss_2d_kernel
  // ---------------------------------------------------------------------------

  /**
   * Adds one kernel to the fluence grid `m` and, with the squared error amplitude, to the
   * error grid `e`, skipping every cell outside the window. Refuses skip_sigmas below 3
   * before touching any cell.
   */
  method ApplyGauss2dKernel(m: array2<real>, e: array2<real>, p: Profile, d: Deposit)
    returns (status: Outcome<FluenceError>)
    requires m != e && e.Length0 == m.Length0 && e.Length1 == m.Length1
    requires m.Length0 <= |p.centersY| && m.Length1 <= |p.centersX|
    requires ValidProfile(p)
    modifies m, e
    ensures status.Fail? <==> p.skipSigmas < 3.0
    ensures status.Fail? ==> status.error == SkipSigmasTooSmall
    ensures status.Fail? ==> Cells(m) == old(Cells(m)) && Cells(e) == old(Cells(e))
    ensures status.Pass? ==> Cells(m) == Deposited(old(Cells(m)), p, d, Value)
    ensures status.Pass? ==> Cells(e) == Deposited(old(Cells(e)), p, d, Error)
  {
    if p.skipSigmas < 3.0 {
      return Fail(SkipSigmasTooSmall);
    }
    DepositRows(m, e, p, d);
    ghost var m0, e0 := old(Cells(m)), old(Cells(e));
    forall jj | 0 <= jj < m.Length0
      ensures Cells(m)[jj] == Deposited(m0, p, d, Value)[jj]
      ensures Cells(e)[jj] == Deposited(e0, p, d, Error)[jj]
    {
    }
    status := Pass;
  }

  /** The y loop of apply_gauss_2d_kernel: every row whose centre is inside the window gets its share. */
  method DepositRows(m: array2<real>, e: array2<real>, p: Profile, d: Deposit)
    requires m != e && e.Length0 == m.Length0 && e.Length1 == m.Length1
    requires m.Length0 <= |p.centersY| && m.Length1 <= |p.centersX|
    requires ValidProfile(p)
    modifies m, e
    ensures forall jj, ii :: 0 <= jj < m.Length0 && 0 <= ii < m.Length1 ==>
      m[jj, ii] == old(m[jj, ii]) + Gain(p, d, Value, jj, ii)
      && e[jj, ii] == old(e[jj, ii]) + Gain(p, d, Error, jj, ii)
  {
    var j := 0;
    while j < m.Length0
      invariant 0 <= j <= m.Length0
      invariant forall jj, ii :: 0 <= jj < j && 0 <= ii < m.Length1 ==>
        m[jj, ii] == old(m[jj, ii]) + Gain(p, d, Value, jj, ii)
        && e[jj, ii] == old(e[jj, ii]) + Gain(p, d, Error, jj, ii)
      invariant forall jj, ii :: j <= jj < m.Length0 && 0 <= ii < m.Length1 ==>
        m[jj, ii] == old(m[jj, ii]) && e[jj, ii] == old(e[jj, ii])
    {
      if Abs(p.centersY[j] - d.muY) <= p.skipSigmas * p.sigmaY {
        DepositRow(m, e, p, d, j);
      }
      j := j + 1;
    }
  }

  /** The x loop of apply_gauss_2d_kernel for row j, whose y centre is inside the window. */
  method DepositRow(m: array2<real>, e: array2<real>, p: Profile, d: Deposit, j: nat)
    requires m != e && e.Length0 == m.Length0 && e.Length1 == m.Length1
    requires j < m.Length0 <= |p.centersY| && m.Length1 <= |p.centersX|
    requires ValidProfile(p)
    requires Abs(p.centersY[j] - d.muY) <= p.skipSigmas * p.sigmaY
    modifies m, e
    ensures forall ii :: 0 <= ii < m.Length1 ==> m[j, ii] == old(m[j, ii]) + Gain(p, d, Value, j, ii)
    ensures forall ii :: 0 <= ii < m.Length1 ==> e[j, ii] == old(e[j, ii]) + Gain(p, d, Error, j, ii)
    ensures forall jj, ii :: 0 <= jj < m.Length0 && jj != j && 0 <= ii < m.Length1 ==> m[jj, ii] == old(m[jj, ii])
    ensures forall jj, ii :: 0 <= jj < m.Length0 && jj != j && 0 <= ii < m.Length1 ==> e[jj, ii] == old(e[jj, ii])
  {
    var i := 0;
    while i < m.Length1
      invariant 0 <= i <= m.Length1
      invariant forall ii :: 0 <= ii < i ==> m[j, ii] == old(m[j, ii]) + Gain(p, d, Value, j, ii)
      invariant forall ii :: 0 <= ii < i ==> e[j, ii] == old(e[j, ii]) + Gain(p, d, Error, j, ii)
      invariant forall ii :: i <= ii < m.Length1 ==> m[j, ii] == old(m[j, ii]) && e[j, ii] == old(e[j, ii])
      invariant forall jj, ii :: 0 <= jj < m.Length0 && jj != j && 0 <= ii < m.Length1 ==> m[jj, ii] == old(m[jj, ii])
      invariant forall jj, ii :: 0 <= jj < m.Length0 && jj != j && 0 <= ii < m.Length1 ==> e[jj, ii] == old(e[jj, ii])
    {
      DepositCell(m, e, p, d, j, i);
      i := i + 1;
    }
  }

  /** One step of the x loop: the cell (j, i) of a row inside the window. */
  method DepositCell(m: array2<real>, e: array2<real>, p: Profile, d: Deposit, j: nat, i: nat)
    requires m != e && e.Length0 == m.Length0 && e.Length1 == m.Length1
    requires j < m.Length0 <= |p.centersY| && i < m.Length1 <= |p.centersX|
    requires ValidProfile(p)
    requires Abs(p.centersY[j] - d.muY) <= p.skipSigmas * p.sigmaY
    modifies m, e
    ensures m[j, i] == old(m[j, i]) + Gain(p, d, Value, j, i)
    ensures e[j, i] == old(e[j, i]) + Gain(p, d, Error, j, i)
    ensures forall jj, ii :: 0 <= jj < m.Length0 && 0 <= ii < m.Length1 && (jj != j || ii != i) ==>
      m[jj, ii] == old(m[jj, ii]) && e[jj, ii] == old(e[jj, ii])
  {
    var x, y := p.centersX[i], p.centersY[j];
    if Abs(x - d.muX) <= p.skipSigmas * p.sigmaX {
      var errorAmplitudeSquared := d.amplitudeError * d.amplitudeError;
      m[j, i] := m[j, i] + Pdf(p.nm, x, y, d.muX, d.muY, p.sigmaX, p.sigmaY, d.amplitude, p.normalized);
      e[j, i] := e[j, i] + Pdf(p.nm, x, y, d.muX, d.muY, p.sigmaX, p.sigmaY, errorAmplitudeSquared, p.normalized);
    }
  }
}
