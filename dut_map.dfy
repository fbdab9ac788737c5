/**
 * extract_dut_map: crops the region of the device under test (DUT) out of a fluence map,
 * using bin edges rebuilt from the bin centres and left/right searchsorted on them.
 */
module DutMap {
  import opened Wrappers
  import opened NumPy
  import opened Kernel
  import opened FluenceMap

  /** The cropped map with the bin centres of its columns and rows. */
  datatype Crop = Crop(grid: Grid, centersX: seq<real>, centersY: seq<real>)

  /** The index ranges [xMin, xMax) of columns and [yMin, yMax) of rows that are kept. */
  datatype Window = Window(xMin: nat, xMax: nat, yMin: nat, yMax: nat)

  /** The extent of the scan area rebuilt from the centres: last centre plus half a bin. */
  function ScanExtent(centers: seq<real>): real
    requires |centers| >= 2
  {
    centers[|centers| - 1] + (centers[1] - centers[0]) / 2.0
  }

  /** The bin edges rebuilt from the centres. */
  function CropEdges(centers: seq<real>): (r: seq<real>)
    requires |centers| >= 2
    ensures |r| == |centers| + 1
  {
    Linspace(0.0, ScanExtent(centers), |centers| + 1)
  }

  /** get_dut_rect: the rectangle of widths dr[0] x dr[1] centred in the scan area. */
  function CenteredRect(sax: real, say: real, dr: seq<real>): (r: seq<real>)
    requires |dr| >= 2
    ensures |r| == 4
  {
    [(sax - dr[0]) / 2.0, (say - dr[1]) / 2.0, (sax + dr[0]) / 2.0, (say + dr[1]) / 2.0]
  }

  /** The centred rectangle has the requested widths and is centred in the scan area. */
  lemma CenteredRectGeometry(sax: real, say: real, dr: seq<real>)
    requires |dr| >= 2
    ensures CenteredRect(sax, say, dr)[2] - CenteredRect(sax, say, dr)[0] == dr[0]
    ensures CenteredRect(sax, say, dr)[3] - CenteredRect(sax, say, dr)[1] == dr[1]
    ensures (CenteredRect(sax, say, dr)[0] + CenteredRect(sax, say, dr)[2]) / 2.0 == sax / 2.0
    ensures (CenteredRect(sax, say, dr)[1] + CenteredRect(sax, say, dr)[3]) / 2.0 == say / 2.0
  {
  }

  /** The DUT rectangle of the irradiation record, relative to the scan area's start. */
  function IrradRect(irrad: IrradData): seq<real> {
    [irrad.dutRectStartX - irrad.scanAreaStartX, irrad.dutRectStartY - irrad.scanAreaStartY,
     irrad.dutRectStopX - irrad.scanAreaStartX, irrad.dutRectStopY - irrad.scanAreaStartY]
  }

  /**
   * The rectangle (x_min, y_min, x_max, y_max) that is cropped, as the source chooses it:
   * the irradiation record first; else the given rectangle, which always goes through
   * get_dut_rect (so even a four-value rectangle is read as two widths).
   */
  function DutRectangle(irrad: Option<IrradData>, rect: Option<seq<real>>, centerSymm: bool,
                        sax: real, say: real): (r: Result<seq<real>, FluenceError>)
    requires irrad.Some? || rect.Some?
    ensures r.Success? ==> |r.value| == 4
  {
    if irrad.Some? then Success(IrradRect(irrad.value))
    else if centerSymm && |rect.value| != 2 then Failure(BadRectangle)
    else if |rect.value| < 2 then Failure(IndexOutOfRange)
    else
      var r := CenteredRect(sax, say, rect.value);
      if !centerSymm && |r| != 4 then Failure(BadRectangle) else Success(r)
  }

  /**
   * The length check for rectangles that are not centred never fires: without centring
   * the only error is a rectangle too short to index.
   */
  lemma CornerCheckNeverFires(rect: seq<real>, sax: real, say: real)
    ensures DutRectangle(None, Some(rect), false, sax, say).Failure?
        <==> |rect| < 2
    ensures DutRectangle(None, Some(rect), false, sax, say).Failure? ==>
      DutRectangle(None, Some(rect), false, sax, say).error == IndexOutOfRange
  {
  }

  /** The kept index ranges: from the left insertion point of the low corner to the right one of the high corner. */
  function DutWindow(centersX: seq<real>, centersY: seq<real>, irrad: Option<IrradData>,
                     rect: Option<seq<real>>, centerSymm: bool): (r: Result<Window, FluenceError>)
    ensures r == Failure(MissingGeometry) <==> irrad.None? && rect.None?
  {
    if irrad.None? && rect.None? then Failure(MissingGeometry)
    else if |centersX| < 2 || |centersY| < 2 then Failure(IndexOutOfRange)
    else
      var edgesX := CropEdges(centersX);
      var edgesY := CropEdges(centersY);
      var r :- DutRectangle(irrad, rect, centerSymm, ScanExtent(centersX), ScanExtent(centersY));
      Success(Window(LeftIdx(edgesX, r[0]), RightIdx(edgesX, r[2]), LeftIdx(edgesY, r[1]), RightIdx(edgesY, r[3])))
  }

  /** fluence_map[y_min:y_max, x_min:x_max]. */
  function CropGrid(g: Grid, w: Window): (r: Grid)
    ensures |r| == |PySlice(g, w.yMin, w.yMax)|
    ensures forall j :: 0 <= j < |r| ==> r[j] == PySlice(g[w.yMin + j], w.xMin, w.xMax)
  {
    var rows := PySlice(g, w.yMin, w.yMax);
    seq(|rows|, j requires 0 <= j < |rows| => PySlice(rows[j], w.xMin, w.xMax))
  }

  /** The DUT map and its bin centres, or the error the source raises. */
  function ExtractDutMap(grid: Grid, centersX: seq<real>, centersY: seq<real>, irrad: Option<IrradData>,
                         rect: Option<seq<real>>, centerSymm: bool): (r: Result<Crop, FluenceError>)
    ensures r.Success? <==> DutWindow(centersX, centersY, irrad, rect, centerSymm).Success?
    ensures r.Failure? ==> r.error == DutWindow(centersX, centersY, irrad, rect, centerSymm).error
  {
    var w :- DutWindow(centersX, centersY, irrad, rect, centerSymm);
    Success(Crop(CropGrid(grid, w), PySlice(centersX, w.xMin, w.xMax), PySlice(centersY, w.yMin, w.yMax)))
  }

  /** Without a rectangle and without an irradiation record nothing can be cropped. */
  lemma MissingGeometryIff(grid: Grid, centersX: seq<real>, centersY: seq<real>,
                           irrad: Option<IrradData>, rect: Option<seq<real>>, centerSymm: bool)
    ensures ExtractDutMap(grid, centersX, centersY, irrad, rect, centerSymm) == Failure(MissingGeometry)
        <==> irrad.None? && rect.None?
  {
  }

  /** The irradiation record takes priority: the rectangle and centring arguments are then ignored. */
  lemma IrradDataTakesPriority(grid: Grid, centersX: seq<real>, centersY: seq<real>, irrad: IrradData,
                               rect1: Option<seq<real>>, centerSymm1: bool,
                               rect2: Option<seq<real>>, centerSymm2: bool)
    ensures ExtractDutMap(grid, centersX, centersY, Some(irrad), rect1, centerSymm1)
         == ExtractDutMap(grid, centersX, centersY, Some(irrad), rect2, centerSymm2)
  {
  }

  /**
   * The crop c is window w of a map whose columns are centred at cols and rows at rows:
   * it is rectangular, and each of its centres and cells is the one at the window's offset.
   */
  predicate CropMatches(c: Crop, grid: Grid, cols: seq<real>, rows: seq<real>, w: Window) {
    && Shaped(c.grid, |c.centersY|, |c.centersX|)
    && (forall i :: 0 <= i < |c.centersX| ==> w.xMin + i < |cols| && c.centersX[i] == cols[w.xMin + i])
    && (forall j :: 0 <= j < |c.centersY| ==> w.yMin + j < |rows| && c.centersY[j] == rows[w.yMin + j])
    && (forall j, i :: 0 <= j < |c.centersY| && 0 <= i < |c.centersX| ==>
          w.yMin + j < |grid| && w.xMin + i < |grid[w.yMin + j]| &&
          c.grid[j][i] == grid[w.yMin + j][w.xMin + i])
  }

  /** Cropping a |rows| x |cols| map to any window keeps aligned cells, columns and rows. */
  lemma CropWindowAligned(grid: Grid, cols: seq<real>, rows: seq<real>, w: Window)
    requires Shaped(grid, |rows|, |cols|)
    ensures CropMatches(Crop(CropGrid(grid, w), PySlice(cols, w.xMin, w.xMax), PySlice(rows, w.yMin, w.yMax)),
                        grid, cols, rows, w)
  {
    var cg := CropGrid(grid, w);
    forall j | 0 <= j < |cg|
      ensures |cg[j]| == |PySlice(cols, w.xMin, w.xMax)|
    {
      assert |grid[w.yMin + j]| == |cols|;
    }
  }

  /**
   * On a map of |centersY| rows of |centersX| cells the crop has one row per kept y centre
   * and one column per kept x centre, and every kept cell sits at the centres returned for it.
   */
  lemma CropAligned(grid: Grid, centersX: seq<real>, centersY: seq<real>, irrad: Option<IrradData>,
                    rect: Option<seq<real>>, centerSymm: bool)
    requires Shaped(grid, |centersY|, |centersX|)
    requires ExtractDutMap(grid, centersX, centersY, irrad, rect, centerSymm).Success?
    ensures CropMatches(ExtractDutMap(grid, centersX, centersY, irrad, rect, centerSymm).value,
                        grid, centersX, centersY, DutWindow(centersX, centersY, irrad, rect, centerSymm).value)
  {
    var w := DutWindow(centersX, centersY, irrad, rect, centerSymm).value;
    CropWindowAligned(grid, centersX, centersY, w);
  }

  // ---------------------------------------------------------------------------
  // Findings: the rectangle as the documentation describes it
  // ---------------------------------------------------------------------------

  /**
   * A rectangle given by its corners (1, 1, 3, 3) on a 10 x 10 scan area is cropped as the
   * centred 1 x 1 square around (5, 5).
   */
  lemma CornerRectangleReadAsWidths()
    ensures DutRectangle(None, Some([1.0, 1.0, 3.0, 3.0]), false, 10.0, 10.0) == Success([4.5, 4.5, 5.5, 5.5])
  {
  }

  /**
   * The rectangle as documented: (x_width, y_width) centred when centerSymm holds, else the
   * corners (x_min, y_min, x_max, y_max) used as given.
   */
  function DutRectangleIntended(irrad: Option<IrradData>, rect: Option<seq<real>>, centerSymm: bool,
                                sax: real, say: real): (r: Result<seq<real>, FluenceError>)
    requires irrad.Some? || rect.Some?
    ensures r.Success? ==> |r.value| == 4
  {
    if irrad.Some? then Success(IrradRect(irrad.value))
    else if centerSymm then
      if |rect.value| != 2 then Failure(BadRectangle) else Success(CenteredRect(sax, say, rect.value))
    else if |rect.value| != 4 then Failure(BadRectangle)
    else Success(rect.value)
  }

  /**
   * A four-value rectangle is cropped as given, anything else not centred is refused, and
   * the centred and irradiation-record cases agree with the source.
   */
  lemma DutRectangleIntendedKeepsCorners(irrad: Option<IrradData>, rect: Option<seq<real>>, centerSymm: bool,
                                         sax: real, say: real)
    requires irrad.Some? || rect.Some?
    ensures irrad.None? && !centerSymm ==>
      (DutRectangleIntended(irrad, rect, centerSymm, sax, say).Success? <==> |rect.value| == 4)
    ensures irrad.None? && !centerSymm && |rect.value| == 4 ==>
      DutRectangleIntended(irrad, rect, centerSymm, sax, say) == Success(rect.value)
    ensures irrad.Some? || centerSymm ==>
      DutRectangleIntended(irrad, rect, centerSymm, sax, say) == DutRectangle(irrad, rect, centerSymm, sax, say)
  {
  }

  // ---------------------------------------------------------------------------
  // Findings: the column that starts at the high corner
  // ---------------------------------------------------------------------------

  /**
   * Bins of width 1 over [0, 4] and a rectangle ending at x = 3: the right insertion point
   * keeps bin 3, which starts at x = 3 and has no overlap with the rectangle.
   */
  lemma BinAtHighCornerKept()
    ensures var edges := Linspace(0.0, 4.0, 5);
      RightIdx(edges, 3.0) == 4 && edges[3] == 3.0
  {
    var edges := Linspace(0.0, 4.0, 5);
    assert edges == [0.0, 1.0, 2.0, 3.0, 4.0];
    assert edges[1..] == [1.0, 2.0, 3.0, 4.0];
    assert edges[1..][1..] == [2.0, 3.0, 4.0];
    assert edges[1..][1..][1..] == [3.0, 4.0];
    assert edges[1..][1..][1..][1..] == [4.0];
    assert edges[1..][1..][1..][1..][1..] == [];
  }

  /** The kept range of bins on one axis when only bins overlapping [lo, hi] are kept. */
  function BinRangeIntended(edges: seq<real>, lo: real, hi: real): (nat, nat) {
    (LeftIdx(edges, lo), LeftIdx(edges, hi))
  }

  /** Every bin kept by the intended range starts inside [lo, hi): it overlaps the rectangle. */
  lemma BinRangeIntendedOverlaps(edges: seq<real>, lo: real, hi: real)
    requires Sorted(edges)
    ensures var (a, b) := BinRangeIntended(edges, lo, hi);
      forall k :: a <= k < b ==> lo <= edges[k] < hi
  {
    LeftIdxSorted(edges, lo);
  }

  /** The kept index ranges with both corrections. */
  function DutWindowIntended(centersX: seq<real>, centersY: seq<real>, irrad: Option<IrradData>,
                             rect: Option<seq<real>>, centerSymm: bool): (r: Result<Window, FluenceError>)
    ensures r == Failure(MissingGeometry) <==> irrad.None? && rect.None?
  {
    if irrad.None? && rect.None? then Failure(MissingGeometry)
    else if |centersX| < 2 || |centersY| < 2 then Failure(IndexOutOfRange)
    else
      var edgesX := CropEdges(centersX);
      var edgesY := CropEdges(centersY);
      var r :- DutRectangleIntended(irrad, rect, centerSymm, ScanExtent(centersX), ScanExtent(centersY));
      var (xMin, xMax) := BinRangeIntended(edgesX, r[0], r[2]);
      var (yMin, yMax) := BinRangeIntended(edgesY, r[1], r[3]);
      Success(Window(xMin, xMax, yMin, yMax))
  }

  /** The DUT map with both corrections. */
  function ExtractDutMapIntended(grid: Grid, centersX: seq<real>, centersY: seq<real>, irrad: Option<IrradData>,
                                 rect: Option<seq<real>>, centerSymm: bool): (r: Result<Crop, FluenceError>)
    ensures r.Success? <==> DutWindowIntended(centersX, centersY, irrad, rect, centerSymm).Success?
  {
    var w :- DutWindowIntended(centersX, centersY, irrad, rect, centerSymm);
    Success(Crop(CropGrid(grid, w), PySlice(centersX, w.xMin, w.xMax), PySlice(centersY, w.yMin, w.yMax)))
  }

  /**
   * With the corrections, on sorted rebuilt edges, every kept column starts inside
   * [x_min, x_max) and every kept row inside [y_min, y_max) of the rectangle.
   */
  lemma DutWindowIntendedInside(centersX: seq<real>, centersY: seq<real>, irrad: Option<IrradData>,
                                rect: Option<seq<real>>, centerSymm: bool)
    requires |centersX| >= 2 && |centersY| >= 2
    requires Sorted(CropEdges(centersX)) && Sorted(CropEdges(centersY))
    requires DutWindowIntended(centersX, centersY, irrad, rect, centerSymm).Success?
    ensures var w := DutWindowIntended(centersX, centersY, irrad, rect, centerSymm).value;
      var r := DutRectangleIntended(irrad, rect, centerSymm, ScanExtent(centersX), ScanExtent(centersY)).value;
      && (forall k :: w.xMin <= k < w.xMax ==> r[0] <= CropEdges(centersX)[k] < r[2])
      && (forall k :: w.yMin <= k < w.yMax ==> r[1] <= CropEdges(centersY)[k] < r[3])
  {
    var r := DutRectangleIntended(irrad, rect, centerSymm, ScanExtent(centersX), ScanExtent(centersY)).value;
    BinRangeIntendedOverlaps(CropEdges(centersX), r[0], r[2]);
    BinRangeIntendedOverlaps(CropEdges(centersY), r[1], r[3]);
  }
}
