# irrad_control in Dafny: fluence reconstruction, TCA9555 register logic, Arduino commands

This project models three parts of irrad_control, the control and analysis software of a
particle-beam irradiation site, and proves properties of them.

1. **Fluence-map reconstruction** (`analysis/fluence.py`). Every scanned row deposits a
   truncated 2D Gaussian beam kernel per bin onto a fluence grid and an error grid. Each kernel
   carries the ions the measured beam current delivered while the stage dwelt in that bin.
   Whenever the beam-data cursor has moved past the start (`current_row_idx > 0`, where
   `current_row_idx` is the offset into the beam data, not a row number), a row first deposits
   one kernel per pair of beam samples taken while the stage waited at an edge. The grids are then finished (square root of the error
   grid, both scaled ×100 to ions/cm²), and `extract_dut_map` crops the region of the device
   under test (DUT).
   - Modules: `NumPy` (searchsorted, slicing, linspace, interp, std), `Gauss`, `Kernel`,
     `Transit`, `Rows`, `FluenceMap`, `DutMap`.
   - The grids are `array2<real>`, updated in place by the methods. Each method is proved
     against a function over `seq<seq<real>>` (`Cells`): a pass is described by the sequence
     of `Deposit`s it applies, and `DepositedAll` says what that sequence leaves in a grid.
2. **TCA9555 16-bit I/O expander** (`devices/ic/TCA9555/tca9555.py`). Module `Tca9555Device`,
   class `Tca9555`. The I2C transport is replaced by a field `registers: map<nat, Byte>`, the
   chip's eight register bytes. A field `writes` logs every register write issued.
   - Functions give the meaning of each operation on the register map:
     - strings of '0'/'1' per port, reversed to pin order;
     - diff-only port writes;
     - selective bit updates;
     - integer packing.
   - The class methods are proved to perform exactly those writes.
3. **Arduino command serialiser** (`devices/arduino/ArdSer.py`). Module `ArdSer`:
   `create_command` and Python's `str.split` with its `join` partner.

Module `Common` holds what the TCA9555 and Arduino models share: the ASCII digit test and two
facts about sequences.

Reals stand for the source's floats. `exp` and `sqrt` (also `** 0.5`) are a parameter
`Numerics` of the model. Only the facts in `ValidNumerics` are known of them: `exp`
is positive, and `sqrt` is the non-negative square root. `np.interp` (piecewise linear,
flat outside the samples) and `np.std` (population variance under `sqrt`) are defined out.

Where the code and its documentation disagree, the model follows the code:
- `extract_dut_map` documents a rectangle `(x_min, y_min, x_max, y_max)` when not centred.
  The code still passes the rectangle through `get_dut_rect`, so the length check on
  uncentred rectangles can never fire.
- The docstring gives only the corners of the crop. This model reads the DUT region as
  the bins whose left edge lies in `[x_min, x_max)` (a half-open crop). The high
  corner is found with `side='right'`, so a bin starting exactly at `x_max` is also kept.
- For the TCA9555, the public `get_state` and `get_port_state` are documented as
  thread-safe versions of the private readers, but they do not return the value they read.

Both `extract_dut_map` points are under "## Findings".

## Model

| member | source | states |
|---|---|---|
| Gauss.VolumeOfNorm | irrad_control/analysis/fluence.py:229-251 | the volume under the Gaussian with the normalised amplitude is the amplitude again |
| Gauss.NormOfVolume | irrad_control/analysis/fluence.py:229-251 | normalising the volume of a Gaussian gives back its amplitude |
| Gauss.PdfSign | irrad_control/analysis/fluence.py:200-206 | the pdf is positive, zero or negative exactly as the amplitude is |
| Gauss.PdfMirror | irrad_control/analysis/fluence.py:204-206 | the pdf is point-symmetric about its mean |
| Gauss.PdfPeak | irrad_control/analysis/fluence.py:204-206 | for a non-negative amplitude, when exp is monotone, the pdf is largest at its mean |
| Kernel.ApplyGauss2dKernel | irrad_control/analysis/fluence.py:288-332 | skip_sigmas < 3 fails with no cell touched; otherwise both grids become exactly the grids with one kernel deposited (value grid: amplitude, error grid: squared error amplitude) |
| Kernel.DepositRows | irrad_control/analysis/fluence.py:295-332 | every cell gains its kernel term in both grids |
| Kernel.DepositRow | irrad_control/analysis/fluence.py:305-332 | the cells of row j gain their kernel terms, no other row changes |
| Kernel.DepositCell | irrad_control/analysis/fluence.py:315-332 | cell (j, i) gains its term in both grids, no other cell changes |
| Kernel.OutsideWindowUnchanged | irrad_control/analysis/fluence.py:301-312 | a cell farther than skip_sigmas·σ from the mean on either axis is unchanged |
| Kernel.ChangedIffInWindow | irrad_control/analysis/fluence.py:301-332 | for a non-zero amplitude a cell changes if and only if it lies within the window on both axes |
| Kernel.ErrorNeverDecreases | irrad_control/analysis/fluence.py:292-332 | no error-grid cell decreases under a kernel (squared amplitude times a positive exponential) |
| Kernel.ErrorNeverDecreasesAll | irrad_control/analysis/fluence.py:292-332 | no error-grid cell decreases under any sequence of kernels |
| Kernel.DepositsCommute | irrad_control/analysis/fluence.py:315-332 | the updates are additive: the order of two kernels does not matter |
| Kernel.DepositedAllAppend | irrad_control/analysis/fluence.py:449-459 | depositing a + b is depositing a, then b |
| NumPy.SearchSortedLeft | irrad_control/analysis/fluence.py:591 | binary search on a sorted sequence returns the left insertion point: all before are < x, the element found is >= x |
| NumPy.SearchSortedRight | irrad_control/analysis/fluence.py:592 | binary search returns the right insertion point: all before are <= x, the element found is > x |
| NumPy.LeftIdxSorted | irrad_control/analysis/fluence.py:367 | on sorted data every element from the left insertion point on is >= x |
| NumPy.RightIdxSorted | irrad_control/analysis/fluence.py:592 | on sorted data every element from the right insertion point on is > x |
| NumPy.LeftIdxUnique | irrad_control/analysis/fluence.py:591 | the left insertion point is the only index with its two defining properties |
| NumPy.RightIdxUnique | irrad_control/analysis/fluence.py:592 | the right insertion point is the only index with its two defining properties |
| NumPy.RightIdxAtElement | irrad_control/analysis/fluence.py:164 | on strictly increasing data the right insertion point of element k is k + 1 |
| NumPy.PySlice | irrad_control/analysis/fluence.py:588-595 | s[a:b] clamps b to len(s), is empty when a >= b, and element k is s[a + k] |
| NumPy.ReverseReverse | irrad_control/analysis/fluence.py:525 | s[::-1][::-1] == s |
| NumPy.LinspaceEnds | irrad_control/analysis/fluence.py:54-55 | linspace starts at start and ends at stop |
| NumPy.LinspaceSorted | irrad_control/analysis/fluence.py:54-55 | linspace is sorted, strictly so when start < stop |
| NumPy.MidpointsBetween | irrad_control/analysis/fluence.py:58-59 | each bin centre lies strictly between its two edges |
| NumPy.InterpWithin | irrad_control/analysis/fluence.py:508-509 | np.interp stays within the bounds of the sampled values |
| NumPy.InterpAtSample | irrad_control/analysis/fluence.py:508-509 | np.interp at a sample point returns that sample's value |
| NumPy.SumSqDevConstant | irrad_control/analysis/fluence.py:514 | samples all equal to their mean have zero squared deviation (so zero std) |
| NumPy.SumPrefixIncreasing | irrad_control/analysis/fluence.py:505 | prefix sums of positive values strictly increase |
| Transit.CalcBinTransitTimes | irrad_control/analysis/fluence.py:336-380 | the array is filled with TransitTimes: idx is the left insertion point of the ramp distance, then FillDwell |
| Transit.FillDwell | irrad_control/analysis/fluence.py:369-380 | the interior and both ramps are filled in place: the result is Dwell |
| Transit.RampStep | irrad_control/analysis/fluence.py:373-380 | one ramp pass sets bins i and n-1-i from one running speed, touches nothing else, and returns the next running speed |
| Transit.InteriorAtScanSpeed | irrad_control/analysis/fluence.py:367-370 | every bin in [idx, n-idx) gets bin_size/scan_speed |
| Transit.DwellRamp | irrad_control/analysis/fluence.py:376-377 | ramp bin i and its mirror n-1-i are both crossed at the speed after the first i bins |
| Transit.RampSpeedStep | irrad_control/analysis/fluence.py:380 | the running speed grows by accel × the time spent in bin i |
| Transit.MirrorSymmetric | irrad_control/analysis/fluence.py:373-377 | with equal bin sizes the dwell times are mirror-symmetric |
| Transit.RampSpeedNonDecreasing | irrad_control/analysis/fluence.py:376-380 | the running speed never decreases |
| Transit.RampSpeedSquared | irrad_control/analysis/fluence.py:376-380 | the running speed squared is 2·accel·(distance covered), as v² = 2as |
| Transit.AccelDistanceSquared | irrad_control/analysis/fluence.py:360-364 | the ramp distance s = a/2·(v/a)² satisfies 2as = v² |
| Transit.RampSpeedBelow | irrad_control/analysis/fluence.py:364-367 | after the bins up to edge i the speed is below scan speed if and only if edge i lies before the ramp distance |
| Transit.RampReachesScanSpeed | irrad_control/analysis/fluence.py:360-380 | the speed is below scan speed inside the ramp and reaches it at its end |
| Transit.SizesTelescope | irrad_control/analysis/fluence.py:353 | the first i bin sizes sum to edges[i] - edges[0] |
| Transit.RampTimePositive | irrad_control/analysis/fluence.py:376 | crossing a bin of positive size takes positive time |
| Transit.DwellPositive | irrad_control/analysis/fluence.py:370-377 | all dwell times are positive for positive bin sizes |
| Transit.NextSpeedAbove | irrad_control/analysis/fluence.py:376 | crossing a bin of positive size increases the speed |
| Rows.DirectionByEdge | irrad_control/analysis/fluence.py:422-428 | natural order if and only if start_x is within 0.5 of the start edge; reversed if and only if within 0.5 of the stop edge; error if neither |
| Rows.StartEdgeFirst | irrad_control/analysis/fluence.py:422-423 | the start edge is checked first |
| Rows.WaitDeposits | irrad_control/analysis/fluence.py:417-459 | a wait of n samples deposits n-1 kernels at edges[0] or edges[-1] and the row's y, or fails with the direction error |
| Rows.WaitDepositsNonNegative | irrad_control/analysis/fluence.py:441-446 | with sorted timestamps and non-negative currents every wait kernel carries non-negative ions and error |
| Rows.ProcessRowWait | irrad_control/analysis/fluence.py:384-459 | the grids become the grids with the wait kernels deposited, or are untouched when the row is off both edges |
| Rows.ApplyKernel | irrad_control/analysis/fluence.py:449-459 | one kernel call with skip_sigmas=6 always deposits the kernel |
| Rows.ApplyDeposits | irrad_control/analysis/fluence.py:530-543 | the loop of kernel calls deposits the sequence in order |
| Rows.OverheadIdentity | irrad_control/analysis/fluence.py:499 | 2·overhead + Σtransit == stop_ts - start_ts |
| Rows.CenterTimestampsOrdered | irrad_control/analysis/fluence.py:499-505 | with positive transit times the bin-centre timestamps strictly increase and lie strictly inside (start + overhead, stop - overhead) |
| Rows.CenterBetween | irrad_control/analysis/fluence.py:505 | each centre timestamp lies strictly between t0 and t0 + Σtransit |
| Rows.CentersIncrease | irrad_control/analysis/fluence.py:505 | centre timestamps of later bins are later |
| Rows.ScanKernels | irrad_control/analysis/fluence.py:508-543 | one kernel per bin, at the chosen x centre and the row's y, with non-negative error |
| Rows.ScanDeposits | irrad_control/analysis/fluence.py:496-543 | a row scan fails with no beam samples (interp over nothing) or off both edges, and otherwise yields one kernel per bin |
| Rows.ScanDepositsPlaced | irrad_control/analysis/fluence.py:516-543 | kernel k sits at centre k left to right, at centre n-1-k right to left, and at the row's y |
| Rows.ReversedRowDwellMatches | irrad_control/analysis/fluence.py:529 | with equal bins the dwell times read backwards are the same, which makes reversing only the centres correct |
| Rows.ProcessRowScan | irrad_control/analysis/fluence.py:463-543 | transit times are refilled, and the grids receive exactly the row's kernels or, on an error, nothing |
| Rows.SortedTimestampsSlice | irrad_control/analysis/fluence.py:588-595 | a slice of time-ordered samples is time-ordered |
| Rows.WaitSliceBeforeRow | irrad_control/analysis/fluence.py:591-601 | every wait sample is taken before the row starts |
| Rows.RowSliceWithinRow | irrad_control/analysis/fluence.py:591-595 | every row sample lies in [start_ts, stop_ts] |
| Rows.NextCursorSplits | irrad_control/analysis/fluence.py:592-634 | the returned cursor is between the input cursor and the end; the samples before it are no later than the row stop, and those after it are later |
| Rows.WaitPassRuns | irrad_control/analysis/fluence.py:597-607 | the wait pass runs only when the beam-data cursor is past the start (`current_row_idx > 0`) and the wait slice is non-empty; it then succeeds exactly when the row has a direction, with one kernel per consecutive sample pair |
| Rows.RowDeposits | irrad_control/analysis/fluence.py:588-631 | a row's kernels are those of its wait pass followed by one per bin |
| Rows.RowFailsAfterWaitOnlyWithoutSamples | irrad_control/analysis/fluence.py:598-631 | a row that raises after its wait kernels were applied is one with no beam samples |
| Rows.RowPasses | irrad_control/analysis/fluence.py:598-631 | the wait pass, then the scan pass; on an error the grids hold exactly the kernels applied before it |
| Rows.ProcessRow | irrad_control/analysis/fluence.py:547-634 | returns cursor + row_stop_idx and deposits the row's kernels; a failing row leaves exactly the wait kernels already applied |
| FluenceMap.MapSetup | irrad_control/analysis/fluence.py:37-59 | edges from 0 over the scan area, centres as midpoints, σ = FWHM/2.3548, skip_sigmas 6 |
| FluenceMap.ReconstructPrefix | irrad_control/analysis/fluence.py:67-84 | when all rows go through, so do the first i; their kernels are a prefix of all kernels, and the beam-data cursor never moves back |
| FluenceMap.ReconstructCursorInBeam | irrad_control/analysis/fluence.py:67-84 | the cursor never passes the end of the beam data |
| FluenceMap.FailureIsFinal | irrad_control/analysis/fluence.py:70-84 | a failed row aborts the whole reconstruction |
| FluenceMap.ZeroCells | irrad_control/analysis/fluence.py:50-51 | the new grids are all zero |
| FluenceMap.ErrorMapNonNegative | irrad_control/analysis/fluence.py:88-93 | every cell of the finished error map is non-negative |
| FluenceMap.GenerateFluenceMap | irrad_control/analysis/fluence.py:15-95 | the arrays returned are the fluence maps of the rows, with the bin centres; no rows or a failing row is an error |
| FluenceMap.FillGrids | irrad_control/analysis/fluence.py:67-84 | the row loop threads the cursor and leaves the kernels of all rows in the grids |
| FluenceMap.FinishGrids | irrad_control/analysis/fluence.py:88-93 | the error grid becomes 100·sqrt, the value grid 100× |
| FluenceMap.FinishRow | irrad_control/analysis/fluence.py:88-93 | one row of both grids is finished and no other row changes |
| DutMap.MissingGeometryIff | irrad_control/analysis/fluence.py:135-136 | the error without geometry occurs if and only if both irrad_data and dut_rectangle are absent |
| DutMap.IrradDataTakesPriority | irrad_control/analysis/fluence.py:147-153 | with irrad_data the rectangle and centring arguments are ignored |
| DutMap.CenteredRectGeometry | irrad_control/analysis/fluence.py:145 | the centred rectangle has widths dr[0], dr[1] and its centre at half the scan area |
| DutMap.CornerCheckNeverFires | irrad_control/analysis/fluence.py:155-162 | an uncentred rectangle fails only when it is too short to index; the length-4 check never fires |
| DutMap.CropWindowAligned | irrad_control/analysis/fluence.py:167 | the cropped grid has one row per kept y centre and one column per kept x centre, each cell at the window's offset |
| DutMap.CropAligned | irrad_control/analysis/fluence.py:138-167 | the same for the crop extract_dut_map returns, taken from the same searchsorted indices |
| DutMap.CornerRectangleReadAsWidths | irrad_control/analysis/fluence.py:158-160 | as written, the corners (1,1,3,3) on a 10×10 area are cropped as a 1×1 square about (5,5) |
| DutMap.DutRectangleIntendedKeepsCorners | irrad_control/analysis/fluence.py:155-162 | corrected, a four-value rectangle is used as its corners and other lengths are refused; the other cases agree with the source |
| DutMap.BinAtHighCornerKept | irrad_control/analysis/fluence.py:164 | as written, a rectangle ending on edge 3 of [0,4] keeps bin 3, which starts at the corner |
| DutMap.BinRangeIntendedOverlaps | irrad_control/analysis/fluence.py:164-165 | corrected, every kept bin starts inside [lo, hi) |
| DutMap.DutWindowIntendedInside | irrad_control/analysis/fluence.py:164-167 | corrected, every kept column and row starts inside the rectangle |
| Tca9555Device.CheckRegister | irrad_control/devices/ic/TCA9555/tca9555.py:235-240 | an unknown register fails with the unknown-register error |
| Tca9555Device.KnownRegisters | irrad_control/devices/ic/TCA9555/tca9555.py:226-240 | the check passes exactly for input, output, polarity and config |
| Tca9555Device.AddressesDistinct | irrad_control/devices/ic/TCA9555/tca9555.py:55-64 | the eight (register, port) pairs have eight different addresses |
| Tca9555Device.StateString | irrad_control/devices/ic/TCA9555/tca9555.py:188-224 | a created state is a string of exactly n '0'/'1' characters |
| Tca9555Device.NumberState | irrad_control/devices/ic/TCA9555/tca9555.py:206-222 | an int gives the n-character bit string of value v if and only if n >= 1 and v < 2^n, otherwise the length error |
| Tca9555Device.ItemsState | irrad_control/devices/ic/TCA9555/tca9555.py:209-222 | 0/1 items give one character each, left-padded with '0' to n; more than n items are the length error |
| Tca9555Device.TextState | irrad_control/devices/ic/TCA9555/tca9555.py:209-215 | a bit string of length n is its own state |
| Tca9555Device.TextNotDigits | irrad_control/devices/ic/TCA9555/tca9555.py:211-212 | a string holding a character other than an ASCII digit fails with NotADigit (int() of that character) |
| Tca9555Device.BitItemsBits | irrad_control/devices/ic/TCA9555/tca9555.py:211-212 | formatting 0/1 items gives one character per item |
| Tca9555Device.FixedBitsValue | irrad_control/devices/ic/TCA9555/tca9555.py:207 | the n-bit numeral of v < 2^n reads back as v |
| Tca9555Device.ValueFixedBits | irrad_control/devices/ic/TCA9555/tca9555.py:206-207 | a bit string is the n-bit numeral of its value |
| Tca9555Device.FixedBitsDigit | irrad_control/devices/ic/TCA9555/tca9555.py:207 | character n-1-k of the numeral is bit k of v |
| Tca9555Device.BinaryWidth | irrad_control/devices/ic/TCA9555/tca9555.py:207 | format(v, 'b') fits n characters if and only if v < 2^n |
| Tca9555Device.PaddedBinary | irrad_control/devices/ic/TCA9555/tca9555.py:207 | format(v, '0nb') is the n-bit numeral of v |
| Tca9555Device.Tca9555.CreateState | irrad_control/devices/ic/TCA9555/tca9555.py:188-224 | the loops build exactly the state (or the error) StateString defines |
| Tca9555Device.Tca9555.ItemsLoop | irrad_control/devices/ic/TCA9555/tca9555.py:209-212 | the loop over an iterable concatenates the binary numeral of every item, in order |
| Tca9555Device.Tca9555.DigitsLoop | irrad_control/devices/ic/TCA9555/tca9555.py:209-212 | the loop over a string succeeds if and only if every character is an ASCII digit, otherwise NotADigit; it then gives the numerals of the digits |
| Tca9555Device.CheckBits | irrad_control/devices/ic/TCA9555/tca9555.py:242-273 | accepted bits are the list (an int wrapped), all in [0,16) and distinct |
| Tca9555Device.CheckBitsAccepts | irrad_control/devices/ic/TCA9555/tca9555.py:253-271 | bits pass if and only if they are in range, distinct, and the value's bit length fits; out of range is the range error, duplicates the duplicate error, and a too-wide value with valid bits the width error (TooLittleBits) |
| Tca9555Device.BitLengthBound | irrad_control/devices/ic/TCA9555/tca9555.py:266 | bit_length(v) <= m if and only if v < 2^m |
| Tca9555Device.PortBitsCreated | irrad_control/devices/ic/TCA9555/tca9555.py:393-398 | a port reads as its byte's 8-bit numeral reversed |
| Tca9555Device.PortBitsPins | irrad_control/devices/ic/TCA9555/tca9555.py:393-398 | character k of a port's state is bit k of its byte (pin order) |
| Tca9555Device.PortStatePins | irrad_control/devices/ic/TCA9555/tca9555.py:376-398 | reading a port succeeds if and only if the register is known and the port is 0 or 1 (unknown register first, then port), and gives the byte's bits in pin order |
| Tca9555Device.RegisterPins | irrad_control/devices/ic/TCA9555/tca9555.py:365-398 | pin i of a register is bit i mod 8 of the byte of port i / 8 |
| Tca9555Device.StateIsPorts | irrad_control/devices/ic/TCA9555/tca9555.py:365-374 | _get_state is port 0's 8 characters followed by port 1's, 16 in all, or the unknown-register error |
| Tca9555Device.PortWriteErrors | irrad_control/devices/ic/TCA9555/tca9555.py:339-363 | a port write succeeds if and only if the register is known, the port is 0 or 1 and the state is created, and writes the address of that register's port |
| Tca9555Device.PortBitsRoundTrip | irrad_control/devices/ic/TCA9555/tca9555.py:358-398 | storing int(s[::-1], 2) and reading the port back gives s |
| Tca9555Device.PortRoundTrip | irrad_control/devices/ic/TCA9555/tca9555.py:339-398 | _get_port_state after _set_port_state returns the created state |
| Tca9555Device.PortWriteFrame | irrad_control/devices/ic/TCA9555/tca9555.py:363 | a port write changes no other port of any register |
| Tca9555Device.Tca9555.WriteRegister | irrad_control/devices/ic/TCA9555/tca9555.py:159-171 | the register byte is stored and the write is logged |
| Tca9555Device.Tca9555.WritePort | irrad_control/devices/ic/TCA9555/tca9555.py:358-363 | creates the 8-bit state and issues its one write, or fails with no write |
| Tca9555Device.Tca9555.SetPortState | irrad_control/devices/ic/TCA9555/tca9555.py:339-363 | performs exactly the write (or the error) of PortWrite |
| Tca9555Device.SlicesJoin | irrad_control/devices/ic/TCA9555/tca9555.py:331-333 | the two 8-character port slices make up the 16-character target |
| Tca9555Device.PortUpdateSets | irrad_control/devices/ic/TCA9555/tca9555.py:330-337 | after its update a port holds its slice and the other port is unchanged |
| Tca9555Device.PortUpdatesStep | irrad_control/devices/ic/TCA9555/tca9555.py:328-337 | one pass of the port loop keeps the loop's invariant |
| Tca9555Device.UpdatesReadBack | irrad_control/devices/ic/TCA9555/tca9555.py:313-337 | after the port loop the register reads as the target |
| Tca9555Device.UpdatesEmptyIff | irrad_control/devices/ic/TCA9555/tca9555.py:335-337 | the loop writes nothing if and only if the register already holds the target |
| Tca9555Device.SetStateErrors | irrad_control/devices/ic/TCA9555/tca9555.py:313-337 | _set_state succeeds if and only if the 16-bit state is created and the register is known; the state error comes first |
| Tca9555Device.SetStateReadBack | irrad_control/devices/ic/TCA9555/tca9555.py:313-374 | _get_state after _set_state returns the created state |
| Tca9555Device.SetStateIdempotent | irrad_control/devices/ic/TCA9555/tca9555.py:328-337 | a second identical _set_state performs no writes |
| Tca9555Device.SetStateDiffOnly | irrad_control/devices/ic/TCA9555/tca9555.py:335-337 | _set_state writes nothing if and only if the register already holds the state |
| Tca9555Device.Tca9555.UpdatePort | irrad_control/devices/ic/TCA9555/tca9555.py:330-337 | writes just this port, only when its slice differs |
| Tca9555Device.Tca9555.PortStep | irrad_control/devices/ic/TCA9555/tca9555.py:330-337 | one pass of the port loop, with its update, keeps the loop's invariant |
| Tca9555Device.Tca9555.WritePorts | irrad_control/devices/ic/TCA9555/tca9555.py:328-337 | the port loop performs exactly the diff-only writes |
| Tca9555Device.Tca9555.SetState | irrad_control/devices/ic/TCA9555/tca9555.py:313-337 | performs exactly the writes (or the error) of SetStateOf |
| Tca9555Device.BitsTarget | irrad_control/devices/ic/TCA9555/tca9555.py:298-304 | the new state is as long as the old and still a bit string |
| Tca9555Device.Tca9555.BitsState | irrad_control/devices/ic/TCA9555/tca9555.py:298-304 | the loop builds BitsTarget |
| Tca9555Device.SetBitsEffect | irrad_control/devices/ic/TCA9555/tca9555.py:275-311 | succeeds if and only if val is 0/1, the register is known and the bits are valid; addressed pins (all 16 without bits) become val, all others keep their state |
| Tca9555Device.Tca9555.SetRegisterBits | irrad_control/devices/ic/TCA9555/tca9555.py:275-311 | performs exactly the writes (or the error) of SetBitsOf |
| Tca9555Device.FirstIndex | irrad_control/devices/ic/TCA9555/tca9555.py:425 | bits.index(i): the first position holding i |
| Tca9555Device.FirstIndexDistinct | irrad_control/devices/ic/TCA9555/tca9555.py:425 | on distinct bits, the first index of bits[k] is k |
| Tca9555Device.PackTarget | irrad_control/devices/ic/TCA9555/tca9555.py:421-427 | the packed state is as long as the input state and still a bit string |
| Tca9555Device.Tca9555.PackState | irrad_control/devices/ic/TCA9555/tca9555.py:421-427 | the loop builds PackTarget |
| Tca9555Device.ReversedNumeral | irrad_control/devices/ic/TCA9555/tca9555.py:416-419 | the reversed numeral holds bit j of val at position j |
| Tca9555Device.IntToBitsEffect | irrad_control/devices/ic/TCA9555/tca9555.py:400-430 | succeeds if and only if bits is non-empty and val fits len(bits) bits, otherwise the length error; output pin bits[k] becomes bit k of val (LSB first), every other pin copies the input register |
| Tca9555Device.Tca9555.IntToBits | irrad_control/devices/ic/TCA9555/tca9555.py:400-430 | performs exactly the writes (or the error) of IntToBitsOf |
| Tca9555Device.PyIndex | irrad_control/devices/ic/TCA9555/tca9555.py:447 | Python indexing (negative from the end) stays in range |
| Tca9555Device.BitsValueDigits | irrad_control/devices/ic/TCA9555/tca9555.py:432-452 | int_from_bits fails exactly for an index out of range or no bits; bit k of the value is pin bits[k] |
| Tca9555Device.PackedValue | irrad_control/devices/ic/TCA9555/tca9555.py:445-450 | pins holding the bits of val at bits[k] read back as val |
| Tca9555Device.IntRoundTrip | irrad_control/devices/ic/TCA9555/tca9555.py:413-450 | decoding the packed output pins with int_from_bits' rule gives val again |
| Tca9555Device.Tca9555.IntFromBits | irrad_control/devices/ic/TCA9555/tca9555.py:432-452 | the loop reads BitsValueOf the input register |
| Tca9555Device.IsHighPin | irrad_control/devices/ic/TCA9555/tca9555.py:510-521 | is_high succeeds if and only if 0 <= bit < 16 and is bit bit mod 8 of the input byte of port bit / 8 |
| Tca9555Device.Tca9555.SetDirection | irrad_control/devices/ic/TCA9555/tca9555.py:523-535 | _set_bits on config with int(bool(direction)); never the value error |
| Tca9555Device.Tca9555.SetPolarity | irrad_control/devices/ic/TCA9555/tca9555.py:537-549 | _set_bits on polarity with int(bool(polarity)); never the value error |
| Tca9555Device.Tca9555.SetLevel | irrad_control/devices/ic/TCA9555/tca9555.py:551-563 | _set_bits on output with int(bool(level)); never the value error |
| Tca9555Device.Tca9555.SetBits | irrad_control/devices/ic/TCA9555/tca9555.py:577-586 | _set_bits on output with value 1 (set_level(1)) |
| Tca9555Device.Tca9555.UnsetBits | irrad_control/devices/ic/TCA9555/tca9555.py:588-597 | _set_bits on output with value 0 (set_level(0)) |
| ArdSer.CreateCommand | irrad_control/devices/arduino/ArdSer.py:23-32 | the command is |a1|+|a2|+|a3|+4 long and ends with ":\n" |
| ArdSer.DefaultArguments | irrad_control/devices/arduino/ArdSer.py:23-32 | with the defaults the command is str(a1) + ":::\n" |
| ArdSer.EndOnlyAtEnd | irrad_control/devices/arduino/ArdSer.py:7-32 | the terminator is the last character and, if no argument holds one, the only one |
| ArdSer.CommandFields | irrad_control/devices/arduino/ArdSer.py:23-32 | if no argument holds ':', splitting on ':' gives [a1, a2, a3, "\n"] |
| ArdSer.NumberFields | irrad_control/devices/arduino/ArdSer.py:28-32 | integer arguments always split back into their fields |
| ArdSer.Str | irrad_control/devices/arduino/ArdSer.py:32 | str() of an integer is non-empty and holds neither ':' nor '\n' |
| ArdSer.NumberRoundTrip | irrad_control/devices/arduino/ArdSer.py:32 | str() of an integer is a numeral (an optional '-', then decimal digits), and int() of it gives the integer back |
| ArdSer.DecimalRoundTrip | irrad_control/devices/arduino/ArdSer.py:32 | a decimal numeral reads back as its number |
| ArdSer.JoinSplit | irrad_control/devices/arduino/ArdSer.py:25 | joining the pieces of a split gives the string back |

## Left out

- Floating point: reals stand for floats and IEEE rounding is not modelled. The 2.3548 FWHM ratio and the ×100 scaling appear as constants. `irrad_control/analysis/constants.py` is not part of this model, so `elementary_charge` is taken as the SI value 1.602176634e-19 C.
- exp, sqrt: they are the `Numerics` parameter, known only to be positive and the non-negative square root.
- numba `@njit`, the `tqdm` progress bar and `logging`: they do not change results.
- Gauss.PdfPeak: needs exp to be monotone, which `ValidNumerics` does not provide, so it is a precondition of the lemma.
- Transit.CalcBinTransitTimes: requires at least one ramp bin and non-overlapping ramps (1 <= idx, 2·idx <= bins). These cases are not modelled:
  - idx = 0: the slice `[0:-0]` is empty, so no bin is filled.
  - bins/2 < idx <= bins: the slice `[idx:-idx]` is empty, and the ramp loop writes the acceleration and deceleration times into overlapping bins, the later write winning.
  - idx = bins + 1: the loop indexes one past the end of the array and raises IndexError.
- FluenceMap.GenerateFluenceMap: requires positive beam widths, at least one x bin, time-ordered beam samples and rows whose speed profile fits the bins. These are the caller's guarantees, including positive speed and acceleration.
- FluenceMap.GenerateFluenceMap: `total_scans`, `n_rows` and `total_rows` feed only the log messages and are not computed.
- FluenceMap.GenerateFluenceMap: the grids are fresh arrays, distinct from each other. The source's shared `row_bin_transit_times` buffer is an array that the rows refill.
- Rows.ProcessRowWait: requires a non-empty wait slice, the one case in which `_process_row` calls it.
- Transit.RampSpeedStep: the running speed is not stated as accel × total elapsed time. The lemma links the source's `current_speed += scan_accel * bin_transit_times[i]` to the running speed instead.
- TCA9555 concurrency: `_event_lock`, the busy flag `device_busy` and the read-only properties (`n_io_bits` etc.) concern thread exclusion or return constants.
- TCA9555 transport: `ArduinoToI2C` and `_check_con` are foreign calls. `_read_reg` is a map lookup, and `_write_reg` stores the byte and logs the write.
- `io_state` and `config`: these properties are `_get_state("input")` / `_set_state("output", …)` and a loop of `_get_state` / `_set_state` over the four registers, all modelled through StateOf and SetState.
- `get_state` and `get_port_state` (public): they discard what they read and return None. Their effect is nothing, so they have no member.
- `set_state` and `set_port_state` (public): they are the locked versions of SetState and SetPortState.
- `format_config`: it relies on Python format-spec strings.
- Tca9555Device.StateString: integer states are non-negative (`nat`) and iterable elements are non-negative integers. A negative int formats with a '-' that the source then rejects or writes as garbage; that case is not modelled.
- Tca9555Device.Tca9555.SetState: `_get_port_state` checks the register on the first pass of the port loop, before any write. The model makes the same check once, right before the loop, which gives the same errors and writes.
- Tca9555Device.IntToBitsOf: `bits` is a list. A single int as `bits` raises TypeError at `len(bits)` in the source and is not modelled. `int_to_bits` does not validate `bits`: out-of-range entries are ignored, as in the source.
- Tca9555Device.TextNotDigits: a digit is an ASCII digit '0' to '9'. Python's `int()` also accepts the other Unicode decimal digits (such as '٣'), which the model reports as NotADigit.
- Tca9555Device.Tca9555.DigitsLoop: the same ASCII-only digit test (`Common.IsDigit`). A string with other Unicode decimal digits fails here, although `int()` would accept it.
- DutMap.DutWindow: `LeftIdx` gives the first edge at or above the corner, `RightIdx` the first edge above it. On ascending edges that is what numpy's binary `searchsorted` returns. The edges are `linspace(0, scan_area, …)`, and the scan extent is computed from the bin centres passed in. Centres in descending order give a negative extent and descending edges, where `searchsorted` is unspecified; crops over such edges are not modelled.
- ArdSer.Str: arguments are strings or integers. Other types' `str()` (floats, bytes, objects) is not modelled.
- `ArdSer.__init__` and `ArdSer.query`: serial I/O and a sleep. `query` also refers to an attribute `interface` that is never set.
- The GUI (`gui.py`, `devices_tab.py`, `event_widget.py`), `mux.py` and `devices.py`: UI, process handling and serial I/O outside this model.

## Findings

| source | as written | input that shows it | evidently intended | confidence | as-written member | corrected member |
|---|---|---|---|---|---|---|
| irrad_control/analysis/fluence.py:155-162 | every given rectangle goes through `get_dut_rect`, even when not centred, so the length-4 check at line 161 never fires | `dut_rectangle=(1,1,3,3)`, `center_symm=False`, 10×10 scan area: the crop is the square (4.5,4.5)-(5.5,5.5) | an uncentred rectangle is the corners `(x_min, y_min, x_max, y_max)` as the docstring says, and other lengths are refused | high, not executed | DutMap.CornerRectangleReadAsWidths | DutMap.DutRectangleIntendedKeepsCorners |
| irrad_control/analysis/fluence.py:164-165 | the high corner uses `searchsorted(..., side='right')`, so a bin whose left edge equals `x_max` is kept | edges 0,1,2,3,4 and `x_max = 3`: bins 0 to 3 are kept, and bin 3 lies wholly outside the rectangle | on this model's reading of the DUT region (fluence.py:100, :111), only bins whose left edge lies in `[x_min, x_max)` are kept (a half-open crop); the docstring itself gives only the corners | low, not executed | DutMap.BinAtHighCornerKept | DutMap.DutWindowIntendedInside |
