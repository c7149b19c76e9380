# SEM scan engine, modelled in Dafny

This project models the scan engine of the Amray SEM control program
(`sem_v1.py`, version 1.16, and its predecessor `sem_v1_15.py`) and proves
properties of the model. The engine is a scan-generator thread. It drives
the X and Y deflection outputs of a DAQPAD-1200 pixel by pixel, reads one
detector sample per pixel and stores it in the frame buffer `DataMap`.
GUI button handlers control it through a shared mode flag `CONT_SCAN` and a
few globals: the resolution, the partial-field switch and the window origin.
The flag is 0 (idle) or -1 (run). Its third value, 1 (record a single pass),
is set only by `rec_button_press`, and the RECORD button is commented out
in both versions (sem_v1.py:150, sem_v1_15.py:122), so the shipped program
never sets it. The record handler and the single-pass thread are modelled
anyway, since the thread still tests for that value.

The model is sequential. The handlers run one at a time. A handler that
restarts the thread becomes a `Reaction` whose `start` bit is set, and
`Controller.Launch` gives the activation of the thread it starts.

The stop is modelled as a number. Inside a thread, `stop` is the count of
flag checks that still see the flag set. The check with index `stop` is the
first to see 0. The hardware is a parameter:

- an analog write or read becomes an `Event` in a trace;
- a read returns `samples(p)(j, i)` on pass `p`.

Modules:

- `Arith`: facts about Euclidean division used by the other proofs.
- `AxisCodes`: the code tables `rint(linspace(-2048, 2047, R))`, in exact
  integer arithmetic.
- `Field`: cells, traversal ranges, and the full frame versus the 128 x 128
  partial-field window.
- `Raster`: the visiting order of one pass, as a sequence of flag-check
  steps.
- `Engine`: the per-step I/O of each program version. It holds the
  reference semantics `Pass` and the imperative nested loop `RasterPass`,
  which is proved equal to `Pass`.
- `CallOrder`: the order of the hardware calls of a pass across channels,
  against reference traces built from the visited cells and checked rows.
- `PassFacts`: what a pass visits, stores and emits on each channel, how it
  ends, and how a later stop extends it.
- `ScanMode`: the three values of `CONT_SCAN`.
- `Activation`: one run of `ScanGenerator.run`, made of repeated passes, the
  single-pass self-stop and the crash on an IndexError.
- `Controller`: the handlers, the invariant they keep, and what the threads
  they start do.

## Model

| member | source | states |
|---|---|---|
| ScanMode.Flag | sem_v1.py:83-86 | the flag value of each mode is one of 0, -1 and 1, and it is 0 exactly for the idle mode |
| ScanMode.ModeOf | sem_v1.py:86 | a flag value stands for a mode exactly when it is 0, -1 or 1 |
| ScanMode.FlagRoundTrip | sem_v1.py:37 | encoding a mode as a flag and decoding it gives the mode back, and the encoding is injective |
| AxisCodes.RoundHalfEven | sem_v1.py:69-70 | the result is within half a unit of n/d, and an exact tie goes to the even integer (numpy `rint`) |
| AxisCodes.AxisCode | sem_v1.py:69-70 | entry k is within half a step of the linspace value -2048 + 4095 k/(R-1), in exact arithmetic |
| AxisCodes.AxisTable | sem_v1.py:69-70 | a table for R pixels has R entries; for one pixel it is [-2048]; otherwise entry k is within half a code step of the linspace value |
| AxisCodes.AxisTableProperties | sem_v1.py:69-70 | a table has R entries, starts at -2048, ends at 2047 and stays in [-2048, 2047]; it never decreases, and it strictly increases for R <= 4096 |
| AxisCodes.AxisCodeEnds | sem_v1.py:69-70 | the first code of a table is -2048 and the last is 2047 |
| AxisCodes.AxisCodeOrder | sem_v1.py:69-70 | codes never decrease along an axis, and strictly increase for at most 4096 pixels |
| AxisCodes.AxisCodeIsRint | sem_v1.py:69-70 | for odd R-1 (every preset) the half-up rounding equals numpy's round-half-to-even, because no entry is a tie |
| Field.FullFrame | sem_v1.py:72-76 | the full-frame ranges lie inside the frame and contain exactly the frame's cells |
| Field.PassBounds | sem_v1.py:72-81 | field off gives the whole frame; field on gives exactly the cells of the 128 x 128 window at the origin, well formed for a non-negative origin |
| Raster.Schedule | sem_v1.py:88-92 | a pass has no checks exactly when its row range is empty, and otherwise opens with the check of row yLow |
| Raster.ScheduleVisitsBounds | sem_v1.py:88-91 | the pixel steps of one pass visit exactly the cells of the ranges, in strict row-major order, hence each cell once |
| Raster.ScheduleLength | sem_v1.py:88-92 | a pass makes one check per row plus one per pixel: H(1+W) steps |
| Raster.ScheduleCellCount | sem_v1.py:88-91 | a pass visits H*W cells |
| Raster.FullFrameScheduleLength | sem_v1.py:72-76 | a full-frame pass makes R(R+1) checks |
| Raster.ScheduleRow | sem_v1.py:88-92 | the check of row j sits right after the steps of the earlier rows, and pixel (j, i) sits at PixelIndex(b, j, i) |
| Raster.SchedulePixel | sem_v1.py:91-92 | pixel (j, i) of the ranges is the step at PixelIndex(b, j, i), which lies inside the schedule |
| Raster.ScheduleWithin | sem_v1.py:88-91 | every step of a pass lies inside the traversal ranges |
| Raster.RowsUpToPrefix | sem_v1.py:88 | the steps of the first rows are a prefix of the steps of more rows |
| Engine.RowEvents | sem_v1.py:88-90 | a row check writes YVals[j] to the Y channel in v1.16, and makes no call in v1.15 |
| Engine.PixelEvents | sem_v1.py:93-99 | a pixel makes 2 calls in v1.16 and 3 in v1.15: first XVals[i] to the X channel, last the read with the version's gain; in v1.15 YVals[j] goes to the Y channel in between |
| Engine.StepEvents | sem_v1.py:88-99 | every call of a step goes to device 1; a row check reads nothing; a pixel's calls end with the one read, which returns that pixel's sample |
| Engine.Exec | sem_v1.py:90-103 | a step keeps DataMap a square buffer of the frame's size |
| Engine.HorizonFrom | sem_v1.py:89-92 | a pass runs exactly up to the first step whose check sees the cleared flag or whose index is outside the code tables |
| Engine.Pass | sem_v1.py:88-103 | the reference semantics of one pass keeps DataMap square and of the frame's size |
| Engine.ScanRow | sem_v1.py:91-103 | the inner pixel loop either finishes the row, leaving the state that the reference semantics reaches at the next row check, or ends the pass exactly as `Pass` does |
| Engine.RasterPass | sem_v1.py:86-103 | the nested loop computes exactly the state and end of the reference pass, for every stop and every range |
| Engine.ExecAllSnoc | sem_v1.py:88-103 | executing one more step extends the executed prefix by that step |
| PassFacts.RowStartChannels | sem_v1.py:90 | a row check in v1.16 writes the row's Y code and nothing else; in v1.15 it writes nothing |
| PassFacts.PixelChannels16 | sem_v1.py:95-99 | a v1.16 pixel writes its X code and makes one read with gain 1 |
| PassFacts.PixelChannels15 | sem_v1_15.py:73-78 | a v1.15 pixel makes one X write with its column's code, one Y write with its row's code and one read with gain 10 |
| PassFacts.StepsReads | sem_v1.py:99 | the reads of executed steps are one per visited cell, returning that cell's sample |
| PassFacts.StepsXWrites | sem_v1.py:95 | the X writes are one per visited cell, carrying its column's code |
| PassFacts.StepsYWrites | sem_v1_15.py:74 | in v1.15 the Y writes are one per visited cell, carrying its row's code |
| PassFacts.StepsRowWrites | sem_v1.py:90 | in v1.16 the Y writes are one per row check, carrying that row's code |
| PassFacts.EventsOfChannels | sem_v1.py:88-99 | the per-channel traces of executed steps, for both versions |
| PassFacts.ExecAllEffect | sem_v1.py:101-103 | executing steps appends their cells and calls; each cell holds its sample if visited and its old value otherwise |
| PassFacts.PassVisits | sem_v1.py:88-103 | a pass visits a prefix of the full visiting order, in row-major order, inside the ranges and the frame, at most `stop` cells; a completed pass visits exactly the cells of the ranges |
| PassFacts.PassStores | sem_v1.py:102 | after a pass DataMap[j, i] holds its sample exactly at the visited cells and is unchanged elsewhere |
| PassFacts.PassEnds | sem_v1.py:88-95 | a pass completes iff the stop allows all its steps and all lie in the frame; it faults iff a step before the stop is outside the frame; it never faults inside the frame or in v1.15 |
| PassFacts.FaultAt | sem_v1.py:90-95 | a step before the stop that indexes outside the tables makes the pass fault |
| PassFacts.FirstRowOverrunFaults | sem_v1.py:91-95 | ranges whose first row reaches column R fault at XVals[R] unless stopped first |
| PassFacts.LastRowsOverrunFaults | sem_v1.py:88-90 | ranges reaching row R (columns inside) fault at YVals[R] once the stop allows the (R - yLow)(1 + W) checks of the rows above |
| PassFacts.InsideFramePassEnd | sem_v1.py:88-92 | inside the frame a pass completes when the stop allows every step, and otherwise it is stopped |
| PassFacts.StopMonotone | sem_v1.py:89-92 | clearing the flag later only extends what the pass visits and emits; a pass that did not stop is unaffected |
| PassFacts.PassCalls | sem_v1.py:95-102 | the k-th read returns exactly the value stored at the k-th visited cell, with the version's gain; X writes (and in v1.15 Y writes) follow the visited cells |
| PassFacts.CompletedPassCalls | sem_v1.py:88-102 | a completed pass makes H*W reads and H*W X writes; v1.16 writes YVals[yLow..yHigh] once each, v1.15 makes H*W Y writes |
| CallOrder.Calls15 | sem_v1_15.py:73-78 | the reference v1.15 trace: per cell in turn its X write, its Y write and its read, three calls per cell |
| CallOrder.Calls16 | sem_v1.py:88-99 | the reference v1.16 trace: each row's Y write merged before the X write and read of every pixel of that row or later rows |
| CallOrder.StartedRows | sem_v1.py:88-90 | the rows whose check a pass gets past are yLow, yLow + 1, ... in order, at most H of them |
| CallOrder.EventsOf15 | sem_v1_15.py:67-78 | in v1.15 the calls of any sequence of steps are exactly the reference trace of the cells they visit |
| CallOrder.EventsOf16 | sem_v1.py:88-99 | in v1.16 the calls of steps in pass order are exactly the merge of the Y writes of their row checks with the X-write-then-read pairs of their pixels |
| CallOrder.PassCallOrder15 | sem_v1_15.py:67-81 | the trace of a v1.15 pass, stopped or not, is X, Y, read for each visited cell in turn |
| CallOrder.PassCallOrder16 | sem_v1.py:88-103 | the trace of a v1.16 pass is each started row's Y write, followed by X write then read for each visited cell of that row |
| Activation.Activate | sem_v1.py:86-117 | a thread leaves the flag 0 exactly when it returns; a crashed thread keeps the flag it started with; a single-pass thread completes at most one pass; started with the flag 0 it returns at once |
| Activation.SinglePassOnce | sem_v1.py:86-113 | a record thread (its button is commented out; see above) that is not stopped completes one pass, clears the flag itself and leaves each cell of the ranges holding its sample, with other cells unchanged |
| Activation.InsideFrameNoCrash | sem_v1.py:86-117 | a thread whose ranges lie inside the frame always returns, and the flag is then 0 |
| Activation.ContinuousFrames | sem_v1.py:86-114 | a run thread inside the frame completes one pass per whole block of 1 + T checks, T being the checks of one pass; `Arith.BlocksIsQuotient` shows that this is stop / (1 + T) |
| Activation.ContinuousStep | sem_v1.py:86-114 | each iteration of the run loop completes a pass and continues with T + 1 fewer checks, or is stopped with no pass |
| Activation.FaultedPassCrashes | sem_v1.py:86-95 | a first pass that faults kills the thread before any pass completes, with the flag kept |
| Activation.CrashNeedsOverrun | sem_v1.py:86-117 | a crash happens only with ranges overrunning the frame, and it leaves the flag set |
| Controller.Zeros | sem_v1.py:216-217 | a fresh DataMap is R x R zeros |
| Controller.PresetResolution | sem_v1.py:200-292 | presets 1..4 and only those have a resolution, and it is 64 * 2^n |
| Controller.SetRunScan | sem_v1.py:195-292 | a preset turns the field off, centres the origin at (R-128)/2, zeroes DataMap, sets the flag to -1 and starts a thread; any other n changes nothing |
| Controller.SetRunScanV115 | sem_v1_15.py:142-219 | as in v1.16, but only the flag, resolution and DataMap change |
| Controller.RunButton | sem_v1.py:335-346 | RUN starts a thread exactly from idle; it toggles between idle and -1 and leaves a single pass alone; nothing else changes |
| Controller.RecButton | sem_v1.py:349-364 | the RECORD handler, which no button calls, sets the flag to 1, starting a thread unless a single pass already runs |
| Controller.Restart | sem_v1.py:410-420 | a restart sets the flag to -1 and starts a thread, with everything else unchanged |
| Controller.PfieldToggle | sem_v1.py:401-408 | the toggle flips the field and restarts |
| Controller.MoveNorth | sem_v1.py:436-443 | "^" moves up 64 and restarts exactly when the field is on and yLoc - 64 >= 0; otherwise nothing changes |
| Controller.MoveWest | sem_v1.py:445-451 | "<" moves left 64 and restarts exactly when the field is on and xLoc - 64 >= 0; otherwise nothing changes |
| Controller.MoveEast | sem_v1.py:453-459 | ">" moves right 64 and restarts exactly when the field is on and xLoc + 64 < R; otherwise nothing changes |
| Controller.MoveSouth | sem_v1.py:461-467 | "v" moves down 64 and restarts exactly when the field is on and yLoc + 64 < R; otherwise nothing changes |
| Controller.ThreadBounds | sem_v1.py:72-81 | a v1.16 thread traverses PassBounds of the globals; a v1.15 thread traverses the full frame |
| Controller.ThreadEnv | sem_v1.py:69-70 | both tables are AxisTable(R), fixed when the thread starts |
| Controller.Initial | sem_v1.py:37-49 | the start-up globals (flag 0, R 1024, field off, DataMap zero) satisfy the invariant of either version |
| Controller.Inv | sem_v1.py:200-221 | a state of the invariant has a resolution from 128 to 1024 on the 64-grid, and in v1.16 an origin at least 64 pixels inside each far edge |
| Controller.Launch | sem_v1.py:86-117 | a thread started with the flag 0 returns at once with no call; over the whole frame it always returns with the flag 0; a crash leaves the flag as the handler set it |
| Controller.Settle | sem_v1.py:101-113 | a thread changes only DataMap and the flag |
| Controller.WiredHandlersNeverRecord | sem_v1.py:140-150 | from a state without a single pass, every handler with a button and every thread end leave the flag other than 1 |
| Controller.SetRunScanKeepsInv | sem_v1.py:211-217 | "Scan n" keeps a preset resolution, a square DataMap and an origin on the 64-grid inside the frame |
| Controller.ModeHandlersKeepInv | sem_v1.py:335-364 | RUN, RECORD and a restart keep the invariant |
| Controller.FieldHandlersKeepInv | sem_v1.py:436-467 | the toggle and the four moves keep the origin inside the frame and on the 64-grid |
| Controller.SetRunScanV115KeepsInv | sem_v1_15.py:142-219 | "Scan n" keeps the v1.15 invariant |
| Controller.SettleKeepsInv | sem_v1.py:86-117 | the globals a finished thread leaves still satisfy the invariant |
| Controller.RunButtonTwice | sem_v1.py:335-346 | RUN twice restores the globals and starts a thread exactly once, unless a single pass runs, which RUN ignores |
| Controller.RecButtonTwice | sem_v1.py:349-364 | a second call of the RECORD handler changes nothing and starts nothing |
| Controller.SetRunScanForgets | sem_v1.py:200-221 | after a preset the v1.16 globals do not depend on the old ones, and repeating the preset changes nothing (in both versions) |
| Controller.MoveEastWest | sem_v1.py:445-459 | east then west, and west then east, give back the window |
| Controller.MoveSouthNorth | sem_v1.py:436-467 | south then north, and north then south, give back the window |
| Controller.MovesNeedField | sem_v1.py:436-467 | with the field off, no move changes anything or starts a thread |
| Controller.FrameChecks | sem_v1.py:86-92 | one continuous loop iteration over the full frame makes exactly one `while` check plus the checks of a full-frame pass, more than R^2 |
| Controller.FullFrameThread | sem_v1.py:86-114 | a run thread over the whole frame never crashes and completes one pass per whole block of 1 + R(R+1) checks, i.e. stop / (1 + R(R+1)) passes |
| Controller.SetRunScanThread | sem_v1.py:195-222 | after "Scan n" the new thread keeps the invariant, never crashes and completes one pass per whole block of 1 + R(R+1) checks |
| Controller.SetRunScanV115Thread | sem_v1_15.py:142-163 | the same in v1.15 |
| Controller.EastGuardAdmitsOverrun | sem_v1.py:453-459 | from a window flush with the right edge, ">" still moves, and the window reaches 64 past the frame |
| Controller.WindowRightOverrunCrashes | sem_v1.py:78-95 | a window reaching past the right edge makes its thread crash before any pass completes, with the flag left at -1 |
| Controller.EastEdgeMoveCrashes | sem_v1.py:453-459 | at every resolution, ">" from the right edge launches a thread that crashes |
| Controller.WindowBottomOverrunCrashes | sem_v1.py:80-90 | a window reaching past the bottom edge (columns inside) makes its thread crash with the flag left at -1, once the stop allows the `while` check and the (R - yLoc) * 129 checks of the rows above |
| Controller.SouthEdgeMoveCrashes | sem_v1.py:461-467 | "v" from the bottom edge launches a thread that crashes once the stop allows 1 + 64 * 129 checks |
| Controller.EastMoveReaches | sem_v1.py:211-214 | start-up, "Scan 1", the toggle and ">" give R 128, origin (64, 0), field on, flag -1 |
| Controller.EastMoveCanOverrunFrame | sem_v1.py:453-459 | that sequence launches a thread that crashes at pixel (0, 128) with no pass completed and the flag left at -1 |

## Behaviour of the code worth knowing

- The tables and ranges are computed once per thread start, before the
  `while` (sem_v1.py:69-81). A running thread never sees a later change to
  the resolution or the window.
- A thread that dies on an IndexError leaves `CONT_SCAN` as it was, so the
  flag still says a scan runs. Only a thread that returns leaves it 0.
- East and south test only the new origin against R (sem_v1.py:453-467).
  From a window flush with the right or bottom edge they still move, so
  the window extends 64 pixels past the frame and the next thread crashes
  (Controller.EastGuardAdmitsOverrun, Controller.EastEdgeMoveCrashes,
  Controller.SouthEdgeMoveCrashes).

## Left out

- Device errors and return codes of the NI-DAQ wrapper (`pyNIDAQ.py` is not
  part of this model). Each call is an `Event`, and a read returns the
  supplied sample.
- Threads, `DATALOCK`, `sleep` and the `isAlive` wait loops are left out.
  Handlers run atomically, and a handler that restarts the thread is taken
  to start after the old thread is gone.
- The race in the RECORD handler from -1 is left out; no button calls that
  handler. It clears the flag, sleeps, sets 1 and starts a new thread
  without waiting for the old one.
- GUI drawing is left out (`update_map`, `pfieldmap_redraw`,
  `toggle_map_update`, the `ImgMap` buffer), along with `print` and the
  draw-time measurement.
- `save_image` is left out, since it is file I/O.
- `quit` is left out, since it only clears the flag and ends the GUI.
- `SetRecScan` is left out, because it assigns only local variables and
  axis limits. `RunDwellTime` and `RecDwellTime` are left out because they
  are local or unused.
- The int16 storage of `DataMap` is left out. Samples are unbounded
  integers supplied by the environment.
- AxisCodes.AxisCode computes the table in exact rational arithmetic.
  Floating-point error in numpy's `linspace` is not modelled. For odd R-1 no
  entry is a tie (AxisCodeIsRint), so the rounding does not depend on it.
- Activation.Activate describes a continuous thread only up to a finite
  `stop`. A thread that is never stopped does not terminate, so it has no
  final state.
- Engine.PassReady requires full-frame ranges for v1.15. That version has no
  partial field, so this is the only range it can have, and v1.15 passes
  never fault.
- The single-pass self-stop check (sem_v1.py:110) is not counted in `stop`.
  Whatever it sees, the flag is 0 afterwards in record mode and unchanged in
  run mode.
- Negative window origins cannot be reached. The north and west guards keep
  the origin at or above 0, and Controller.Inv records that.
