/**
  The order of the hardware calls of a pass across all channels, given as
  reference traces built from the visited cells alone (and, in v1.16, the
  rows whose check the pass got past), independently of the per-step
  protocol in `Engine`.

  - v1.15: per pixel the X code, then the Y code, then one read with gain 10.
  - v1.16: per row one Y write, before the X write and read (gain 1) of
    each pixel of that row, and before every call of the later rows.
 */
module CallOrder {
  import opened Field
  import opened Raster
  import opened Engine
  import opened PassFacts

  // ---------------------------------------------------------------------
  // Reference traces.

  /** v1.15: for each cell in turn, X code, Y code, read with gain 10. */
  function Calls15(e: PassEnv, cs: seq<Cell>): (t: seq<Event>)
    requires ValidEnv(e) && CellsInFrame(e.res, cs)
    ensures |t| == 3 * |cs|
    decreases |cs|
  {
    if cs == [] then []
    else [AnalogOut(Device, XChannel, e.xCodes[cs[0].col]),
          AnalogOut(Device, YChannel, e.yCodes[cs[0].row]),
          AnalogIn(Device, SigChannel, 10, e.sample(cs[0].row, cs[0].col))] + Calls15(e, cs[1..])
  }

  /**
    v1.16: the Y writes of `rows` merged with the X write and read (gain 1)
    of each cell, a row's Y write going before every cell of that row or a
    later one, and a cell going before the Y writes of later rows.
   */
  function Calls16(e: PassEnv, rows: seq<int>, cs: seq<Cell>): (t: seq<Event>)
    requires ValidEnv(e) && RowsInFrame(e.res, rows) && CellsInFrame(e.res, cs)
    ensures |t| == |rows| + 2 * |cs|
    decreases |rows| + |cs|
  {
    if rows != [] && (cs == [] || rows[0] <= cs[0].row) then
      [AnalogOut(Device, YChannel, e.yCodes[rows[0]])] + Calls16(e, rows[1..], cs)
    else if cs != [] then
      [AnalogOut(Device, XChannel, e.xCodes[cs[0].col]),
       AnalogIn(Device, SigChannel, 1, e.sample(cs[0].row, cs[0].col))] + Calls16(e, rows, cs[1..])
    else []
  }

  // ---------------------------------------------------------------------
  // The order of steps in a pass.

  /** A row's check comes before its pixels, and a pixel before the checks of later rows. */
  predicate StepBefore(a: Step, b: Step)
  {
    match a
    case RowStart(j) => b.Pixel? ==> j <= b.j
    case Pixel(j, _) => b.RowStart? ==> j < b.j
  }

  predicate StepOrdered(s: seq<Step>)
  {
    forall p, q :: 0 <= p < q < |s| ==> StepBefore(s[p], s[q])
  }

  /** Every step of `s` belongs to a row below m. */
  predicate RowsBelow(s: seq<Step>, m: int)
  {
    forall k :: 0 <= k < |s| ==> s[k].j < m
  }

  lemma OrderedAppend(a: seq<Step>, b: seq<Step>, m: int)
    requires StepOrdered(a) && StepOrdered(b) && RowsBelow(a, m)
    requires forall k :: 0 <= k < |b| ==> b[k].j >= m
    ensures StepOrdered(a + b)
  {
    var s := a + b;
    forall p, q | 0 <= p < q < |s|
      ensures StepBefore(s[p], s[q])
    {
      if q < |a| {
        assert s[p] == a[p] && s[q] == a[q];
      } else if p >= |a| {
        assert s[p] == b[p - |a|] && s[q] == b[q - |a|];
      } else {
        assert s[p] == a[p] && s[q] == b[q - |a|];
      }
    }
  }

  lemma RowStepsOrdered(b: Bounds, j: int)
    requires WellFormed(b)
    ensures StepOrdered(RowSteps(b, j))
    ensures forall k :: 0 <= k < |RowSteps(b, j)| ==> RowSteps(b, j)[k].j == j
  {
    var s := RowSteps(b, j);
    var run := PixelRun(j, b.xLow, b.xHigh);
    forall k | 0 <= k < |s|
      ensures s[k].j == j && (k > 0 ==> s[k].Pixel?)
    {
      if k > 0 {
        assert s[k] == run[k - 1];
      }
    }
  }

  /** The steps of the rows before j come in pass order and belong to rows below j. */
  lemma {:induction false} RowsUpToOrdered(b: Bounds, j: int)
    requires WellFormed(b) && b.yLow <= j
    ensures StepOrdered(RowsUpTo(b, j)) && RowsBelow(RowsUpTo(b, j), j)
    decreases j - b.yLow
  {
    if j > b.yLow {
      RowsUpToOrdered(b, j - 1);
      RowStepsOrdered(b, j - 1);
      OrderedAppend(RowsUpTo(b, j - 1), RowSteps(b, j - 1), j - 1);
      var s := RowsUpTo(b, j);
      forall k | 0 <= k < |s|
        ensures s[k].j < j
      {
        if k < |RowsUpTo(b, j - 1)| {
          assert s[k] == RowsUpTo(b, j - 1)[k];
        } else {
          assert s[k] == RowSteps(b, j - 1)[k - |RowsUpTo(b, j - 1)|];
        }
      }
    }
  }

  lemma OrderedPrefix(s: seq<Step>, n: nat)
    requires StepOrdered(s) && n <= |s|
    ensures StepOrdered(s[..n])
  {
    forall p, q | 0 <= p < q < n
      ensures StepBefore(s[..n][p], s[..n][q])
    {
      assert s[..n][p] == s[p] && s[..n][q] == s[q];
    }
  }

  lemma OrderedTail(s: seq<Step>)
    requires StepOrdered(s) && s != []
    ensures StepOrdered(s[1..])
  {
    forall p, q | 0 <= p < q < |s| - 1
      ensures StepBefore(s[1..][p], s[1..][q])
    {
      assert s[1..][p] == s[p + 1] && s[1..][q] == s[q + 1];
    }
  }

  /** The first visited cell of `s` comes from one of its steps. */
  lemma {:induction false} FirstPixel(s: seq<Step>) returns (q: nat)
    requires PixelsOf(s) != []
    ensures q < |s| && s[q] == Pixel(PixelsOf(s)[0].row, PixelsOf(s)[0].col)
    decreases |s|
  {
    if s[0].Pixel? {
      q := 0;
    } else {
      var q' := FirstPixel(s[1..]);
      q := q' + 1;
    }
  }

  /** The first row checked in `s` comes from one of its steps. */
  lemma {:induction false} FirstRow(s: seq<Step>) returns (q: nat)
    requires RowStarts(s) != []
    ensures q < |s| && s[q] == RowStart(RowStarts(s)[0])
    decreases |s|
  {
    if s[0].RowStart? {
      q := 0;
    } else {
      var q' := FirstRow(s[1..]);
      q := q' + 1;
    }
  }

  // ---------------------------------------------------------------------
  // Executed steps against the reference traces.

  lemma {:induction false} EventsOf15(e: PassEnv, steps: seq<Step>)
    requires ValidEnv(e) && e.version == V1_15 && AllInFrame(e.res, steps)
    ensures CellsInFrame(e.res, PixelsOf(steps))
    ensures EventsOf(e, steps) == Calls15(e, PixelsOf(steps))
    decreases |steps|
  {
    StepsInFrame(e, steps);
    if steps != [] {
      TailInFrame(e.res, steps);
      EventsOf15(e, steps[1..]);
      match steps[0]
      case RowStart(_) =>
        assert PixelsOf(steps) == PixelsOf(steps[1..]);
        assert EventsOf(e, steps) == EventsOf(e, steps[1..]);
      case Pixel(j, i) =>
        var cs := PixelsOf(steps[1..]);
        assert PixelsOf(steps) == [Cell(j, i)] + cs;
        assert ([Cell(j, i)] + cs)[1..] == cs;
        assert EventsOf(e, steps) == PixelEvents(e, j, i, e.sample(j, i)) + EventsOf(e, steps[1..]);
    }
  }

  /** In ordered steps, a leading row check comes before every later pixel's row. */
  lemma HeadRowBefore(steps: seq<Step>)
    requires StepOrdered(steps) && steps != [] && steps[0].RowStart?
    ensures PixelsOf(steps[1..]) == [] || steps[0].j <= PixelsOf(steps[1..])[0].row
  {
    if PixelsOf(steps[1..]) != [] {
      var q := FirstPixel(steps[1..]);
      assert steps[q + 1] == steps[1..][q];
      assert StepBefore(steps[0], steps[q + 1]);
    }
  }

  /** In ordered steps, a leading pixel comes before the checks of every later row. */
  lemma HeadPixelBefore(steps: seq<Step>)
    requires StepOrdered(steps) && steps != [] && steps[0].Pixel?
    ensures RowStarts(steps[1..]) == [] || steps[0].j < RowStarts(steps[1..])[0]
  {
    if RowStarts(steps[1..]) != [] {
      var q := FirstRow(steps[1..]);
      assert steps[q + 1] == steps[1..][q];
      assert StepBefore(steps[0], steps[q + 1]);
    }
  }

  lemma {:induction false} EventsOf16(e: PassEnv, steps: seq<Step>)
    requires ValidEnv(e) && e.version == V1_16 && AllInFrame(e.res, steps) && StepOrdered(steps)
    ensures CellsInFrame(e.res, PixelsOf(steps)) && RowsInFrame(e.res, RowStarts(steps))
    ensures EventsOf(e, steps) == Calls16(e, RowStarts(steps), PixelsOf(steps))
    decreases |steps|
  {
    StepsInFrame(e, steps);
    if steps != [] {
      TailInFrame(e.res, steps);
      OrderedTail(steps);
      EventsOf16(e, steps[1..]);
      var rows := RowStarts(steps[1..]);
      var cs := PixelsOf(steps[1..]);
      match steps[0]
      case RowStart(j) =>
        HeadRowBefore(steps);
        assert RowStarts(steps) == [j] + rows && PixelsOf(steps) == cs;
        Calls16Row(e, j, rows, cs);
      case Pixel(j, i) =>
        HeadPixelBefore(steps);
        assert RowStarts(steps) == rows && PixelsOf(steps) == [Cell(j, i)] + cs;
        Calls16Pixel(e, rows, Cell(j, i), cs);
    }
  }

  /** A row whose Y write comes first in the merge. */
  lemma Calls16Row(e: PassEnv, j: int, rows: seq<int>, cs: seq<Cell>)
    requires ValidEnv(e) && 0 <= j < e.res && RowsInFrame(e.res, [j] + rows) && CellsInFrame(e.res, cs)
    requires cs == [] || j <= cs[0].row
    ensures RowsInFrame(e.res, rows)
    ensures Calls16(e, [j] + rows, cs) == [AnalogOut(Device, YChannel, e.yCodes[j])] + Calls16(e, rows, cs)
  {
    assert ([j] + rows)[0] == j && ([j] + rows)[1..] == rows;
  }

  /** A cell whose calls come first in the merge. */
  lemma Calls16Pixel(e: PassEnv, rows: seq<int>, c: Cell, cs: seq<Cell>)
    requires ValidEnv(e) && InFrame(e.res, c) && RowsInFrame(e.res, rows) && CellsInFrame(e.res, [c] + cs)
    requires rows == [] || c.row < rows[0]
    ensures CellsInFrame(e.res, cs)
    ensures Calls16(e, rows, [c] + cs) ==
      [AnalogOut(Device, XChannel, e.xCodes[c.col]), AnalogIn(Device, SigChannel, 1, e.sample(c.row, c.col))] +
      Calls16(e, rows, cs)
  {
    assert ([c] + cs)[0] == c && ([c] + cs)[1..] == cs;
  }

  // ---------------------------------------------------------------------
  // Whole passes.

  /** The steps a pass executes come in pass order. */
  lemma ExecutedOrdered(e: PassEnv, b: Bounds, stop: nat)
    requires WellFormed(b)
    ensures StepOrdered(Schedule(b)[..HorizonFrom(e.res, Schedule(b), stop, 0)])
  {
    RowsUpToOrdered(b, b.yHigh);
    OrderedPrefix(Schedule(b), HorizonFrom(e.res, Schedule(b), stop, 0));
  }

  /**
    The rows whose check a pass gets past: yLow, yLow + 1, ... in order,
    at most one per row of the ranges.
   */
  function StartedRows(e: PassEnv, b: Bounds, stop: nat): (rows: seq<int>)
    requires WellFormed(b)
    ensures |rows| <= b.yHigh - b.yLow
    ensures forall n :: 0 <= n < |rows| ==> rows[n] == b.yLow + n
  {
    var sched := Schedule(b);
    var h := HorizonFrom(e.res, sched, stop, 0);
    assert sched == sched[..h] + sched[h..];
    RowStartsAppend(sched[..h], sched[h..]);
    RowsUpToRowStarts(b, b.yHigh);
    var all := RowStarts(sched);
    var rows := RowStarts(sched[..h]);
    assert forall n :: 0 <= n < |rows| ==> rows[n] == all[n];
    rows
  }

  /** v1.15: a pass makes, for each visited cell in turn, its X write, its Y write and its read. */
  lemma PassCallOrder15(e: PassEnv, b: Bounds, buf: seq<seq<int>>, stop: nat)
    requires PassReady(e, b, buf) && e.version == V1_15
    ensures CellsInFrame(e.res, Pass(e, b, buf, stop).state.visited)
    ensures Pass(e, b, buf, stop).state.trace == Calls15(e, Pass(e, b, buf, stop).state.visited)
  {
    PassState0(e, b, buf, stop);
    EventsOf15(e, Schedule(b)[..HorizonFrom(e.res, Schedule(b), stop, 0)]);
  }

  /**
    v1.16: a pass writes the Y code of each row it starts, then the X
    write and read of each pixel of that row it visits, row after row.
   */
  lemma PassCallOrder16(e: PassEnv, b: Bounds, buf: seq<seq<int>>, stop: nat)
    requires PassReady(e, b, buf) && e.version == V1_16
    ensures RowsInFrame(e.res, StartedRows(e, b, stop))
    ensures CellsInFrame(e.res, Pass(e, b, buf, stop).state.visited)
    ensures Pass(e, b, buf, stop).state.trace ==
      Calls16(e, StartedRows(e, b, stop), Pass(e, b, buf, stop).state.visited)
  {
    PassState0(e, b, buf, stop);
    ExecutedOrdered(e, b, stop);
    EventsOf16(e, Schedule(b)[..HorizonFrom(e.res, Schedule(b), stop, 0)]);
  }
}
