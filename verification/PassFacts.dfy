/**
  What one raster pass does, proved about the reference semantics
  `Engine.Pass` (and so, through `Engine.RasterPass`, about the thread's
  loop): which cells it stores into and in what order, how it ends, how a
  later stop only extends it, and which hardware calls it makes on each
  channel in each program version.
 */
module PassFacts {
  import opened Field
  import opened Raster
  import opened Engine

  // ---------------------------------------------------------------------
  // Channels of a trace.

  /** The detector reads of a trace, in order. */
  function ReadsIn(t: seq<Event>): seq<Event>
    decreases |t|
  {
    if t == [] then [] else (if t[0].AnalogIn? then [t[0]] else []) + ReadsIn(t[1..])
  }

  /** The codes written to analog output channel `ch`, in order. */
  function WritesTo(t: seq<Event>, ch: int): seq<int>
    decreases |t|
  {
    if t == [] then []
    else (if t[0].AnalogOut? && t[0].channel == ch then [t[0].code] else []) + WritesTo(t[1..], ch)
  }

  lemma {:induction false} ReadsInAppend(a: seq<Event>, b: seq<Event>)
    ensures ReadsIn(a + b) == ReadsIn(a) + ReadsIn(b)
    decreases |a|
  {
    if a == [] {
      assert a + b == b;
    } else {
      assert (a + b)[0] == a[0];
      assert (a + b)[1..] == a[1..] + b;
      ReadsInAppend(a[1..], b);
    }
  }

  lemma {:induction false} WritesToAppend(a: seq<Event>, b: seq<Event>, ch: int)
    ensures WritesTo(a + b, ch) == WritesTo(a, ch) + WritesTo(b, ch)
    decreases |a|
  {
    if a == [] {
      assert a + b == b;
    } else {
      assert (a + b)[0] == a[0];
      assert (a + b)[1..] == a[1..] + b;
      WritesToAppend(a[1..], b, ch);
    }
  }

  // ---------------------------------------------------------------------
  // What the channels should carry, given the visited cells.

  predicate CellsInFrame(res: int, cs: seq<Cell>)
  {
    forall n :: 0 <= n < |cs| ==> InFrame(res, cs[n])
  }

  predicate RowsInFrame(res: int, rows: seq<int>)
  {
    forall n :: 0 <= n < |rows| ==> 0 <= rows[n] < res
  }

  /** One detector read per cell, returning the cell's sample. */
  function ReadsAt(e: PassEnv, cs: seq<Cell>): (r: seq<Event>)
    ensures |r| == |cs|
    ensures forall n :: 0 <= n < |cs| ==>
      r[n] == AnalogIn(Device, SigChannel, Gain(e.version), e.sample(cs[n].row, cs[n].col))
    decreases |cs|
  {
    if cs == [] then []
    else [AnalogIn(Device, SigChannel, Gain(e.version), e.sample(cs[0].row, cs[0].col))] + ReadsAt(e, cs[1..])
  }

  /** The X code of each cell's column. */
  function XCodesAt(e: PassEnv, cs: seq<Cell>): (r: seq<int>)
    requires ValidEnv(e) && CellsInFrame(e.res, cs)
    ensures |r| == |cs|
    ensures forall n :: 0 <= n < |cs| ==> r[n] == e.xCodes[cs[n].col]
    decreases |cs|
  {
    if cs == [] then [] else [e.xCodes[cs[0].col]] + XCodesAt(e, cs[1..])
  }

  /** The Y code of each cell's row. */
  function YCodesAt(e: PassEnv, cs: seq<Cell>): (r: seq<int>)
    requires ValidEnv(e) && CellsInFrame(e.res, cs)
    ensures |r| == |cs|
    ensures forall n :: 0 <= n < |cs| ==> r[n] == e.yCodes[cs[n].row]
    decreases |cs|
  {
    if cs == [] then [] else [e.yCodes[cs[0].row]] + YCodesAt(e, cs[1..])
  }

  /** The rows whose row check the steps contain, in order. */
  function RowStarts(steps: seq<Step>): seq<int>
    decreases |steps|
  {
    if steps == [] then [] else StepRows(steps[0]) + RowStarts(steps[1..])
  }

  /** The row a single step checks, if any. */
  function StepRows(st: Step): seq<int>
  {
    match st
    case RowStart(j) => [j]
    case Pixel(_, _) => []
  }

  /** The Y code of each row in `rows`. */
  function RowCodes(e: PassEnv, rows: seq<int>): (r: seq<int>)
    requires ValidEnv(e) && RowsInFrame(e.res, rows)
    ensures |r| == |rows|
    ensures forall n :: 0 <= n < |rows| ==> r[n] == e.yCodes[rows[n]]
    decreases |rows|
  {
    if rows == [] then [] else [e.yCodes[rows[0]]] + RowCodes(e, rows[1..])
  }

  lemma {:induction false} RowStartsAppend(a: seq<Step>, b: seq<Step>)
    ensures RowStarts(a + b) == RowStarts(a) + RowStarts(b)
    decreases |a|
  {
    if a == [] {
      assert a + b == b;
    } else {
      assert (a + b)[0] == a[0];
      assert (a + b)[1..] == a[1..] + b;
      RowStartsAppend(a[1..], b);
    }
  }

  lemma {:induction false} PixelRunRowStarts(j: int, lo: int, hi: int)
    requires lo <= hi
    ensures RowStarts(PixelRun(j, lo, hi)) == []
    decreases hi - lo
  {
    if lo < hi {
      PixelRunRowStarts(j, lo, hi - 1);
      RowStartsAppend(PixelRun(j, lo, hi - 1), [Pixel(j, hi - 1)]);
      assert [Pixel(j, hi - 1)][1..] == [];
    }
  }

  /** A pass over rows yLow .. j-1 checks each of those rows once, in increasing order. */
  lemma {:induction false} RowsUpToRowStarts(b: Bounds, j: int)
    requires WellFormed(b) && b.yLow <= j
    ensures |RowStarts(RowsUpTo(b, j))| == j - b.yLow
    ensures forall n :: 0 <= n < j - b.yLow ==> RowStarts(RowsUpTo(b, j))[n] == b.yLow + n
    decreases j - b.yLow
  {
    if j > b.yLow {
      RowsUpToRowStarts(b, j - 1);
      RowStartsAppend(RowsUpTo(b, j - 1), RowSteps(b, j - 1));
      RowStartsAppend([RowStart(j - 1)], PixelRun(j - 1, b.xLow, b.xHigh));
      PixelRunRowStarts(j - 1, b.xLow, b.xHigh);
      assert [RowStart(j - 1)][1..] == [];
    }
  }

  // ---------------------------------------------------------------------
  // Executing steps.

  lemma {:induction false} TailInFrame(res: int, steps: seq<Step>)
    requires steps != [] && AllInFrame(res, steps)
    ensures StepInFrame(res, steps[0]) && AllInFrame(res, steps[1..])
  {
    forall k | 0 <= k < |steps| - 1
      ensures StepInFrame(res, steps[1..][k])
    {
      assert steps[1..][k] == steps[k + 1];
    }
  }

  /** One step appends its cell to the visited list and its hardware calls to the trace. */
  lemma ExecLog(e: PassEnv, s: PassState, st: Step)
    requires ValidEnv(e) && FrameBuffer(s.buffer, e.res) && StepInFrame(e.res, st)
    ensures Exec(e, s, st).visited == s.visited + StepCells(st)
    ensures Exec(e, s, st).trace == s.trace + StepEvents(e, st)
  {
    if st.RowStart? {
      assert s.visited + StepCells(st) == s.visited;
    }
  }

  /** Executing steps appends their cells to the visited list. */
  lemma {:induction false} ExecAllVisited(e: PassEnv, s: PassState, steps: seq<Step>)
    requires ValidEnv(e) && FrameBuffer(s.buffer, e.res) && AllInFrame(e.res, steps)
    ensures ExecAll(e, s, steps).visited == s.visited + PixelsOf(steps)
    decreases |steps|
  {
    if steps != [] {
      TailInFrame(e.res, steps);
      var st, rest := steps[0], steps[1..];
      var s1 := Exec(e, s, st);
      ExecLog(e, s, st);
      ExecAllVisited(e, s1, rest);
      assert ExecAll(e, s, steps) == ExecAll(e, s1, rest);
      assert (s.visited + StepCells(st)) + PixelsOf(rest) == s.visited + (StepCells(st) + PixelsOf(rest));
    }
  }

  /** Executing steps appends their hardware calls to the trace. */
  lemma {:induction false} ExecAllTrace(e: PassEnv, s: PassState, steps: seq<Step>)
    requires ValidEnv(e) && FrameBuffer(s.buffer, e.res) && AllInFrame(e.res, steps)
    ensures ExecAll(e, s, steps).trace == s.trace + EventsOf(e, steps)
    decreases |steps|
  {
    if steps != [] {
      TailInFrame(e.res, steps);
      var st, rest := steps[0], steps[1..];
      var s1 := Exec(e, s, st);
      ExecLog(e, s, st);
      ExecAllTrace(e, s1, rest);
      assert ExecAll(e, s, steps) == ExecAll(e, s1, rest);
      assert (s.trace + StepEvents(e, st)) + EventsOf(e, rest) == s.trace + (StepEvents(e, st) + EventsOf(e, rest));
    }
  }

  /** One step stores its sample at its own cell and leaves every other cell alone. */
  lemma ExecCell(e: PassEnv, s: PassState, st: Step, j: int, i: int)
    requires ValidEnv(e) && FrameBuffer(s.buffer, e.res) && StepInFrame(e.res, st)
    requires 0 <= j < e.res && 0 <= i < e.res
    ensures Exec(e, s, st).buffer[j][i] ==
      (if Cell(j, i) in StepCells(st) then e.sample(j, i) else s.buffer[j][i])
  {
  }

  /** After executing steps, a cell holds its sample if one of them visited it, else its old value. */
  lemma {:induction false} ExecAllCell(e: PassEnv, s: PassState, steps: seq<Step>, j: int, i: int)
    requires ValidEnv(e) && FrameBuffer(s.buffer, e.res) && AllInFrame(e.res, steps)
    requires 0 <= j < e.res && 0 <= i < e.res
    ensures ExecAll(e, s, steps).buffer[j][i] ==
      (if Cell(j, i) in PixelsOf(steps) then e.sample(j, i) else s.buffer[j][i])
    decreases |steps|
  {
    if steps != [] {
      TailInFrame(e.res, steps);
      var s1 := Exec(e, s, steps[0]);
      ExecCell(e, s, steps[0], j, i);
      ExecAllCell(e, s1, steps[1..], j, i);
      assert PixelsOf(steps) == StepCells(steps[0]) + PixelsOf(steps[1..]);
    }
  }

  /**
    Executing steps appends their cells to the visited list and their
    hardware calls to the trace, and stores each visited cell's sample;
    every other entry of DataMap keeps its value.
   */
  lemma ExecAllEffect(e: PassEnv, s: PassState, steps: seq<Step>)
    requires ValidEnv(e) && FrameBuffer(s.buffer, e.res) && AllInFrame(e.res, steps)
    ensures ExecAll(e, s, steps).visited == s.visited + PixelsOf(steps)
    ensures ExecAll(e, s, steps).trace == s.trace + EventsOf(e, steps)
    ensures forall j, i :: 0 <= j < e.res && 0 <= i < e.res ==>
      ExecAll(e, s, steps).buffer[j][i] ==
        (if Cell(j, i) in PixelsOf(steps) then e.sample(j, i) else s.buffer[j][i])
  {
    ExecAllVisited(e, s, steps);
    ExecAllTrace(e, s, steps);
    forall j, i | 0 <= j < e.res && 0 <= i < e.res
      ensures ExecAll(e, s, steps).buffer[j][i] ==
        (if Cell(j, i) in PixelsOf(steps) then e.sample(j, i) else s.buffer[j][i])
    {
      ExecAllCell(e, s, steps, j, i);
    }
  }

  lemma CellsInFrameAppend(res: int, a: seq<Cell>, b: seq<Cell>)
    requires CellsInFrame(res, a) && CellsInFrame(res, b)
    ensures CellsInFrame(res, a + b)
  {
    forall n | 0 <= n < |a + b|
      ensures InFrame(res, (a + b)[n])
    {
      if n >= |a| {
        assert (a + b)[n] == b[n - |a|];
      }
    }
  }

  lemma RowsInFrameAppend(res: int, a: seq<int>, b: seq<int>)
    requires RowsInFrame(res, a) && RowsInFrame(res, b)
    ensures RowsInFrame(res, a + b)
  {
    forall n | 0 <= n < |a + b|
      ensures 0 <= (a + b)[n] < res
    {
      if n >= |a| {
        assert (a + b)[n] == b[n - |a|];
      }
    }
  }

  lemma ReadsAtAppend(e: PassEnv, a: seq<Cell>, b: seq<Cell>)
    ensures ReadsAt(e, a + b) == ReadsAt(e, a) + ReadsAt(e, b)
  {
    var l, r := ReadsAt(e, a + b), ReadsAt(e, a) + ReadsAt(e, b);
    forall n | 0 <= n < |l|
      ensures l[n] == r[n]
    {
      if n >= |a| {
        assert (a + b)[n] == b[n - |a|];
      }
    }
  }

  lemma XCodesAtAppend(e: PassEnv, a: seq<Cell>, b: seq<Cell>)
    requires ValidEnv(e) && CellsInFrame(e.res, a) && CellsInFrame(e.res, b)
    ensures CellsInFrame(e.res, a + b)
    ensures XCodesAt(e, a + b) == XCodesAt(e, a) + XCodesAt(e, b)
  {
    CellsInFrameAppend(e.res, a, b);
    var l, r := XCodesAt(e, a + b), XCodesAt(e, a) + XCodesAt(e, b);
    forall n | 0 <= n < |l|
      ensures l[n] == r[n]
    {
      if n >= |a| {
        assert (a + b)[n] == b[n - |a|];
      }
    }
  }

  lemma YCodesAtAppend(e: PassEnv, a: seq<Cell>, b: seq<Cell>)
    requires ValidEnv(e) && CellsInFrame(e.res, a) && CellsInFrame(e.res, b)
    ensures CellsInFrame(e.res, a + b)
    ensures YCodesAt(e, a + b) == YCodesAt(e, a) + YCodesAt(e, b)
  {
    CellsInFrameAppend(e.res, a, b);
    var l, r := YCodesAt(e, a + b), YCodesAt(e, a) + YCodesAt(e, b);
    forall n | 0 <= n < |l|
      ensures l[n] == r[n]
    {
      if n >= |a| {
        assert (a + b)[n] == b[n - |a|];
      }
    }
  }

  lemma RowCodesAppend(e: PassEnv, a: seq<int>, b: seq<int>)
    requires ValidEnv(e) && RowsInFrame(e.res, a) && RowsInFrame(e.res, b)
    ensures RowsInFrame(e.res, a + b)
    ensures RowCodes(e, a + b) == RowCodes(e, a) + RowCodes(e, b)
  {
    RowsInFrameAppend(e.res, a, b);
    var l, r := RowCodes(e, a + b), RowCodes(e, a) + RowCodes(e, b);
    forall n | 0 <= n < |l|
      ensures l[n] == r[n]
    {
      if n >= |a| {
        assert (a + b)[n] == b[n - |a|];
      }
    }
  }

  /** The hardware calls of a row check, channel by channel. */
  lemma RowStartChannels(e: PassEnv, j: int)
    requires ValidEnv(e) && 0 <= j < e.res
    ensures RowsInFrame(e.res, [j])
    ensures ReadsIn(RowEvents(e, j)) == [] && WritesTo(RowEvents(e, j), XChannel) == []
    ensures WritesTo(RowEvents(e, j), YChannel) == (if e.version == V1_16 then [e.yCodes[j]] else [])
  {
    var here := RowEvents(e, j);
    if e.version == V1_16 {
      assert here[1..] == [];
    } else {
      assert here == [];
    }
  }

  /** The hardware calls of a v1.16 pixel, channel by channel. */
  lemma PixelChannels16(e: PassEnv, j: int, i: int, v: int)
    requires ValidEnv(e) && InFrame(e.res, Cell(j, i)) && e.version == V1_16
    ensures ReadsIn(PixelEvents(e, j, i, v)) == [AnalogIn(Device, SigChannel, 1, v)]
    ensures WritesTo(PixelEvents(e, j, i, v), XChannel) == [e.xCodes[i]]
    ensures WritesTo(PixelEvents(e, j, i, v), YChannel) == []
  {
    var here := PixelEvents(e, j, i, v);
    assert here == [AnalogOut(Device, XChannel, e.xCodes[i]), AnalogIn(Device, SigChannel, 1, v)];
    var t1 := here[1..];
    assert t1 == [AnalogIn(Device, SigChannel, 1, v)] && t1[1..] == [];
    assert ReadsIn(t1) == [AnalogIn(Device, SigChannel, 1, v)];
    assert WritesTo(t1, XChannel) == [];
    assert WritesTo(t1, YChannel) == [];
  }

  /** The hardware calls of a v1.15 pixel, channel by channel. */
  lemma PixelChannels15(e: PassEnv, j: int, i: int, v: int)
    requires ValidEnv(e) && InFrame(e.res, Cell(j, i)) && e.version == V1_15
    ensures ReadsIn(PixelEvents(e, j, i, v)) == [AnalogIn(Device, SigChannel, 10, v)]
    ensures WritesTo(PixelEvents(e, j, i, v), XChannel) == [e.xCodes[i]]
    ensures WritesTo(PixelEvents(e, j, i, v), YChannel) == [e.yCodes[j]]
  {
    var here := PixelEvents(e, j, i, v);
    assert here == [AnalogOut(Device, XChannel, e.xCodes[i]), AnalogOut(Device, YChannel, e.yCodes[j]),
                    AnalogIn(Device, SigChannel, 10, v)];
    var t1 := here[1..];
    var t2 := t1[1..];
    assert t2[1..] == [];
    assert ReadsIn(t2) == [AnalogIn(Device, SigChannel, 10, v)];
    assert ReadsIn(t1) == ReadsIn(t2);
    assert WritesTo(t2, XChannel) == [] && WritesTo(t2, YChannel) == [];
    assert WritesTo(t1, XChannel) == [] && WritesTo(t1, YChannel) == [e.yCodes[j]];
  }

  /** The hardware calls of one in-frame step, channel by channel. */
  lemma StepChannels(e: PassEnv, st: Step)
    requires ValidEnv(e) && StepInFrame(e.res, st)
    ensures CellsInFrame(e.res, StepCells(st)) && RowsInFrame(e.res, StepRows(st))
    ensures ReadsIn(StepEvents(e, st)) == ReadsAt(e, StepCells(st))
    ensures WritesTo(StepEvents(e, st), XChannel) == XCodesAt(e, StepCells(st))
    ensures e.version == V1_15 ==> WritesTo(StepEvents(e, st), YChannel) == YCodesAt(e, StepCells(st))
    ensures e.version == V1_16 ==> WritesTo(StepEvents(e, st), YChannel) == RowCodes(e, StepRows(st))
  {
    match st
    case RowStart(j) =>
      RowStartChannels(e, j);
    case Pixel(j, i) =>
      if e.version == V1_16 {
        PixelChannels16(e, j, i, e.sample(j, i));
      } else {
        PixelChannels15(e, j, i, e.sample(j, i));
      }
  }

  /** In-frame steps visit in-frame cells and check in-frame rows. */
  lemma {:induction false} StepsInFrame(e: PassEnv, steps: seq<Step>)
    requires ValidEnv(e) && AllInFrame(e.res, steps)
    ensures CellsInFrame(e.res, PixelsOf(steps))
    ensures RowsInFrame(e.res, RowStarts(steps))
    decreases |steps|
  {
    if steps != [] {
      TailInFrame(e.res, steps);
      StepsInFrame(e, steps[1..]);
      StepChannels(e, steps[0]);
      CellsInFrameAppend(e.res, StepCells(steps[0]), PixelsOf(steps[1..]));
      RowsInFrameAppend(e.res, StepRows(steps[0]), RowStarts(steps[1..]));
    }
  }

  /** One detector read per visited cell, returning its sample. */
  lemma {:induction false} StepsReads(e: PassEnv, steps: seq<Step>)
    requires ValidEnv(e) && AllInFrame(e.res, steps)
    ensures ReadsIn(EventsOf(e, steps)) == ReadsAt(e, PixelsOf(steps))
    decreases |steps|
  {
    if steps != [] {
      TailInFrame(e.res, steps);
      StepsReads(e, steps[1..]);
      StepChannels(e, steps[0]);
      ReadsInAppend(StepEvents(e, steps[0]), EventsOf(e, steps[1..]));
      ReadsAtAppend(e, StepCells(steps[0]), PixelsOf(steps[1..]));
    }
  }

  /** One X write per visited cell, with the code of its column. */
  lemma {:induction false} StepsXWrites(e: PassEnv, steps: seq<Step>)
    requires ValidEnv(e) && AllInFrame(e.res, steps)
    ensures CellsInFrame(e.res, PixelsOf(steps))
    ensures WritesTo(EventsOf(e, steps), XChannel) == XCodesAt(e, PixelsOf(steps))
    decreases |steps|
  {
    if steps != [] {
      TailInFrame(e.res, steps);
      StepsXWrites(e, steps[1..]);
      StepChannels(e, steps[0]);
      WritesToAppend(StepEvents(e, steps[0]), EventsOf(e, steps[1..]), XChannel);
      XCodesAtAppend(e, StepCells(steps[0]), PixelsOf(steps[1..]));
    }
  }

  /** In v1.15, one Y write per visited cell, with the code of its row. */
  lemma {:induction false} StepsYWrites(e: PassEnv, steps: seq<Step>)
    requires ValidEnv(e) && AllInFrame(e.res, steps) && e.version == V1_15
    ensures CellsInFrame(e.res, PixelsOf(steps))
    ensures WritesTo(EventsOf(e, steps), YChannel) == YCodesAt(e, PixelsOf(steps))
    decreases |steps|
  {
    if steps != [] {
      TailInFrame(e.res, steps);
      StepsYWrites(e, steps[1..]);
      StepChannels(e, steps[0]);
      WritesToAppend(StepEvents(e, steps[0]), EventsOf(e, steps[1..]), YChannel);
      YCodesAtAppend(e, StepCells(steps[0]), PixelsOf(steps[1..]));
    }
  }

  /** In v1.16, one Y write per row check, with the code of that row. */
  lemma {:induction false} StepsRowWrites(e: PassEnv, steps: seq<Step>)
    requires ValidEnv(e) && AllInFrame(e.res, steps) && e.version == V1_16
    ensures RowsInFrame(e.res, RowStarts(steps))
    ensures WritesTo(EventsOf(e, steps), YChannel) == RowCodes(e, RowStarts(steps))
    decreases |steps|
  {
    if steps != [] {
      TailInFrame(e.res, steps);
      StepsRowWrites(e, steps[1..]);
      StepChannels(e, steps[0]);
      WritesToAppend(StepEvents(e, steps[0]), EventsOf(e, steps[1..]), YChannel);
      RowCodesAppend(e, StepRows(steps[0]), RowStarts(steps[1..]));
    }
  }

  /**
    The hardware calls of in-frame steps, channel by channel: one read per
    visited cell returning its sample; one X write per visited cell; and one
    Y write per visited cell in v1.15 but one per row check in v1.16.
   */
  lemma EventsOfChannels(e: PassEnv, steps: seq<Step>)
    requires ValidEnv(e) && AllInFrame(e.res, steps)
    ensures CellsInFrame(e.res, PixelsOf(steps))
    ensures RowsInFrame(e.res, RowStarts(steps))
    ensures ReadsIn(EventsOf(e, steps)) == ReadsAt(e, PixelsOf(steps))
    ensures WritesTo(EventsOf(e, steps), XChannel) == XCodesAt(e, PixelsOf(steps))
    ensures e.version == V1_15 ==> WritesTo(EventsOf(e, steps), YChannel) == YCodesAt(e, PixelsOf(steps))
    ensures e.version == V1_16 ==> WritesTo(EventsOf(e, steps), YChannel) == RowCodes(e, RowStarts(steps))
  {
    StepsInFrame(e, steps);
    StepsReads(e, steps);
    StepsXWrites(e, steps);
    if e.version == V1_15 {
      StepsYWrites(e, steps);
    } else {
      StepsRowWrites(e, steps);
    }
  }

  // ---------------------------------------------------------------------
  // One pass.

  lemma {:induction false} PixelsOfLength(s: seq<Step>)
    ensures |PixelsOf(s)| <= |s|
    decreases |s|
  {
    if s != [] {
      PixelsOfLength(s[1..]);
    }
  }

  lemma RowMajorPrefix(a: seq<Cell>, b: seq<Cell>)
    requires a <= b && RowMajor(b)
    ensures RowMajor(a)
  {
    forall p, q | 0 <= p < q < |a|
      ensures Before(a[p], a[q])
    {
      assert a[p] == b[p] && a[q] == b[q];
    }
  }

  lemma {:induction false} EventsOfPrefix(e: PassEnv, s: seq<Step>, n: nat)
    requires ValidEnv(e) && AllInFrame(e.res, s) && n <= |s|
    ensures AllInFrame(e.res, s[..n])
    ensures EventsOf(e, s[..n]) <= EventsOf(e, s)
    decreases n
  {
    if n > 0 {
      TailInFrame(e.res, s);
      assert s[..n][0] == s[0];
      assert s[..n][1..] == s[1..][..n - 1];
      EventsOfPrefix(e, s[1..], n - 1);
    }
  }

  /** The steps a pass executes lie in the frame. */
  lemma ExecutedInFrame(res: int, sched: seq<Step>, stop: nat)
    ensures AllInFrame(res, sched[..HorizonFrom(res, sched, stop, 0)])
  {
    var h := HorizonFrom(res, sched, stop, 0);
    forall k | 0 <= k < h
      ensures StepInFrame(res, sched[..h][k])
    {
      assert sched[..h][k] == sched[k];
    }
  }

  /** The state a pass ends in is the effect of the steps it executes. */
  lemma PassState0(e: PassEnv, b: Bounds, buf: seq<seq<int>>, stop: nat)
    requires PassReady(e, b, buf)
    ensures AllInFrame(e.res, Schedule(b)[..HorizonFrom(e.res, Schedule(b), stop, 0)])
    ensures Pass(e, b, buf, stop).state.visited == PixelsOf(Schedule(b)[..HorizonFrom(e.res, Schedule(b), stop, 0)])
    ensures Pass(e, b, buf, stop).state.trace == EventsOf(e, Schedule(b)[..HorizonFrom(e.res, Schedule(b), stop, 0)])
  {
    var sched := Schedule(b);
    var h := HorizonFrom(e.res, sched, stop, 0);
    ExecutedInFrame(e.res, sched, stop);
    ExecAllEffect(e, PassState(buf, [], []), sched[..h]);
  }

  /**
    The cells a pass visits lie in the frame and in the traversal ranges,
    come in row-major order, form a prefix of the full visiting order and
    number at most `stop`; a completed pass has visited every cell of the
    ranges.
   */
  lemma PassVisits(e: PassEnv, b: Bounds, buf: seq<seq<int>>, stop: nat)
    requires PassReady(e, b, buf)
    ensures Pass(e, b, buf, stop).state.visited <= PixelsOf(Schedule(b))
    ensures RowMajor(Pass(e, b, buf, stop).state.visited)
    ensures forall c :: c in Pass(e, b, buf, stop).state.visited ==> InBounds(b, c) && InFrame(e.res, c)
    ensures |Pass(e, b, buf, stop).state.visited| <= stop
    ensures Pass(e, b, buf, stop).end == Completed ==>
      forall c :: c in Pass(e, b, buf, stop).state.visited <==> InBounds(b, c)
  {
    PassVisitsOrder(e, b, buf, stop);
    PassVisitsWithin(e, b, buf, stop);
    if Pass(e, b, buf, stop).end == Completed {
      PassVisitsAll(e, b, buf, stop);
    }
  }

  lemma PassVisitsOrder(e: PassEnv, b: Bounds, buf: seq<seq<int>>, stop: nat)
    requires PassReady(e, b, buf)
    ensures Pass(e, b, buf, stop).state.visited <= PixelsOf(Schedule(b))
    ensures RowMajor(Pass(e, b, buf, stop).state.visited)
    ensures |Pass(e, b, buf, stop).state.visited| <= stop
  {
    var sched := Schedule(b);
    var h := HorizonFrom(e.res, sched, stop, 0);
    PassState0(e, b, buf, stop);
    PixelsOfPrefix(sched, h);
    ScheduleVisitsBounds(b);
    RowMajorPrefix(Pass(e, b, buf, stop).state.visited, PixelsOf(sched));
    PixelsOfLength(sched[..h]);
  }

  lemma PassVisitsWithin(e: PassEnv, b: Bounds, buf: seq<seq<int>>, stop: nat)
    requires PassReady(e, b, buf)
    ensures forall c :: c in Pass(e, b, buf, stop).state.visited ==> InBounds(b, c) && InFrame(e.res, c)
  {
    var sched := Schedule(b);
    var h := HorizonFrom(e.res, sched, stop, 0);
    var visited := Pass(e, b, buf, stop).state.visited;
    PassState0(e, b, buf, stop);
    PixelsOfPrefix(sched, h);
    ScheduleVisitsBounds(b);
    StepsInFrame(e, sched[..h]);
    forall c | c in visited
      ensures InBounds(b, c) && InFrame(e.res, c)
    {
      var n :| 0 <= n < |visited| && visited[n] == c;
      assert PixelsOf(sched)[n] == c;
    }
  }

  lemma PassVisitsAll(e: PassEnv, b: Bounds, buf: seq<seq<int>>, stop: nat)
    requires PassReady(e, b, buf) && Pass(e, b, buf, stop).end == Completed
    ensures forall c :: c in Pass(e, b, buf, stop).state.visited <==> InBounds(b, c)
  {
    var sched := Schedule(b);
    PassState0(e, b, buf, stop);
    assert sched[..|sched|] == sched;
    ScheduleVisitsBounds(b);
  }

  /**
    A pass stores into DataMap exactly at the cells it visits, each getting
    its sample, and leaves every other entry as it was.
   */
  lemma PassStores(e: PassEnv, b: Bounds, buf: seq<seq<int>>, stop: nat)
    requires PassReady(e, b, buf)
    ensures forall j, i :: 0 <= j < e.res && 0 <= i < e.res ==>
      Pass(e, b, buf, stop).state.buffer[j][i] ==
        (if Cell(j, i) in Pass(e, b, buf, stop).state.visited then e.sample(j, i) else buf[j][i])
  {
    var sched := Schedule(b);
    var h := HorizonFrom(e.res, sched, stop, 0);
    ExecutedInFrame(e.res, sched, stop);
    ExecAllEffect(e, PassState(buf, [], []), sched[..h]);
  }

  /**
    How a pass ends: it completes exactly when the stop comes no earlier
    than the end of the schedule and every step lies in the frame; it
    faults exactly when some step before the stop indexes outside the
    frame.  A pass whose ranges lie inside the frame never faults, so the
    v1.15 pass, which always covers the whole frame, never does.
   */
  lemma PassEnds(e: PassEnv, b: Bounds, buf: seq<seq<int>>, stop: nat)
    requires PassReady(e, b, buf)
    ensures Pass(e, b, buf, stop).end == Completed <==>
      |Schedule(b)| <= stop && AllInFrame(e.res, Schedule(b))
    ensures Pass(e, b, buf, stop).end == Faulted <==>
      exists m :: 0 <= m < |Schedule(b)| && m < stop && !StepInFrame(e.res, Schedule(b)[m])
    ensures InsideFrame(b, e.res) ==> Pass(e, b, buf, stop).end != Faulted
    ensures e.version == V1_15 ==> Pass(e, b, buf, stop).end != Faulted
  {
    var sched := Schedule(b);
    var h := HorizonFrom(e.res, sched, stop, 0);
    if Pass(e, b, buf, stop).end == Faulted {
      assert 0 <= h < |sched| && h < stop && !StepInFrame(e.res, sched[h]);
    }
    if InsideFrame(b, e.res) {
      ScheduleWithin(b);
      forall m | 0 <= m < |sched|
        ensures StepInFrame(e.res, sched[m])
      {
        assert StepWithin(b, sched[m]);
      }
    }
  }

  /** A step before the stop that indexes outside the frame makes the pass fault. */
  lemma FaultAt(e: PassEnv, b: Bounds, buf: seq<seq<int>>, stop: nat, m: nat)
    requires PassReady(e, b, buf)
    requires m < |Schedule(b)| && m < stop && !StepInFrame(e.res, Schedule(b)[m])
    ensures Pass(e, b, buf, stop).end == Faulted
  {
    assert HorizonFrom(e.res, Schedule(b), stop, 0) <= m;
  }

  /**
    A pass whose first row runs past the right edge of the frame faults
    at the first pixel outside it, unless the flag is cleared before.
   */
  lemma FirstRowOverrunFaults(e: PassEnv, b: Bounds, buf: seq<seq<int>>, stop: nat)
    requires PassReady(e, b, buf) && b.yLow < b.yHigh && b.yLow < e.res
    requires b.xLow <= e.res < b.xHigh && stop > 1 + e.res - b.xLow
    ensures Pass(e, b, buf, stop).end == Faulted
  {
    var m := 1 + (e.res - b.xLow);
    assert RowsUpTo(b, b.yLow) == [];
    RowStepsInSchedule(b, b.yLow);
    ExtendsAt(RowsUpTo(b, b.yLow), RowSteps(b, b.yLow), Schedule(b), m);
    RowStepsPixel(b, b.yLow, e.res);
    FaultAt(e, b, buf, stop, m);
  }

  /**
    A pass whose rows run past the bottom edge of the frame, with its
    columns inside it, faults at the row check of row res, which comes
    after the (res - yLow) * (1 + W) checks of the rows above, unless the
    flag is cleared before.
   */
  lemma LastRowsOverrunFaults(e: PassEnv, b: Bounds, buf: seq<seq<int>>, stop: nat)
    requires PassReady(e, b, buf) && b.yLow <= e.res < b.yHigh && b.xHigh <= e.res
    requires stop > (e.res - b.yLow) * (1 + b.xHigh - b.xLow)
    ensures Pass(e, b, buf, stop).end == Faulted
  {
    RowsUpToLength(b, e.res);
    RowStepsInSchedule(b, e.res);
    ExtendsAt(RowsUpTo(b, e.res), RowSteps(b, e.res), Schedule(b), 0);
    FaultAt(e, b, buf, stop, |RowsUpTo(b, e.res)|);
  }

  /** Inside the frame a pass completes when the stop allows all its steps and is stopped otherwise. */
  lemma InsideFramePassEnd(e: PassEnv, b: Bounds, buf: seq<seq<int>>, stop: nat)
    requires PassReady(e, b, buf) && InsideFrame(b, e.res)
    ensures Pass(e, b, buf, stop).end == if |Schedule(b)| <= stop then Completed else Stopped
  {
    PassEnds(e, b, buf, stop);
    if |Schedule(b)| <= stop {
      ScheduleWithin(b);
      assert forall m :: 0 <= m < |Schedule(b)| ==> StepWithin(b, Schedule(b)[m]);
    }
  }

  lemma {:induction false} HorizonMonotone(res: int, steps: seq<Step>, stop: nat, stop': nat, k: nat)
    requires k <= |steps| && stop <= stop'
    ensures HorizonFrom(res, steps, stop, k) <= HorizonFrom(res, steps, stop', k)
    ensures HorizonFrom(res, steps, stop, k) < stop ==>
      HorizonFrom(res, steps, stop', k) == HorizonFrom(res, steps, stop, k)
    decreases |steps| - k
  {
    if k < |steps| && k < stop && StepInFrame(res, steps[k]) {
      HorizonMonotone(res, steps, stop, stop', k + 1);
    }
  }

  /**
    Clearing the flag later only lets the pass go further: what an earlier
    stop visits and emits is a prefix of what a later one does, and a pass
    that completed or faulted on its own is not changed by a later stop.
   */
  lemma StopMonotone(e: PassEnv, b: Bounds, buf: seq<seq<int>>, stop: nat, stop': nat)
    requires PassReady(e, b, buf) && stop <= stop'
    ensures Pass(e, b, buf, stop).state.visited <= Pass(e, b, buf, stop').state.visited
    ensures Pass(e, b, buf, stop).state.trace <= Pass(e, b, buf, stop').state.trace
    ensures Pass(e, b, buf, stop).end != Stopped ==> Pass(e, b, buf, stop') == Pass(e, b, buf, stop)
  {
    var sched := Schedule(b);
    var h := HorizonFrom(e.res, sched, stop, 0);
    var h' := HorizonFrom(e.res, sched, stop', 0);
    HorizonMonotone(e.res, sched, stop, stop', 0);
    ExecutedInFrame(e.res, sched, stop);
    ExecutedInFrame(e.res, sched, stop');
    var pre := sched[..h];
    var pre' := sched[..h'];
    assert pre'[..h] == pre;
    var s0 := PassState(buf, [], []);
    ExecAllEffect(e, s0, pre);
    ExecAllEffect(e, s0, pre');
    PixelsOfPrefix(pre', h);
    EventsOfPrefix(e, pre', h);
  }

  /**
    The hardware calls of a pass, channel by channel: one detector read per
    visited cell, with the version's gain, returning exactly the value then
    stored at that cell; one X write per visited cell with its column's
    code; in v1.15 one Y write per visited cell with its row's code.
   */
  lemma PassCalls(e: PassEnv, b: Bounds, buf: seq<seq<int>>, stop: nat)
    requires PassReady(e, b, buf)
    ensures CellsInFrame(e.res, Pass(e, b, buf, stop).state.visited)
    ensures |ReadsIn(Pass(e, b, buf, stop).state.trace)| == |Pass(e, b, buf, stop).state.visited|
    ensures forall n :: 0 <= n < |Pass(e, b, buf, stop).state.visited| ==>
      var c := Pass(e, b, buf, stop).state.visited[n];
      ReadsIn(Pass(e, b, buf, stop).state.trace)[n] ==
        AnalogIn(Device, SigChannel, Gain(e.version), Pass(e, b, buf, stop).state.buffer[c.row][c.col])
    ensures WritesTo(Pass(e, b, buf, stop).state.trace, XChannel) ==
      XCodesAt(e, Pass(e, b, buf, stop).state.visited)
    ensures e.version == V1_15 ==>
      WritesTo(Pass(e, b, buf, stop).state.trace, YChannel) == YCodesAt(e, Pass(e, b, buf, stop).state.visited)
  {
    var sched := Schedule(b);
    var pre := sched[..HorizonFrom(e.res, sched, stop, 0)];
    PassState0(e, b, buf, stop);
    StepsInFrame(e, pre);
    StepsReads(e, pre);
    StepsXWrites(e, pre);
    if e.version == V1_15 {
      StepsYWrites(e, pre);
    }
    PassStores(e, b, buf, stop);
    var r := Pass(e, b, buf, stop);
    forall n | 0 <= n < |r.state.visited|
      ensures ReadsIn(r.state.trace)[n] ==
        AnalogIn(Device, SigChannel, Gain(e.version), r.state.buffer[r.state.visited[n].row][r.state.visited[n].col])
    {
      var c := r.state.visited[n];
      assert c in r.state.visited;
    }
  }

  /**
    A completed pass over H rows of W columns makes H * W reads and H * W
    X writes; v1.16 writes the Y code of each row once, in row order,
    while v1.15 writes a Y code at each of the H * W pixels.
   */
  lemma CompletedPassCalls(e: PassEnv, b: Bounds, buf: seq<seq<int>>, stop: nat)
    requires PassReady(e, b, buf) && Pass(e, b, buf, stop).end == Completed
    ensures b.yLow < b.yHigh ==> b.yHigh <= e.res
    ensures |ReadsIn(Pass(e, b, buf, stop).state.trace)| == (b.yHigh - b.yLow) * (b.xHigh - b.xLow)
    ensures |WritesTo(Pass(e, b, buf, stop).state.trace, XChannel)| == (b.yHigh - b.yLow) * (b.xHigh - b.xLow)
    ensures e.version == V1_15 ==>
      |WritesTo(Pass(e, b, buf, stop).state.trace, YChannel)| == (b.yHigh - b.yLow) * (b.xHigh - b.xLow)
    ensures e.version == V1_16 ==>
      WritesTo(Pass(e, b, buf, stop).state.trace, YChannel) ==
        (if b.yLow < b.yHigh then e.yCodes[b.yLow..b.yHigh] else [])
  {
    var sched := Schedule(b);
    PassEnds(e, b, buf, stop);
    PassState0(e, b, buf, stop);
    assert sched[..|sched|] == sched;
    var t := Pass(e, b, buf, stop).state.trace;
    assert t == EventsOf(e, sched);
    EventsOfChannels(e, sched);
    ScheduleCellCount(b);
    ScheduleRowCodes(e, b);
  }

  lemma RowCodesOfRange(e: PassEnv, rows: seq<int>, lo: int, hi: int)
    requires ValidEnv(e) && 0 <= lo <= hi <= e.res
    requires |rows| == hi - lo && forall n :: 0 <= n < |rows| ==> rows[n] == lo + n
    ensures RowsInFrame(e.res, rows)
    ensures RowCodes(e, rows) == e.yCodes[lo..hi]
  {
    var codes := RowCodes(e, rows);
    assert |codes| == |e.yCodes[lo..hi]|;
    forall n | 0 <= n < |codes|
      ensures codes[n] == e.yCodes[lo..hi][n]
    {
    }
  }

  /** The row checks of a whole pass carry the Y codes of rows yLow .. yHigh-1. */
  lemma ScheduleRowCodes(e: PassEnv, b: Bounds)
    requires ValidEnv(e) && WellFormed(b) && AllInFrame(e.res, Schedule(b))
    ensures b.yLow < b.yHigh ==> b.yHigh <= e.res
    ensures RowsInFrame(e.res, RowStarts(Schedule(b)))
    ensures RowCodes(e, RowStarts(Schedule(b))) == (if b.yLow < b.yHigh then e.yCodes[b.yLow..b.yHigh] else [])
  {
    RowsUpToRowStarts(b, b.yHigh);
    if b.yLow < b.yHigh {
      ScheduleRowStart(b, b.yHigh - 1);
      assert StepInFrame(e.res, Schedule(b)[|RowsUpTo(b, b.yHigh - 1)|]);
      RowCodesOfRange(e, RowStarts(Schedule(b)), b.yLow, b.yHigh);
    }
  }
}
