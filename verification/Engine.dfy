/**
  One raster pass of the scan generator thread (`ScanGenerator.run`), as
  sequential logic.

  The hardware is abstract: an analog output write and an analog input read
  become `Event`s appended to a trace, and the value a read returns for
  pixel (j, i) is `sample(j, i)`.  The cooperative stop is the number
  `stop` of flag checks that still see the flag set: the check with index
  `stop` (counting from 0) is the first to see 0, and since only the
  controller sets the flag again, every later check sees 0 too.

  `Pass` is the reference semantics: the steps of `Raster.Schedule` are
  executed in order up to the first one that is stopped or would index
  outside the code tables.  `RasterPass` is the source's nested loop, proved
  to compute exactly `Pass`.
 */
module Engine {
  import opened Field
  import opened Raster

  /** The two program versions differ in the per-pixel I/O protocol. */
  datatype Version = V1_15 | V1_16

  /** DAQPAD-1200 wiring: device 1, X and Y outputs on channels 0 and 1, detector on input 0. */
  const Device: int := 1
  const XChannel: int := 0
  const YChannel: int := 1
  const SigChannel: int := 0

  /** Gain of the detector read: 1 in v1.16, 10 in v1.15. */
  function Gain(v: Version): int
  {
    match v
    case V1_16 => 1
    case V1_15 => 10
  }

  datatype Event =
    | AnalogOut(device: int, channel: int, code: int)
    | AnalogIn(device: int, channel: int, gain: int, value: int)

  /** What one activation fixes before its first pass. */
  datatype PassEnv = PassEnv(version: Version, res: nat, xCodes: seq<int>, yCodes: seq<int>,
                             sample: (int, int) -> int)

  predicate ValidEnv(e: PassEnv)
  {
    |e.xCodes| == e.res && |e.yCodes| == e.res
  }

  /** DataMap: `res` rows of `res` samples. */
  predicate FrameBuffer(buf: seq<seq<int>>, res: nat)
  {
    |buf| == res && forall j :: 0 <= j < res ==> |buf[j]| == res
  }

  /** The v1.15 thread always traverses the whole frame. */
  predicate PassReady(e: PassEnv, b: Bounds, buf: seq<seq<int>>)
  {
    ValidEnv(e) && WellFormed(b) && FrameBuffer(buf, e.res) &&
    (e.version == V1_15 ==> b == FullFrame(e.res))
  }

  datatype PassState = PassState(buffer: seq<seq<int>>, trace: seq<Event>, visited: seq<Cell>)

  /** How a pass ends: all steps done, a check saw the flag cleared, or an IndexError. */
  datatype PassEnd = Completed | Stopped | Faulted

  datatype PassResult = PassResult(state: PassState, end: PassEnd)

  /** The step indexes only existing entries of the code tables and of DataMap. */
  predicate StepInFrame(res: int, st: Step)
  {
    match st
    case RowStart(j) => 0 <= j < res
    case Pixel(j, i) => InFrame(res, Cell(j, i))
  }

  predicate AllInFrame(res: int, steps: seq<Step>)
  {
    forall k :: 0 <= k < |steps| ==> StepInFrame(res, steps[k])
  }

  /** Output written when row j starts: the Y code in v1.16, nothing in v1.15. */
  function RowEvents(e: PassEnv, j: int): (r: seq<Event>)
    requires ValidEnv(e) && 0 <= j < e.res
    ensures r != [] <==> e.version == V1_16
    ensures forall k :: 0 <= k < |r| ==> r[k] == AnalogOut(Device, YChannel, e.yCodes[j])
  {
    match e.version
    case V1_16 => [AnalogOut(Device, YChannel, e.yCodes[j])]
    case V1_15 => []
  }

  /**
    Hardware calls for pixel (j, i) that reads `value`: the X code and one
    read in v1.16; the X code, the Y code and one read in v1.15.
   */
  function PixelEvents(e: PassEnv, j: int, i: int, value: int): (r: seq<Event>)
    requires ValidEnv(e) && InFrame(e.res, Cell(j, i))
    ensures |r| == (if e.version == V1_16 then 2 else 3)
    ensures r[0] == AnalogOut(Device, XChannel, e.xCodes[i])
    ensures r[|r| - 1] == AnalogIn(Device, SigChannel, Gain(e.version), value)
    ensures e.version == V1_15 ==> r[1] == AnalogOut(Device, YChannel, e.yCodes[j])
  {
    match e.version
    case V1_16 => [AnalogOut(Device, XChannel, e.xCodes[i]),
                   AnalogIn(Device, SigChannel, Gain(e.version), value)]
    case V1_15 => [AnalogOut(Device, XChannel, e.xCodes[i]),
                   AnalogOut(Device, YChannel, e.yCodes[j]),
                   AnalogIn(Device, SigChannel, Gain(e.version), value)]
  }

  /**
    Hardware calls for one step: all go to the one device; a row start
    reads nothing, a pixel ends with the one read of its own sample.
   */
  function StepEvents(e: PassEnv, st: Step): (r: seq<Event>)
    requires ValidEnv(e) && StepInFrame(e.res, st)
    ensures forall k :: 0 <= k < |r| ==> r[k].device == Device
    ensures st.RowStart? ==> forall k :: 0 <= k < |r| ==> r[k].AnalogOut?
    ensures st.Pixel? ==> r != [] && r[|r| - 1] == AnalogIn(Device, SigChannel, Gain(e.version), e.sample(st.j, st.i))
    ensures st.Pixel? ==> forall k :: 0 <= k < |r| - 1 ==> r[k].AnalogOut?
  {
    match st
    case RowStart(j) => RowEvents(e, j)
    case Pixel(j, i) => PixelEvents(e, j, i, e.sample(j, i))
  }

  function EventsOf(e: PassEnv, steps: seq<Step>): seq<Event>
    requires ValidEnv(e) && AllInFrame(e.res, steps)
    decreases |steps|
  {
    if steps == [] then [] else StepEvents(e, steps[0]) + EventsOf(e, steps[1..])
  }

  /** Executing one step: its hardware calls, and for a pixel the store into DataMap[j, i]. */
  function Exec(e: PassEnv, s: PassState, st: Step): (r: PassState)
    requires ValidEnv(e) && FrameBuffer(s.buffer, e.res) && StepInFrame(e.res, st)
    ensures FrameBuffer(r.buffer, e.res)
  {
    match st
    case RowStart(j) => s.(trace := s.trace + RowEvents(e, j))
    case Pixel(j, i) =>
      var v := e.sample(j, i);
      PassState(s.buffer[j := s.buffer[j][i := v]], s.trace + PixelEvents(e, j, i, v),
                s.visited + [Cell(j, i)])
  }

  function ExecAll(e: PassEnv, s: PassState, steps: seq<Step>): (r: PassState)
    requires ValidEnv(e) && FrameBuffer(s.buffer, e.res) && AllInFrame(e.res, steps)
    ensures FrameBuffer(r.buffer, e.res)
    decreases |steps|
  {
    if steps == [] then s else ExecAll(e, Exec(e, s, steps[0]), steps[1..])
  }

  /**
    The number of steps a pass executes when it resumes at step k: it stops
    at the first step whose check sees the cleared flag or whose indices
    fall outside the frame.
   */
  function HorizonFrom(res: int, steps: seq<Step>, stop: nat, k: nat): (h: nat)
    requires k <= |steps|
    ensures k <= h <= |steps|
    ensures h == k || h <= stop
    ensures forall m :: k <= m < h ==> StepInFrame(res, steps[m])
    ensures h < |steps| ==> h >= stop || !StepInFrame(res, steps[h])
    decreases |steps| - k
  {
    if k == |steps| || k >= stop || !StepInFrame(res, steps[k]) then k
    else HorizonFrom(res, steps, stop, k + 1)
  }

  /** The reference semantics of one pass. */
  function Pass(e: PassEnv, b: Bounds, buf: seq<seq<int>>, stop: nat): (r: PassResult)
    requires PassReady(e, b, buf)
    ensures FrameBuffer(r.state.buffer, e.res)
  {
    var sched := Schedule(b);
    var h := HorizonFrom(e.res, sched, stop, 0);
    var s := ExecAll(e, PassState(buf, [], []), sched[..h]);
    PassResult(s, if h == |sched| then Completed else if h >= stop then Stopped else Faulted)
  }

  // ---------------------------------------------------------------------
  // The imperative pass.

  lemma ExecAllSnoc(e: PassEnv, s: PassState, steps: seq<Step>, st: Step)
    requires ValidEnv(e) && FrameBuffer(s.buffer, e.res)
    requires AllInFrame(e.res, steps) && StepInFrame(e.res, st)
    ensures AllInFrame(e.res, steps + [st])
    ensures ExecAll(e, s, steps + [st]) == Exec(e, ExecAll(e, s, steps), st)
    decreases |steps|
  {
    if steps == [] {
      assert [st][1..] == [];
    } else {
      assert (steps + [st])[1..] == steps[1..] + [st];
      ExecAllSnoc(e, Exec(e, s, steps[0]), steps[1..], st);
    }
  }

  /**
    The loop invariant of the imperative pass: `st` is the state after the
    first k steps of the schedule, all of which lie in the frame, and the
    pass has not halted before step k.
   */
  ghost predicate Executed(e: PassEnv, b: Bounds, buf: seq<seq<int>>, stop: nat, k: nat, st: PassState)
    requires PassReady(e, b, buf)
  {
    var sched := Schedule(b);
    k <= |sched| && AllInFrame(e.res, sched[..k]) &&
    st == ExecAll(e, PassState(buf, [], []), sched[..k]) &&
    HorizonFrom(e.res, sched, stop, 0) == HorizonFrom(e.res, sched, stop, k)
  }

  lemma ExecutedStart(e: PassEnv, b: Bounds, buf: seq<seq<int>>, stop: nat)
    requires PassReady(e, b, buf)
    ensures Executed(e, b, buf, stop, 0, PassState(buf, [], []))
  {
    assert Schedule(b)[..0] == [];
  }

  /** Executing step k of the schedule extends the executed prefix by one step. */
  lemma Advance(e: PassEnv, b: Bounds, buf: seq<seq<int>>, stop: nat, k: nat, st: PassState)
    requires PassReady(e, b, buf) && Executed(e, b, buf, stop, k, st)
    requires k < |Schedule(b)| && k < stop && StepInFrame(e.res, Schedule(b)[k])
    ensures FrameBuffer(st.buffer, e.res)
    ensures Executed(e, b, buf, stop, k + 1, Exec(e, st, Schedule(b)[k]))
  {
    var sched := Schedule(b);
    assert sched[..k + 1] == sched[..k] + [sched[k]];
    ExecAllSnoc(e, PassState(buf, [], []), sched[..k], sched[k]);
  }

  /** A pass that halts at step k has executed exactly the steps before k. */
  lemma HaltAt(e: PassEnv, b: Bounds, buf: seq<seq<int>>, stop: nat, k: nat, st: PassState)
    requires PassReady(e, b, buf) && Executed(e, b, buf, stop, k, st)
    requires k < |Schedule(b)| && (k >= stop || !StepInFrame(e.res, Schedule(b)[k]))
    ensures Pass(e, b, buf, stop) == PassResult(st, if k >= stop then Stopped else Faulted)
  {
  }

  /** A pass that reaches the end of the schedule has completed it. */
  lemma FinishAt(e: PassEnv, b: Bounds, buf: seq<seq<int>>, stop: nat, k: nat, st: PassState)
    requires PassReady(e, b, buf) && Executed(e, b, buf, stop, k, st)
    requires k == |Schedule(b)|
    ensures Pass(e, b, buf, stop) == PassResult(st, Completed)
  {
    assert Schedule(b)[..k] == Schedule(b);
  }

  /** The check of row j comes right after the steps of the rows before it. */
  lemma AdvanceRow(e: PassEnv, b: Bounds, buf: seq<seq<int>>, stop: nat, j: int, st: PassState)
    requires PassReady(e, b, buf) && b.yLow <= j < b.yHigh
    requires Executed(e, b, buf, stop, |RowsUpTo(b, j)|, st)
    requires |RowsUpTo(b, j)| < stop && j < e.res
    ensures FrameBuffer(st.buffer, e.res)
    ensures Executed(e, b, buf, stop, PixelIndex(b, j, b.xLow), st.(trace := st.trace + RowEvents(e, j)))
  {
    ScheduleRowStart(b, j);
    Advance(e, b, buf, stop, |RowsUpTo(b, j)|, st);
  }

  /** Pixel (j, i) is the step at PixelIndex(b, j, i). */
  lemma AdvancePixel(e: PassEnv, b: Bounds, buf: seq<seq<int>>, stop: nat, j: int, i: int, st: PassState)
    requires PassReady(e, b, buf) && b.yLow <= j < b.yHigh && b.xLow <= i < b.xHigh
    requires Executed(e, b, buf, stop, PixelIndex(b, j, i), st)
    requires PixelIndex(b, j, i) < stop && j < e.res && i < e.res
    ensures FrameBuffer(st.buffer, e.res)
    ensures Executed(e, b, buf, stop, PixelIndex(b, j, i) + 1,
                     PassState(st.buffer[j := st.buffer[j][i := e.sample(j, i)]],
                               st.trace + PixelEvents(e, j, i, e.sample(j, i)),
                               st.visited + [Cell(j, i)]))
  {
    SchedulePixel(b, j, i);
    Advance(e, b, buf, stop, PixelIndex(b, j, i), st);
  }

  lemma HaltRow(e: PassEnv, b: Bounds, buf: seq<seq<int>>, stop: nat, j: int, st: PassState)
    requires PassReady(e, b, buf) && b.yLow <= j < b.yHigh
    requires Executed(e, b, buf, stop, |RowsUpTo(b, j)|, st)
    requires |RowsUpTo(b, j)| >= stop || j >= e.res
    ensures Pass(e, b, buf, stop) == PassResult(st, if |RowsUpTo(b, j)| >= stop then Stopped else Faulted)
  {
    ScheduleRowStart(b, j);
    HaltAt(e, b, buf, stop, |RowsUpTo(b, j)|, st);
  }

  lemma HaltPixel(e: PassEnv, b: Bounds, buf: seq<seq<int>>, stop: nat, j: int, i: int, st: PassState)
    requires PassReady(e, b, buf) && b.yLow <= j < b.yHigh && b.xLow <= i < b.xHigh
    requires Executed(e, b, buf, stop, PixelIndex(b, j, i), st)
    requires PixelIndex(b, j, i) >= stop || j >= e.res || i >= e.res
    ensures Pass(e, b, buf, stop) == PassResult(st, if PixelIndex(b, j, i) >= stop then Stopped else Faulted)
  {
    SchedulePixel(b, j, i);
    HaltAt(e, b, buf, stop, PixelIndex(b, j, i), st);
  }

  /** After its last pixel, row j is followed by the check of row j + 1. */
  lemma RowDone(b: Bounds, j: int)
    requires WellFormed(b) && b.yLow <= j
    ensures PixelIndex(b, j, b.xHigh) == |RowsUpTo(b, j + 1)|
  {
    assert RowsUpTo(b, j + 1) == RowsUpTo(b, j) + RowSteps(b, j);
  }

  /**
    The inner loop of `ScanGenerator.run` over the pixels of row j: for
    each pixel, check the flag, write the output, read one sample and store
    it at [j, i].  An index outside the X table raises IndexError.
   */
  method ScanRow(e: PassEnv, b: Bounds, buf: seq<seq<int>>, stop: nat, j: int,
                 st0: PassState, checks0: nat)
    returns (st: PassState, checks: nat, end: PassEnd)
    requires PassReady(e, b, buf) && b.yLow <= j < b.yHigh && j < e.res
    requires checks0 == PixelIndex(b, j, b.xLow) && Executed(e, b, buf, stop, checks0, st0)
    ensures end == Completed ==> checks == |RowsUpTo(b, j + 1)| && Executed(e, b, buf, stop, checks, st)
    ensures end != Completed ==> Pass(e, b, buf, stop) == PassResult(st, end)
  {
    var buffer, trace, visited := st0.buffer, st0.trace, st0.visited;
    checks := checks0;
    var i := b.xLow;
    while i < b.xHigh
      invariant b.xLow <= i <= b.xHigh
      invariant checks == PixelIndex(b, j, i)
      invariant Executed(e, b, buf, stop, checks, PassState(buffer, trace, visited))
      decreases b.xHigh - i
    {
      if checks >= stop {
        HaltPixel(e, b, buf, stop, j, i, PassState(buffer, trace, visited));
        return PassState(buffer, trace, visited), checks, Stopped;  // the pixel check saw the cleared flag
      }
      if i >= e.res {
        HaltPixel(e, b, buf, stop, j, i, PassState(buffer, trace, visited));
        return PassState(buffer, trace, visited), checks, Faulted;  // XVals[i]
      }
      AdvancePixel(e, b, buf, stop, j, i, PassState(buffer, trace, visited));
      var value := e.sample(j, i);
      trace := trace + PixelEvents(e, j, i, value);
      buffer := buffer[j := buffer[j][i := value]];
      visited := visited + [Cell(j, i)];
      checks := checks + 1;
      i := i + 1;
    }
    RowDone(b, j);
    st, end := PassState(buffer, trace, visited), Completed;
  }

  /**
    The nested loop of `ScanGenerator.run`: for each row, check the flag and
    write the row's output, then scan the row's pixels.  An index outside
    the code tables raises IndexError, which ends the pass (and the thread).
   */
  method RasterPass(e: PassEnv, b: Bounds, buf: seq<seq<int>>, stop: nat)
    returns (out: PassState, end: PassEnd)
    requires PassReady(e, b, buf)
    ensures PassResult(out, end) == Pass(e, b, buf, stop)
  {
    var buffer := buf;
    var trace: seq<Event> := [];
    var visited: seq<Cell> := [];
    var checks: nat := 0;  // flag checks made so far, all of which saw the flag set
    var j := b.yLow;
    ExecutedStart(e, b, buf, stop);
    while j < b.yHigh
      invariant b.yLow <= j <= b.yHigh
      invariant checks == |RowsUpTo(b, j)|
      invariant Executed(e, b, buf, stop, checks, PassState(buffer, trace, visited))
      decreases b.yHigh - j
    {
      if checks >= stop {
        HaltRow(e, b, buf, stop, j, PassState(buffer, trace, visited));
        return PassState(buffer, trace, visited), Stopped;  // the row check saw the cleared flag
      }
      if j >= e.res {
        HaltRow(e, b, buf, stop, j, PassState(buffer, trace, visited));
        return PassState(buffer, trace, visited), Faulted;  // YVals[j]
      }
      AdvanceRow(e, b, buf, stop, j, PassState(buffer, trace, visited));
      trace := trace + RowEvents(e, j);
      checks := checks + 1;
      var st;
      st, checks, end := ScanRow(e, b, buf, stop, j, PassState(buffer, trace, visited), checks);
      buffer, trace, visited := st.buffer, st.trace, st.visited;
      if end != Completed {
        return st, end;  // the next row check would see the cleared flag, or the thread has died
      }
      j := j + 1;
    }
    FinishAt(e, b, buf, stop, checks, PassState(buffer, trace, visited));
    out, end := PassState(buffer, trace, visited), Completed;
  }
}
