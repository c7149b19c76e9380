/**
  The GUI side of the scan engine: the button handlers that change the
  mode flag, the resolution, DataMap and the partial-field window, and
  that start new scan threads.

  Handlers run one at a time.  A handler that stops the running thread
  (clears the flag and waits until the thread is gone) and starts a new one
  is a `Reaction` with `start` set: the state is what the new thread finds
  when it starts, and `Launch` gives the activation that then runs.
  Redrawing and printing are left out.
 */
module Controller {
  import opened Arith
  import opened AxisCodes
  import opened Field
  import opened Raster
  import opened Engine
  import opened PassFacts
  import opened ScanMode
  import opened Activation

  /** The globals that the handlers and the scan thread share. */
  datatype State = State(mode: Mode, res: nat, pfieldOn: bool, xLoc: int, yLoc: int, buffer: seq<seq<int>>)

  /** A handler's effect: the new globals, and whether a new scan thread was started. */
  datatype Reaction = Reaction(state: State, start: bool)

  /** A DataMap of `res` x `res` zeros. */
  function Zeros(res: nat): (buf: seq<seq<int>>)
    ensures FrameBuffer(buf, res)
    ensures forall j, i :: 0 <= j < res && 0 <= i < res ==> buf[j][i] == 0
  {
    seq(res, _ => seq(res, _ => 0))
  }

  /** The resolution of run-scan preset n (buttons "Scan 1" .. "Scan 4"). */
  function PresetResolution(n: int): (r: Option<nat>)
    ensures r.Some? <==> 1 <= n <= 4
    ensures r.Some? ==> r.value == 64 * Pow2(n)
  {
    if n == 1 then Some(128)
    else if n == 2 then Some(256)
    else if n == 3 then Some(512)
    else if n == 4 then Some(1024)
    else None
  }

  function Pow2(n: nat): nat
  {
    if n == 0 then 1 else 2 * Pow2(n - 1)
  }

  predicate IsPreset(res: int)
  {
    res == 128 || res == 256 || res == 512 || res == 1024
  }

  /**
    The program's start-up globals: no scan, the largest preset, the
    partial field off with its origin centred, DataMap all zeros.  They
    satisfy the invariant of either version.
   */
  function Initial(): (r: State)
    ensures Inv(V1_16, r) && Inv(V1_15, r)
    ensures r.mode == Idle && r.res == 1024 && !r.pfieldOn
    ensures forall j, i :: 0 <= j < 1024 && 0 <= i < 1024 ==> r.buffer[j][i] == 0
  {
    State(Idle, 1024, false, (1024 - PFieldSize) / 2, (1024 - PFieldSize) / 2, Zeros(1024))
  }

  /**
    What every reachable state of version v satisfies: a preset
    resolution and a square DataMap of that size; in v1.16 a window origin
    inside the frame on the grid of half-window steps (the window itself
    may reach past the frame); v1.15 has no partial field at all.
   */
  predicate Inv(v: Version, s: State): (ok: bool)
    ensures ok ==> PFieldSize <= s.res <= 1024 && s.res % PFieldStep == 0
    ensures ok && v == V1_16 ==> s.xLoc + PFieldStep <= s.res && s.yLoc + PFieldStep <= s.res
  {
    IsPreset(s.res) && FrameBuffer(s.buffer, s.res) &&
    match v
    case V1_16 =>
      0 <= s.xLoc < s.res && 0 <= s.yLoc < s.res &&
      s.xLoc % PFieldStep == 0 && s.yLoc % PFieldStep == 0
    case V1_15 => !s.pfieldOn
  }

  // ---------------------------------------------------------------------
  // Handlers.

  /**
    "Scan n" in v1.16: for a preset n, switch the partial field off, stop
    the thread, set the resolution, centre the window origin, zero DataMap
    and start a continuous scan.  Any other n changes nothing.
   */
  function SetRunScan(s: State, n: int): (r: Reaction)
    ensures r.start <==> PresetResolution(n).Some?
    ensures r.start ==>
      r.state.mode == Continuous && !r.state.pfieldOn &&
      r.state.res == PresetResolution(n).value &&
      r.state.xLoc == r.state.yLoc == (r.state.res - PFieldSize) / 2 &&
      r.state.buffer == Zeros(r.state.res)
    ensures !r.start ==> r.state == s
  {
    match PresetResolution(n)
    case None => Reaction(s, false)
    case Some(res) =>
      var loc := (res - PFieldSize) / 2;
      Reaction(State(Continuous, res, false, loc, loc, Zeros(res)), true)
  }

  /** "Scan n" in v1.15: as in v1.16, but there is no partial field, so the window globals are not touched. */
  function SetRunScanV115(s: State, n: int): (r: Reaction)
    ensures r.start <==> PresetResolution(n).Some?
    ensures r.start ==> r.state == s.(mode := Continuous, res := PresetResolution(n).value,
                                      buffer := Zeros(PresetResolution(n).value))
    ensures !r.start ==> r.state == s
  {
    match PresetResolution(n)
    case None => Reaction(s, false)
    case Some(res) => Reaction(s.(mode := Continuous, res := res, buffer := Zeros(res)), true)
  }

  /** RUN: idle starts a continuous scan, a continuous scan is stopped, a single pass is left alone. */
  function RunButton(s: State): (r: Reaction)
    ensures r.start <==> s.mode == Idle
    ensures r.state == s.(mode := r.state.mode)
    ensures Flag(r.state.mode) == (if s.mode == Idle then -1 else if s.mode == Continuous then 0 else Flag(s.mode))
  {
    match s.mode
    case Idle => Reaction(s.(mode := Continuous), true)
    case Continuous => Reaction(s.(mode := Idle), false)
    case SinglePass => Reaction(s, false)
  }

  /**
    RECORD: idle or a continuous scan (after clearing the flag) start a
    single pass; a single pass already running is left alone.  The button
    that calls this handler is commented out in both versions.
   */
  function RecButton(s: State): (r: Reaction)
    ensures r.start <==> s.mode != SinglePass
    ensures r.state == s.(mode := SinglePass)
  {
    match s.mode
    case Idle => Reaction(s.(mode := SinglePass), true)
    case Continuous => Reaction(s.(mode := SinglePass), true)
    case SinglePass => Reaction(s, false)
  }

  /** `scangen_restart`: stop the thread and start a continuous scan with the current globals. */
  function Restart(s: State): (r: Reaction)
    ensures r.start && r.state == s.(mode := Continuous)
  {
    Reaction(s.(mode := Continuous), true)
  }

  /** "Partial On/Off": flip the partial field and restart, whatever the mode was. */
  function PfieldToggle(s: State): (r: Reaction)
    ensures r.start && r.state == s.(mode := Continuous, pfieldOn := !s.pfieldOn)
  {
    Restart(s.(pfieldOn := !s.pfieldOn))
  }

  /** "^": with the field on and room above, move the window up half a window and restart. */
  function MoveNorth(s: State): (r: Reaction)
    ensures r.start <==> s.pfieldOn && s.yLoc - PFieldStep >= 0
    ensures r.start ==> r.state == s.(mode := Continuous, yLoc := s.yLoc - PFieldStep)
    ensures !r.start ==> r.state == s
  {
    if s.pfieldOn && s.yLoc - PFieldStep >= 0 then Restart(s.(yLoc := s.yLoc - PFieldStep))
    else Reaction(s, false)
  }

  /** "<": with the field on and room to the left, move the window left and restart. */
  function MoveWest(s: State): (r: Reaction)
    ensures r.start <==> s.pfieldOn && s.xLoc - PFieldStep >= 0
    ensures r.start ==> r.state == s.(mode := Continuous, xLoc := s.xLoc - PFieldStep)
    ensures !r.start ==> r.state == s
  {
    if s.pfieldOn && s.xLoc - PFieldStep >= 0 then Restart(s.(xLoc := s.xLoc - PFieldStep))
    else Reaction(s, false)
  }

  /**
    ">": with the field on, move the window right and restart, provided
    the new origin is still inside the frame (the window may then overrun it).
   */
  function MoveEast(s: State): (r: Reaction)
    ensures r.start <==> s.pfieldOn && s.xLoc + PFieldStep < s.res
    ensures r.start ==> r.state == s.(mode := Continuous, xLoc := s.xLoc + PFieldStep)
    ensures !r.start ==> r.state == s
  {
    if s.pfieldOn && s.xLoc + PFieldStep < s.res then Restart(s.(xLoc := s.xLoc + PFieldStep))
    else Reaction(s, false)
  }

  /** "v": with the field on, move the window down and restart, provided the new origin is inside the frame. */
  function MoveSouth(s: State): (r: Reaction)
    ensures r.start <==> s.pfieldOn && s.yLoc + PFieldStep < s.res
    ensures r.start ==> r.state == s.(mode := Continuous, yLoc := s.yLoc + PFieldStep)
    ensures !r.start ==> r.state == s
  {
    if s.pfieldOn && s.yLoc + PFieldStep < s.res then Restart(s.(yLoc := s.yLoc + PFieldStep))
    else Reaction(s, false)
  }

  // ---------------------------------------------------------------------
  // Starting a thread.

  /** The ranges a new thread of version v traverses in state s; v1.15 has no partial field. */
  function ThreadBounds(v: Version, s: State): (b: Bounds)
    requires Inv(v, s)
    ensures WellFormed(b)
    ensures v == V1_15 ==> b == FullFrame(s.res)
    ensures v == V1_16 ==> b == PassBounds(s.res, s.pfieldOn, s.xLoc, s.yLoc)
  {
    if v == V1_16 then PassBounds(s.res, s.pfieldOn, s.xLoc, s.yLoc) else FullFrame(s.res)
  }

  /**
    The thread that a start launches in state s: both code tables and the
    ranges are computed once, from the globals as they are at the start.
   */
  function ThreadEnv(v: Version, s: State, samples: nat -> ((int, int) -> int)): (a: ActEnv)
    requires Inv(v, s)
    ensures ActReady(a, ThreadBounds(v, s), s.buffer)
    ensures a.xCodes == AxisTable(s.res) && a.yCodes == AxisTable(s.res) && a.res == s.res
  {
    AxisTableProperties(s.res);
    ActEnv(v, s.res, AxisTable(s.res), AxisTable(s.res), samples)
  }

  /**
    The activation launched in state s, with the flag the handler left.
    With the flag 0 the thread returns at once; a thread over the whole
    frame always returns, with the flag 0; one that crashes leaves the
    flag as the handler set it.
   */
  function Launch(v: Version, s: State, samples: nat -> ((int, int) -> int), stop: nat): (o: Outcome)
    requires Inv(v, s)
    ensures FrameBuffer(o.buffer, s.res)
    ensures s.mode == Idle ==> o == Outcome(s.buffer, [], 0, Idle, Exited)
    ensures !s.pfieldOn ==> o.end == Exited && o.flag == Idle
    ensures o.end == Crashed ==> o.flag == s.mode
  {
    var a := ThreadEnv(v, s, samples);
    var b := ThreadBounds(v, s);
    if s.pfieldOn then Activate(a, b, s.buffer, s.mode, stop, 0)
    else
      InsideFrameNoCrash(a, b, s.buffer, s.mode, stop, 0);
      Activate(a, b, s.buffer, s.mode, stop, 0)
  }

  /** The globals once the launched thread has ended: its DataMap and the flag it left, nothing else. */
  function Settle(s: State, o: Outcome): (r: State)
    ensures r.mode == o.flag && r.buffer == o.buffer
    ensures r.res == s.res && r.pfieldOn == s.pfieldOn && r.xLoc == s.xLoc && r.yLoc == s.yLoc
  {
    s.(mode := o.flag, buffer := o.buffer)
  }

  // ---------------------------------------------------------------------
  // Properties of the handlers.

  /** "Scan n" keeps the invariant: the centred origin of every preset lies on the grid. */
  lemma SetRunScanKeepsInv(s: State, n: int)
    requires Inv(V1_16, s)
    ensures Inv(V1_16, SetRunScan(s, n).state)
  {
    if SetRunScan(s, n).start {
      var res := SetRunScan(s, n).state.res;
      assert res == 128 || res == 256 || res == 512 || res == 1024;
    }
  }

  /** The mode buttons and a restart only change the flag, so they keep the invariant. */
  lemma ModeHandlersKeepInv(v: Version, s: State)
    requires Inv(v, s)
    ensures Inv(v, RunButton(s).state) && Inv(v, RecButton(s).state) && Inv(v, Restart(s).state)
  {
  }

  /** The partial-field handlers keep the origin inside the frame and on the grid. */
  lemma FieldHandlersKeepInv(s: State)
    requires Inv(V1_16, s)
    ensures Inv(V1_16, PfieldToggle(s).state)
    ensures Inv(V1_16, MoveNorth(s).state) && Inv(V1_16, MoveWest(s).state)
    ensures Inv(V1_16, MoveEast(s).state) && Inv(V1_16, MoveSouth(s).state)
  {
  }

  /** "Scan n" in v1.15 keeps the v1.15 invariant. */
  lemma SetRunScanV115KeepsInv(s: State, n: int)
    requires Inv(V1_15, s)
    ensures Inv(V1_15, SetRunScanV115(s, n).state)
  {
  }

  /** A finished thread leaves a state that still satisfies the invariant. */
  lemma SettleKeepsInv(v: Version, s: State, samples: nat -> ((int, int) -> int), stop: nat)
    requires Inv(v, s)
    ensures Inv(v, Settle(s, Launch(v, s, samples, stop)))
  {
  }

  /**
    Only RECORD sets the flag to 1, and its button is commented out in both
    versions: from a state without a single pass, every handler that has a
    button, and every thread end, leaves the flag at 0 or -1.
   */
  lemma WiredHandlersNeverRecord(v: Version, s: State, n: int, samples: nat -> ((int, int) -> int), stop: nat)
    requires Inv(v, s) && s.mode != SinglePass
    ensures SetRunScan(s, n).state.mode != SinglePass && SetRunScanV115(s, n).state.mode != SinglePass
    ensures RunButton(s).state.mode != SinglePass && Restart(s).state.mode != SinglePass
    ensures PfieldToggle(s).state.mode != SinglePass
    ensures MoveNorth(s).state.mode != SinglePass && MoveWest(s).state.mode != SinglePass
    ensures MoveEast(s).state.mode != SinglePass && MoveSouth(s).state.mode != SinglePass
    ensures Settle(s, Launch(v, s, samples, stop)).mode != SinglePass
  {
  }

  /** Pressing RUN twice returns to the same globals, unless a single pass is running. */
  lemma RunButtonTwice(s: State)
    ensures s.mode != SinglePass ==> RunButton(RunButton(s).state).state == s
    ensures s.mode != SinglePass ==> RunButton(s).start != RunButton(RunButton(s).state).start
    ensures s.mode == SinglePass ==> RunButton(s) == Reaction(s, false)
  {
  }

  /** Pressing RECORD again changes nothing and starts nothing. */
  lemma RecButtonTwice(s: State)
    ensures RecButton(RecButton(s).state) == Reaction(RecButton(s).state, false)
  {
  }

  /** Choosing the same preset twice gives the same globals; in v1.16 they do not depend on the old ones. */
  lemma SetRunScanForgets(s: State, s': State, n: int)
    requires PresetResolution(n).Some?
    ensures SetRunScan(s, n).state == SetRunScan(s', n).state
    ensures SetRunScan(SetRunScan(s, n).state, n) == SetRunScan(s, n)
    ensures SetRunScanV115(SetRunScanV115(s, n).state, n) == SetRunScanV115(s, n)
  {
  }

  /** East then west, and west then east, return the window to where it was. */
  lemma MoveEastWest(s: State)
    requires Inv(V1_16, s)
    ensures MoveEast(s).start ==> MoveWest(MoveEast(s).state).state == s.(mode := Continuous)
    ensures MoveWest(s).start ==> MoveEast(MoveWest(s).state).state == s.(mode := Continuous)
  {
  }

  /** South then north, and north then south, return the window to where it was. */
  lemma MoveSouthNorth(s: State)
    requires Inv(V1_16, s)
    ensures MoveSouth(s).start ==> MoveNorth(MoveSouth(s).state).state == s.(mode := Continuous)
    ensures MoveNorth(s).start ==> MoveSouth(MoveNorth(s).state).state == s.(mode := Continuous)
  {
  }

  /** With the partial field off no move does anything. */
  lemma MovesNeedField(s: State)
    requires !s.pfieldOn
    ensures MoveNorth(s) == MoveWest(s) == MoveEast(s) == MoveSouth(s) == Reaction(s, false)
  {
  }

  // ---------------------------------------------------------------------
  // Handlers and threads together.

  /**
    A continuous thread over the whole frame never crashes and completes
    one pass per 1 + R * (R + 1) checks: a `while` check, then per row a
    row check and R pixel checks.
   */
  lemma FullFrameThread(v: Version, s: State, samples: nat -> ((int, int) -> int), stop: nat)
    requires Inv(v, s) && s.mode == Continuous && !s.pfieldOn
    ensures Launch(v, s, samples, stop).end == Exited
    ensures Launch(v, s, samples, stop).frames == Blocks(stop, FrameChecks(s.res))
  {
    var a := ThreadEnv(v, s, samples);
    var b := FullFrame(s.res);
    assert ThreadBounds(v, s) == b;
    var o := Activate(a, b, s.buffer, Continuous, stop, 0);
    assert Launch(v, s, samples, stop) == o;
    InsideFrameNoCrash(a, b, s.buffer, Continuous, stop, 0);
    ContinuousFrames(a, b, s.buffer, stop, 0);
  }

  /**
    The flag checks one full-frame pass of a continuous thread consumes:
    the `while` check, then one check per row and one per pixel.
   */
  function FrameChecks(res: nat): (t: nat)
    ensures t == 1 + |Schedule(FullFrame(res))|
    ensures t > res * res
  {
    FullFrameScheduleLength(res);
    1 + res * (res + 1)
  }

  /** After "Scan n" in v1.16 the new thread scans the whole frame and never crashes. */
  lemma SetRunScanThread(s: State, n: int, samples: nat -> ((int, int) -> int), stop: nat)
    requires Inv(V1_16, s) && PresetResolution(n).Some?
    ensures Inv(V1_16, SetRunScan(s, n).state)
    ensures Launch(V1_16, SetRunScan(s, n).state, samples, stop).end == Exited
    ensures Launch(V1_16, SetRunScan(s, n).state, samples, stop).frames ==
      Blocks(stop, FrameChecks(PresetResolution(n).value))
  {
    SetRunScanKeepsInv(s, n);
    FullFrameThread(V1_16, SetRunScan(s, n).state, samples, stop);
  }

  /** After "Scan n" in v1.15 the new thread scans the whole frame and never crashes. */
  lemma SetRunScanV115Thread(s: State, n: int, samples: nat -> ((int, int) -> int), stop: nat)
    requires Inv(V1_15, s) && PresetResolution(n).Some?
    ensures Inv(V1_15, SetRunScanV115(s, n).state)
    ensures Launch(V1_15, SetRunScanV115(s, n).state, samples, stop).end == Exited
    ensures Launch(V1_15, SetRunScanV115(s, n).state, samples, stop).frames ==
      Blocks(stop, FrameChecks(PresetResolution(n).value))
  {
    SetRunScanV115KeepsInv(s, n);
    FullFrameThread(V1_15, SetRunScanV115(s, n).state, samples, stop);
  }

  /**
    The move guards test the new origin, not the far edge of the window:
    from a window that just fits against the right edge, ">" is still
    accepted and the new window reaches half its width past the frame.
   */
  lemma EastGuardAdmitsOverrun(s: State)
    requires Inv(V1_16, s) && s.pfieldOn && s.xLoc == s.res - PFieldSize
    ensures MoveEast(s).start
    ensures MoveEast(s).state.xLoc + PFieldSize == s.res + PFieldStep
    ensures !InsideFrame(ThreadBounds(V1_16, MoveEast(s).state), s.res)
  {
  }

  /**
    The smallest instance: from start-up, "Scan 1", "Partial On/Off" and
    ">" give a 128-pixel frame with the window at column 64, so the new
    thread's first row reaches column 128 and indexes past the 128-entry X
    table.  The thread dies on that IndexError and the flag stays -1.
   */
  lemma EastMoveCanOverrunFrame(samples: nat -> ((int, int) -> int), stop: nat)
    requires stop > 66
    ensures var s := MoveEast(PfieldToggle(SetRunScan(Initial(), 1).state).state);
      s.start && s.state.res == 128 && s.state.xLoc == 64 && s.state.yLoc == 0 &&
      s.state.mode == Continuous
    ensures var s := MoveEast(PfieldToggle(SetRunScan(Initial(), 1).state).state).state;
      Inv(V1_16, s) &&
      Launch(V1_16, s, samples, stop).end == Crashed &&
      Launch(V1_16, s, samples, stop).flag == Continuous &&
      Launch(V1_16, s, samples, stop).frames == 0
  {
    EastMoveReaches();
    WindowRightOverrunCrashes(MoveEast(PfieldToggle(SetRunScan(Initial(), 1).state).state).state, samples, stop);
  }

  lemma EastMoveReaches()
    ensures var s := MoveEast(PfieldToggle(SetRunScan(Initial(), 1).state).state);
      s.start && s.state.res == 128 && s.state.xLoc == 64 && s.state.yLoc == 0 &&
      s.state.mode == Continuous && s.state.pfieldOn && Inv(V1_16, s.state)
  {
    var s0 := SetRunScan(Initial(), 1).state;
    SetRunScanKeepsInv(Initial(), 1);
    assert s0.res == 128 && s0.xLoc == 0 && s0.yLoc == 0 && !s0.pfieldOn;
    var s1 := PfieldToggle(s0).state;
    FieldHandlersKeepInv(s0);
    FieldHandlersKeepInv(s1);
  }

  /**
    A window that reaches past the right edge of the frame kills the thread
    launched on it: the first row indexes XVals at res, the thread dies on
    the IndexError before completing a pass, and the flag stays -1.
   */
  lemma WindowRightOverrunCrashes(s: State, samples: nat -> ((int, int) -> int), stop: nat)
    requires Inv(V1_16, s) && s.pfieldOn && s.mode == Continuous
    requires s.res < s.xLoc + PFieldSize && stop > 2 + s.res - s.xLoc
    ensures Launch(V1_16, s, samples, stop).end == Crashed
    ensures Launch(V1_16, s, samples, stop).flag == Continuous
    ensures Launch(V1_16, s, samples, stop).frames == 0
  {
    var b := ThreadBounds(V1_16, s);
    assert b == Bounds(s.xLoc, s.xLoc + PFieldSize, s.yLoc, s.yLoc + PFieldSize);
    var a := ThreadEnv(V1_16, s, samples);
    FirstRowOverrunFaults(PassOf(a, 0), b, s.buffer, stop - 1);
    FaultedPassCrashes(a, b, s.buffer, Continuous, stop);
  }

  /** At every resolution, ">" from a window flush with the right edge launches a thread that crashes. */
  lemma EastEdgeMoveCrashes(s: State, samples: nat -> ((int, int) -> int), stop: nat)
    requires Inv(V1_16, s) && s.pfieldOn && s.xLoc == s.res - PFieldSize && stop > 66
    ensures MoveEast(s).start && Inv(V1_16, MoveEast(s).state)
    ensures Launch(V1_16, MoveEast(s).state, samples, stop).end == Crashed
    ensures Launch(V1_16, MoveEast(s).state, samples, stop).flag == Continuous
  {
    FieldHandlersKeepInv(s);
    WindowRightOverrunCrashes(MoveEast(s).state, samples, stop);
  }

  /**
    A window that reaches past the bottom edge of the frame, but not past
    its right edge, kills the thread once the pass reaches row res: after
    the `while` check and the (res - yLoc) * 129 checks of the rows above.
   */
  lemma WindowBottomOverrunCrashes(s: State, samples: nat -> ((int, int) -> int), stop: nat)
    requires Inv(V1_16, s) && s.pfieldOn && s.mode == Continuous
    requires s.xLoc + PFieldSize <= s.res < s.yLoc + PFieldSize
    requires stop > 1 + (s.res - s.yLoc) * (PFieldSize + 1)
    ensures Launch(V1_16, s, samples, stop).end == Crashed
    ensures Launch(V1_16, s, samples, stop).flag == Continuous
    ensures Launch(V1_16, s, samples, stop).frames == 0
  {
    var b := ThreadBounds(V1_16, s);
    assert b == Bounds(s.xLoc, s.xLoc + PFieldSize, s.yLoc, s.yLoc + PFieldSize);
    var a := ThreadEnv(V1_16, s, samples);
    LastRowsOverrunFaults(PassOf(a, 0), b, s.buffer, stop - 1);
    FaultedPassCrashes(a, b, s.buffer, Continuous, stop);
  }

  /** "v" from a window flush with the bottom edge (and inside the right one) launches a thread that crashes. */
  lemma SouthEdgeMoveCrashes(s: State, samples: nat -> ((int, int) -> int), stop: nat)
    requires Inv(V1_16, s) && s.pfieldOn && s.yLoc == s.res - PFieldSize && s.xLoc + PFieldSize <= s.res
    requires stop > 1 + PFieldStep * (PFieldSize + 1)
    ensures MoveSouth(s).start && Inv(V1_16, MoveSouth(s).state)
    ensures Launch(V1_16, MoveSouth(s).state, samples, stop).end == Crashed
    ensures Launch(V1_16, MoveSouth(s).state, samples, stop).flag == Continuous
  {
    FieldHandlersKeepInv(s);
    WindowBottomOverrunCrashes(MoveSouth(s).state, samples, stop);
  }
}
