/**
  One activation of the scan thread: `ScanGenerator.run` from its start to
  its end.  The code tables and the traversal ranges are fixed when the
  thread starts; then, while the flag is -1 or 1, the thread runs a pass,
  and after a pass in single-pass mode it clears the flag itself.

  The flag checks of an activation are those of the `while` condition and
  those of the pass loops; `stop` is again the number of them that see the
  flag set.  The check before the self-stop is not counted: whatever it
  sees, the flag is 0 afterwards in single-pass mode and unchanged in
  continuous mode.  An activation in continuous mode that is never
  stopped does not end; it is described here up to any finite `stop`.
 */
module Activation {
  import opened Arith
  import opened Field
  import opened Raster
  import opened Engine
  import opened PassFacts
  import opened ScanMode

  /** What the thread fixes at its start; the detector may read differently on every pass. */
  datatype ActEnv = ActEnv(version: Version, res: nat, xCodes: seq<int>, yCodes: seq<int>,
                           samples: nat -> ((int, int) -> int))

  /** The environment of pass number p. */
  function PassOf(a: ActEnv, p: nat): PassEnv
  {
    PassEnv(a.version, a.res, a.xCodes, a.yCodes, a.samples(p))
  }

  predicate ActReady(a: ActEnv, b: Bounds, buf: seq<seq<int>>)
  {
    PassReady(PassOf(a, 0), b, buf)
  }

  /** How the thread ends: it returns, or an IndexError kills it. */
  datatype ActEnd = Exited | Crashed

  /**
    The outcome of an activation: DataMap, the hardware calls, the number
    of passes completed, the flag left behind and how the thread ended.
   */
  datatype Outcome = Outcome(buffer: seq<seq<int>>, trace: seq<Event>, frames: nat, flag: Mode, end: ActEnd)

  /**
    The activation that starts with flag `mode` on pass number p.  A thread
    that returns leaves the flag at 0; a crashed thread leaves it as it was,
    so the GUI still believes a scan is running.  Started with the flag 0,
    it returns at once without a hardware call.
   */
  function Activate(a: ActEnv, b: Bounds, buf: seq<seq<int>>, mode: Mode, stop: nat, p: nat): (r: Outcome)
    requires ActReady(a, b, buf)
    ensures FrameBuffer(r.buffer, a.res)
    ensures r.end == Exited <==> r.flag == Idle
    ensures r.end == Crashed ==> r.flag == mode
    ensures mode == SinglePass ==> r.frames <= 1
    ensures mode == Idle ==> r == Outcome(buf, [], 0, Idle, Exited)
    decreases stop
  {
    if !Running(mode) || stop == 0 then Outcome(buf, [], 0, Idle, Exited)
    else
      var e := PassOf(a, p);
      var r := Pass(e, b, buf, stop - 1);
      match r.end
      case Faulted => Outcome(r.state.buffer, r.state.trace, 0, mode, Crashed)
      case Stopped => Outcome(r.state.buffer, r.state.trace, 0, Idle, Exited)
      case Completed =>
        if mode == SinglePass then Outcome(r.state.buffer, r.state.trace, 1, Idle, Exited)
        else
          PassEnds(e, b, buf, stop - 1);
          var next := Activate(a, b, r.state.buffer, mode, stop - 1 - |Schedule(b)|, p + 1);
          Outcome(next.buffer, r.state.trace + next.trace, 1 + next.frames, next.flag, next.end)
  }

  /**
    Record mode: a single-pass activation that is not stopped before the
    end of its pass completes exactly one pass, clears the flag itself and
    returns, leaving in DataMap the first pass's sample at every cell of the
    ranges and the old value everywhere else.
   */
  lemma SinglePassOnce(a: ActEnv, b: Bounds, buf: seq<seq<int>>, stop: nat)
    requires ActReady(a, b, buf) && InsideFrame(b, a.res)
    requires stop > |Schedule(b)|
    ensures Activate(a, b, buf, SinglePass, stop, 0).frames == 1
    ensures Activate(a, b, buf, SinglePass, stop, 0).flag == Idle
    ensures Activate(a, b, buf, SinglePass, stop, 0).end == Exited
    ensures forall j, i :: 0 <= j < a.res && 0 <= i < a.res ==>
      Activate(a, b, buf, SinglePass, stop, 0).buffer[j][i] ==
        (if InBounds(b, Cell(j, i)) then a.samples(0)(j, i) else buf[j][i])
  {
    var e := PassOf(a, 0);
    InsideFramePassEnd(e, b, buf, stop - 1);
    PassVisits(e, b, buf, stop - 1);
    PassStores(e, b, buf, stop - 1);
  }

  /** An activation whose ranges lie inside the frame never crashes. */
  lemma {:induction false} InsideFrameNoCrash(a: ActEnv, b: Bounds, buf: seq<seq<int>>, mode: Mode, stop: nat, p: nat)
    requires ActReady(a, b, buf) && InsideFrame(b, a.res)
    ensures Activate(a, b, buf, mode, stop, p).end == Exited
    ensures Activate(a, b, buf, mode, stop, p).flag == Idle
    decreases stop
  {
    if Running(mode) && stop > 0 {
      var e := PassOf(a, p);
      InsideFramePassEnd(e, b, buf, stop - 1);
      var r := Pass(e, b, buf, stop - 1);
      if r.end == Completed && mode == Continuous {
        InsideFrameNoCrash(a, b, r.state.buffer, mode, stop - 1 - |Schedule(b)|, p + 1);
      }
    }
  }

  /**
    Run mode: a continuous activation over ranges inside the frame
    completes one pass for every whole block of 1 + T checks it is allowed
    (a `while` check and the T checks of a pass), and then returns with the
    flag 0.  By `BlocksIsQuotient` that is stop / (1 + T) passes.
   */
  lemma {:induction false} ContinuousFrames(a: ActEnv, b: Bounds, buf: seq<seq<int>>, stop: nat, p: nat)
    requires ActReady(a, b, buf) && InsideFrame(b, a.res)
    ensures Activate(a, b, buf, Continuous, stop, p).frames == Blocks(stop, 1 + |Schedule(b)|)
    decreases stop
  {
    var t := |Schedule(b)|;
    BlocksStep(stop, 1 + t);
    if stop > 0 {
      ContinuousStep(a, b, buf, stop, p);
      if stop - 1 >= t {
        var r := Pass(PassOf(a, p), b, buf, stop - 1);
        ContinuousFrames(a, b, r.state.buffer, stop - 1 - t, p + 1);
      }
    }
  }

  /** One iteration of the continuous loop over ranges inside the frame. */
  lemma ContinuousStep(a: ActEnv, b: Bounds, buf: seq<seq<int>>, stop: nat, p: nat)
    requires ActReady(a, b, buf) && InsideFrame(b, a.res) && stop > 0
    ensures stop - 1 >= |Schedule(b)| ==>
      var r := Pass(PassOf(a, p), b, buf, stop - 1);
      Activate(a, b, buf, Continuous, stop, p).frames ==
        1 + Activate(a, b, r.state.buffer, Continuous, stop - 1 - |Schedule(b)|, p + 1).frames
    ensures stop - 1 < |Schedule(b)| ==> Activate(a, b, buf, Continuous, stop, p).frames == 0
  {
    InsideFramePassEnd(PassOf(a, p), b, buf, stop - 1);
  }

  /** A first pass that faults kills the thread before it completes any pass, leaving the flag set. */
  lemma FaultedPassCrashes(a: ActEnv, b: Bounds, buf: seq<seq<int>>, mode: Mode, stop: nat)
    requires ActReady(a, b, buf) && Running(mode) && stop > 0
    requires Pass(PassOf(a, 0), b, buf, stop - 1).end == Faulted
    ensures Activate(a, b, buf, mode, stop, 0).end == Crashed
    ensures Activate(a, b, buf, mode, stop, 0).flag == mode
    ensures Activate(a, b, buf, mode, stop, 0).frames == 0
  {
  }

  /**
    A crash needs a step outside the frame: it happens only when the
    ranges overrun the frame, and it leaves the flag set, so no new thread
    is started until the flag is cleared.
   */
  lemma CrashNeedsOverrun(a: ActEnv, b: Bounds, buf: seq<seq<int>>, mode: Mode, stop: nat, p: nat)
    requires ActReady(a, b, buf)
    requires Activate(a, b, buf, mode, stop, p).end == Crashed
    ensures !InsideFrame(b, a.res)
    ensures Running(Activate(a, b, buf, mode, stop, p).flag)
  {
    if InsideFrame(b, a.res) {
      InsideFrameNoCrash(a, b, buf, mode, stop, p);
    }
  }
}
