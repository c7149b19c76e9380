/**
  The shared mode flag CONT_SCAN, through which the GUI controls the scan
  thread: 0 means idle, -1 scan continuously, 1 scan the field once.
 */
module ScanMode {

  datatype Option<T> = None | Some(value: T)

  datatype Mode = Idle | Continuous | SinglePass

  /** The value of CONT_SCAN that stands for each mode. */
  function Flag(m: Mode): (f: int)
    ensures -1 <= f <= 1
    ensures f == 0 <==> m == Idle
  {
    match m
    case Idle => 0
    case Continuous => -1
    case SinglePass => 1
  }

  /** The mode a flag value stands for; no other value is ever stored. */
  function ModeOf(f: int): (m: Option<Mode>)
    ensures m.None? <==> f !in {0, -1, 1}
  {
    if f == 0 then Some(Idle)
    else if f == -1 then Some(Continuous)
    else if f == 1 then Some(SinglePass)
    else None
  }

  /** `Flag` and `ModeOf` are inverse: the three modes are encoded without loss. */
  lemma FlagRoundTrip(m: Mode, f: int)
    ensures ModeOf(Flag(m)) == Some(m)
    ensures ModeOf(f) == Some(m) ==> Flag(m) == f
  {
  }

  /** The scan thread keeps going while the flag is -1 or 1. */
  predicate Running(m: Mode)
  {
    m == Continuous || m == SinglePass
  }
}
