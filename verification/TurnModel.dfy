/** The turn fence on values: the incarnation file across restarts, and the bounded per-session turn counters. */
module TurnModel {
  import opened Prelude
  import opened OrderedDict

  // ---- the incarnation file --------------------------------------------------------------

  /** Garbage: text that is empty, not a number, or negative. NotText: bytes that are no UTF-8. */
  datatype File = Missing | Garbage | NotText | Holds(n: nat)

  /** `legacy` is never written. */
  datatype Disk = Disk(primary: File, legacy: Option<File>)

  /** What the outside does to one start: which reads fail, which write attempts succeed, the wall clock. */
  datatype Weather = Weather(primaryFault: bool, legacyFault: bool, writes: seq<bool>, clock: int)

  const WRITE_ATTEMPTS := 3

  function ReadPath(f: File, fault: bool): Option<nat> {
    if fault || !f.Holds? then None else Some(f.n)
  }

  /** Reading bytes that are no UTF-8 raises an error that only a failing read would have been spared. */
  predicate Chokes(d: Disk, w: Weather) {
    (d.primary.NotText? && !w.primaryFault) || (d.legacy.Some? && d.legacy.value.NotText? && !w.legacyFault)
  }

  function Candidates(d: Disk, w: Weather): (Option<nat>, Option<nat>) {
    (ReadPath(d.primary, w.primaryFault), if d.legacy.None? then None else ReadPath(d.legacy.value, w.legacyFault))
  }

  function Greater(a: Option<nat>, b: Option<nat>): nat {
    match (a, b)
    case (None, None) => 0
    case (Some(x), None) => x
    case (None, Some(y)) => y
    case (Some(x), Some(y)) => if x < y then y else x
  }

  /** The high watermark of everything readable. */
  function Base(d: Disk, w: Weather): nat {
    Greater(Candidates(d, w).0, Candidates(d, w).1)
  }

  function Confirmed(w: Weather, attempts: nat): bool {
    attempts > 0 && (Confirmed(w, attempts - 1) || (attempts <= |w.writes| && w.writes[attempts - 1]))
  }

  datatype Incarnation = Incarnation(value: int, durable: bool)

  /** No incarnation: the start raised. */
  function LoadOrBump(d: Disk, w: Weather): (Disk, Option<Incarnation>) {
    var inc := Base(d, w) + 1;
    if Chokes(d, w) then (d, None)
    else if Confirmed(w, WRITE_ATTEMPTS) then (d.(primary := Holds(inc)), Some(Incarnation(inc, true)))
    else (d, Some(Incarnation(if inc < w.clock + 1 then w.clock + 1 else inc, false)))
  }

  /** A start that dies on the way: the atomic write has landed or it has not. */
  function CrashingStart(d: Disk, w: Weather, landed: bool): Disk {
    if landed && !Chokes(d, w) then d.(primary := Holds(Base(d, w) + 1)) else d
  }

  // ---- turn counters ------------------------------------------------------------------------

  const TURNS_MAX := 10000

  type Counters = seq<Slot<string, nat>>

  function TurnOf(turns: Counters, sid: string): nat {
    var found := Find(turns, sid);
    if found.Some? then found.value else 0
  }

  /** Least recently bumped first; the front goes while there are more than `cap`. */
  function Trim(turns: Counters, cap: nat): Counters {
    if |turns| > cap then Trim(turns[1..], cap) else turns
  }

  function Bump(turns: Counters, sid: string, cap: nat): Counters {
    Trim(Remove(turns, sid) + [Slot(sid, TurnOf(turns, sid) + 1)], cap)
  }
}
