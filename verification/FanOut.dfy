/** The sliding-window fan-out: any completion order of the workers refines one left-to-right fold. */
module FanOut {
  import opened Prelude

  type Item = string

  /** How a worker ends: an unexpected exception, a reported error code, or items with their raw byte count. */
  datatype Outcome = Raised | Reported(code: string) | Fetched(items: seq<Item>, bytes: int)

  datatype Failure = Failure(directory: string, code: string)

  datatype Caps = Caps(bytes: int, items: int)

  datatype Tally = Tally(
    items: seq<Item>, errors: seq<Failure>, succeeded: seq<string>, truncated: bool, usedBytes: int, usedItems: int)

  const NOTHING := Tally([], [], [], false, 0, 0)

  const UNAVAILABLE := "upstream_unavailable"

  predicate OverBudget(t: Tally, o: Outcome, caps: Caps) {
    o.Fetched? && (t.usedBytes + o.bytes > caps.bytes || t.usedItems + |o.items| > caps.items)
  }

  /** One consumed outcome; one over budget only marks the tally truncated. */
  function Absorb(t: Tally, directory: string, o: Outcome, caps: Caps): Tally {
    match o
    case Raised => t.(errors := t.errors + [Failure(directory, UNAVAILABLE)])
    case Reported(code) => t.(errors := t.errors + [Failure(directory, code)])
    case Fetched(items, bytes) =>
      if OverBudget(t, o, caps) then t.(truncated := true)
      else
        t.(items := t.items + items, succeeded := t.succeeded + [directory],
           usedBytes := t.usedBytes + bytes, usedItems := t.usedItems + |items|)
  }

  /** A job: the directories, what each worker would answer, and the limits. */
  datatype Job = Job(directories: seq<string>, outcomes: seq<Outcome>, concurrency: int, caps: Caps)

  ghost predicate Proper(job: Job) {
    |job.outcomes| == |job.directories|
  }

  function Window(job: Job): nat {
    if job.concurrency < 0 then 0 else job.concurrency
  }

  /** Left to right from index `k`, stopping at the first success that does not fit. */
  function Fold(job: Job, k: nat, t: Tally): Tally
    requires Proper(job) && k <= |job.directories|
    decreases |job.directories| - k
  {
    if k == |job.directories| || t.truncated then t
    else Fold(job, k + 1, Absorb(t, job.directories[k], job.outcomes[k], job.caps))
  }

  /** With no window nothing is ever launched, and the answer is empty. */
  function Expected(job: Job): Tally
    requires Proper(job)
  {
    if job.concurrency < 1 then NOTHING else Fold(job, 0, NOTHING)
  }

  // ---- the scheduler as steps -------------------------------------------------------------

  /** `Stopping`: cancellation requested, not yet delivered. */
  datatype Task = Live | Returned | Stopping | Cancelled

  /** `Draining`: cancelled tasks are being awaited. */
  datatype Phase = Serving | Draining | Over

  /** `tasks[i]` is the task of directory `i`; launches go in index order. `aborted`: the request itself was cancelled. */
  datatype State = State(tasks: seq<Task>, consumed: nat, tally: Tally, phase: Phase, aborted: bool)

  datatype Event =
    | Finish(index: nat)     // a worker ends by itself
    | Stop(index: nat)       // a requested cancellation takes effect
    | Consume                // the awaited task is done: charge it and refill the window
    | Leave                  // nothing left to await
    | Abort                  // the request is cancelled from outside
    | Close                  // all awaited cancellations are in

  function Lesser(a: nat, b: nat): nat {
    if a < b then a else b
  }

  ghost function Start(job: Job): State {
    State(seq(Lesser(|job.directories|, Window(job)), _ => Live), 0, NOTHING, Serving, false)
  }

  function StopAll(tasks: seq<Task>): seq<Task> {
    seq(|tasks|, i requires 0 <= i < |tasks| => if tasks[i] == Live then Stopping else tasks[i])
  }

  predicate Settled(t: Task) {
    t == Returned || t == Cancelled
  }

  ghost predicate Enabled(job: Job, s: State, e: Event) {
    match e
    case Finish(i) => i < |s.tasks| && (s.tasks[i] == Live || s.tasks[i] == Stopping)
    case Stop(i) => i < |s.tasks| && s.tasks[i] == Stopping
    case Consume => s.phase == Serving && s.consumed < |s.tasks| && s.tasks[s.consumed] == Returned
    case Leave => s.phase == Serving && s.consumed >= |s.tasks|
    case Abort => s.phase == Draining || (s.phase == Serving && s.consumed < |s.tasks|)
    case Close => s.phase == Draining && forall i :: 0 <= i < |s.tasks| ==> Settled(s.tasks[i])
  }

  ghost function Step(job: Job, s: State, e: Event): State
    requires Proper(job) && Inv(job, s) && Enabled(job, s, e)
  {
    match e
    case Finish(i) => s.(tasks := s.tasks[i := Returned])
    case Stop(i) => s.(tasks := s.tasks[i := Cancelled])
    case Consume =>
      var t := Absorb(s.tally, job.directories[s.consumed], job.outcomes[s.consumed], job.caps);
      if t.truncated then s.(tally := t, tasks := StopAll(s.tasks), phase := Draining)
      else
        s.(tally := t, consumed := s.consumed + 1,
           tasks := if |s.tasks| < |job.directories| then s.tasks + [Live] else s.tasks)
    case Leave => s.(phase := Draining)
    case Abort => if s.phase == Serving then s.(tasks := StopAll(s.tasks), phase := Draining, aborted := true)
                  else s.(phase := Over, aborted := true)
    case Close => s.(phase := Over)
  }

  ghost predicate Inv(job: Job, s: State)
    requires Proper(job)
  {
    && s.consumed <= |s.tasks| <= |job.directories|
    && |s.tasks| <= s.consumed + Window(job)
    && (forall i :: 0 <= i < s.consumed ==> s.tasks[i] == Returned)
    && (s.phase == Serving ==>
          && !s.aborted && !s.tally.truncated
          && |s.tasks| == Lesser(|job.directories|, s.consumed + Window(job))
          && Fold(job, s.consumed, s.tally) == Fold(job, 0, NOTHING)
          && (forall i :: 0 <= i < |s.tasks| ==> s.tasks[i] == Live || s.tasks[i] == Returned)
          && (s.consumed == 0 ==> s.tally == NOTHING))
    && (Window(job) == 0 ==> s.consumed == 0)
    && (s.phase != Serving ==>
          && (forall i :: 0 <= i < |s.tasks| ==> s.tasks[i] != Live)
          && (!s.aborted ==> s.tally == Expected(job)))
    && (s.phase == Over && !s.aborted ==> forall i :: 0 <= i < |s.tasks| ==> Settled(s.tasks[i]))
  }

  lemma StartHolds(job: Job)
    requires Proper(job)
    ensures Inv(job, Start(job))
  {
  }

  lemma ConsumeKeeps(job: Job, s: State)
    requires Proper(job) && Inv(job, s) && Enabled(job, s, Consume)
    ensures Inv(job, Step(job, s, Consume))
  {
    var t := Absorb(s.tally, job.directories[s.consumed], job.outcomes[s.consumed], job.caps);
    assert Fold(job, s.consumed, s.tally) == Fold(job, s.consumed + 1, t);
    var s' := Step(job, s, Consume);
    if t.truncated {
      assert Fold(job, s.consumed + 1, t) == t;
    } else {
      assert forall i :: 0 <= i < s.consumed ==> s'.tasks[i] == s.tasks[i];
    }
  }

  lemma LeaveKeeps(job: Job, s: State)
    requires Proper(job) && Inv(job, s) && Enabled(job, s, Leave)
    ensures Inv(job, Step(job, s, Leave))
  {
    if job.concurrency >= 1 {
      assert s.consumed == |job.directories|;
      assert Fold(job, s.consumed, s.tally) == s.tally;
    } else {
      assert s.consumed == 0;
    }
  }

  lemma StepKeeps(job: Job, s: State, e: Event)
    requires Proper(job) && Inv(job, s) && Enabled(job, s, e)
    ensures Inv(job, Step(job, s, e))
  {
    match e
    case Consume => ConsumeKeeps(job, s);
    case Leave => LeaveKeeps(job, s);
    case _ =>
  }

  ghost predicate RunFrom(job: Job, s: State, events: seq<Event>)
    requires Proper(job) && Inv(job, s)
    decreases |events|
  {
    events == [] || (Enabled(job, s, events[0]) && (StepKeeps(job, s, events[0]); RunFrom(job, Step(job, s, events[0]), events[1..])))
  }

  ghost function After(job: Job, s: State, events: seq<Event>): (r: State)
    requires Proper(job) && Inv(job, s) && RunFrom(job, s, events)
    ensures Inv(job, r)
    decreases |events|
  {
    if events == [] then s
    else
      StepKeeps(job, s, events[0]);
      After(job, Step(job, s, events[0]), events[1..])
  }

  ghost predicate Run(job: Job, events: seq<Event>)
    requires Proper(job)
  {
    StartHolds(job);
    RunFrom(job, Start(job), events)
  }

  ghost function Reached(job: Job, events: seq<Event>): (s: State)
    requires Proper(job) && Run(job, events)
  {
    StartHolds(job);
    After(job, Start(job), events)
  }

  // ---- what every run guarantees -----------------------------------------------------------

  /** Whatever order the workers end in, a run that is not cancelled answers with the fold, every task awaited to its end. */
  lemma EveryOrderFolds(job: Job, events: seq<Event>)
    requires Proper(job) && Run(job, events) && Reached(job, events).phase == Over && !Reached(job, events).aborted
    ensures Reached(job, events).tally == Expected(job)
    ensures forall i :: 0 <= i < |Reached(job, events).tasks| ==> Settled(Reached(job, events).tasks[i])
  {
    StartHolds(job);
  }

  /** At every moment at most `concurrency` launched tasks are unconsumed; once over, even by abort, none was simply left running. */
  lemma WindowAndCleanup(job: Job, events: seq<Event>)
    requires Proper(job) && Run(job, events)
    ensures |Reached(job, events).tasks| - Reached(job, events).consumed <= Window(job)
    ensures Reached(job, events).phase == Over ==>
              forall i :: 0 <= i < |Reached(job, events).tasks| ==> Reached(job, events).tasks[i] != Live
  {
    StartHolds(job);
  }

  /** The scheduler never gets stuck: something other than an abort can always happen until it is over. */
  lemma NeverStuck(job: Job, s: State) returns (e: Event)
    requires Proper(job) && Inv(job, s) && s.phase != Over
    ensures Enabled(job, s, e) && e != Abort
  {
    if s.phase == Serving {
      if s.consumed >= |s.tasks| {
        e := Leave;
      } else if s.tasks[s.consumed] == Returned {
        e := Consume;
      } else {
        e := Finish(s.consumed);
      }
    } else if i :| 0 <= i < |s.tasks| && !Settled(s.tasks[i]) {
      e := Stop(i);
    } else {
      e := Close;
    }
  }

  // ---- every run ends ---------------------------------------------------------------------

  function Weight(t: Task): nat {
    match t case Live => 2 case Stopping => 1 case _ => 0
  }

  function Weights(tasks: seq<Task>): nat {
    if tasks == [] then 0 else Weights(tasks[..|tasks| - 1]) + Weight(tasks[|tasks| - 1])
  }

  /** How much work is left: directories to launch, tasks to end, results to consume, phases to pass. */
  ghost function Left(job: Job, s: State): nat
    requires Proper(job) && Inv(job, s)
  {
    2 * (|job.directories| - |s.tasks|) + Weights(s.tasks) + (|job.directories| - s.consumed)
    + (match s.phase case Serving => 2 case Draining => 1 case Over => 0)
  }

  lemma {:induction false} WeightsUpdate(tasks: seq<Task>, i: nat, t: Task)
    requires i < |tasks|
    ensures Weights(tasks[i := t]) == Weights(tasks) - Weight(tasks[i]) + Weight(t)
  {
    var n := |tasks| - 1;
    if i == n {
      assert tasks[i := t][..n] == tasks[..n];
    } else {
      assert tasks[i := t][..n] == tasks[..n][i := t];
      WeightsUpdate(tasks[..n], i, t);
    }
  }

  lemma {:induction false} WeightsStop(tasks: seq<Task>)
    ensures Weights(StopAll(tasks)) <= Weights(tasks)
  {
    if tasks != [] {
      var n := |tasks| - 1;
      assert StopAll(tasks)[..n] == StopAll(tasks[..n]);
      WeightsStop(tasks[..n]);
    }
  }

  lemma StepSpends(job: Job, s: State, e: Event)
    requires Proper(job) && Inv(job, s) && Enabled(job, s, e) && Inv(job, Step(job, s, e))
    ensures Left(job, Step(job, s, e)) < Left(job, s)
  {
    match e
    case Finish(i) => WeightsUpdate(s.tasks, i, Returned);
    case Stop(i) => WeightsUpdate(s.tasks, i, Cancelled);
    case _ =>
      WeightsStop(s.tasks);
      assert (s.tasks + [Live])[..|s.tasks|] == s.tasks;
  }

  /** No run goes on for ever: it never has more than three events for each directory and two to close. */
  lemma RunsAreShort(job: Job, events: seq<Event>)
    requires Proper(job) && Run(job, events)
    ensures |events| <= 3 * |job.directories| + 2
  {
    StartHolds(job);
    RunsEnd(job, Start(job), events);
    AllLive(Start(job).tasks);
  }

  lemma {:induction false} AllLive(tasks: seq<Task>)
    requires forall i :: 0 <= i < |tasks| ==> tasks[i] == Live
    ensures Weights(tasks) == 2 * |tasks|
  {
    if tasks != [] { AllLive(tasks[..|tasks| - 1]); }
  }

  lemma {:induction false} RunsEnd(job: Job, s: State, events: seq<Event>)
    requires Proper(job) && Inv(job, s) && RunFrom(job, s, events)
    ensures |events| + Left(job, After(job, s, events)) <= Left(job, s)
    decreases |events|
  {
    if events != [] {
      StepKeeps(job, s, events[0]);
      StepSpends(job, s, events[0]);
      RunsEnd(job, Step(job, s, events[0]), events[1..]);
    }
  }

  // ---- what the fold computes -----------------------------------------------------------------

  /** Everything the first `k` outcomes contribute, budgets ignored. */
  ghost function Gathered(job: Job, k: nat): Tally
    requires Proper(job) && k <= |job.directories|
  {
    if k == 0 then NOTHING
    else
      var t, o, d := Gathered(job, k - 1), job.outcomes[k - 1], job.directories[k - 1];
      match o
      case Raised => t.(errors := t.errors + [Failure(d, UNAVAILABLE)])
      case Reported(code) => t.(errors := t.errors + [Failure(d, code)])
      case Fetched(items, bytes) =>
        t.(items := t.items + items, succeeded := t.succeeded + [d],
           usedBytes := t.usedBytes + bytes, usedItems := t.usedItems + |items|)
  }

  /** The outcome at `k` would overflow a budget after all before it. */
  ghost predicate Overflows(job: Job, k: nat)
    requires Proper(job) && k < |job.directories|
  {
    var t, o := Gathered(job, k), job.outcomes[k];
    o.Fetched? && (t.usedBytes + o.bytes > job.caps.bytes || |t.items| + |o.items| > job.caps.items)
  }

  /** The fold is the full gathering up to the first overflow; it is truncated exactly when there is one. */
  lemma {:induction false} FoldStopsAtFirstOverflow(job: Job, k: nat) returns (stop: nat)
    requires Proper(job) && k <= |job.directories| && forall i :: 0 <= i < k ==> !Overflows(job, i)
    ensures k <= stop <= |job.directories| && forall i :: 0 <= i < stop ==> !Overflows(job, i)
    ensures stop < |job.directories| ==> Overflows(job, stop)
    ensures Fold(job, k, Gathered(job, k)) == Gathered(job, stop).(truncated := stop < |job.directories|)
    decreases |job.directories| - k
  {
    GatheredPlain(job, k);
    if k == |job.directories| {
      stop := k;
    } else if Overflows(job, k) {
      stop := k;
    } else {
      stop := FoldStopsAtFirstOverflow(job, k + 1);
      assert Gathered(job, k + 1) == Absorb(Gathered(job, k), job.directories[k], job.outcomes[k], job.caps);
    }
  }

  lemma {:induction false} GatheredPlain(job: Job, k: nat)
    requires Proper(job) && k <= |job.directories|
    ensures !Gathered(job, k).truncated && Gathered(job, k).usedItems == |Gathered(job, k).items|
  {
    if k > 0 { GatheredPlain(job, k - 1); }
  }

  // ---- the scheduler as it runs -----------------------------------------------------------------

  /** The loop itself. `launched` counts the tasks started; those consumed or awaited after cancelling end at `ended`. */
  method CollectWithByteBudget(job: Job) returns (t: Tally, ghost launched: nat, ghost ended: set<int>)
    requires Proper(job)
    ensures t == Expected(job)
    ensures launched <= |job.directories| && forall i :: 0 <= i < launched ==> i in ended
  {
    var tasks: map<int, Outcome> := map[];
    var next, consume := 0, 0;
    t := NOTHING;
    ended := {};
    while next < |job.directories| && next < job.concurrency
      invariant 0 <= next <= |job.directories| && next <= Window(job)
      invariant forall i :: i in tasks <==> 0 <= i < next
      invariant forall i :: i in tasks ==> tasks[i] == job.outcomes[i]
    {
      tasks := tasks[next := job.outcomes[next]];
      next := next + 1;
    }
    while consume < |job.directories|
      invariant 0 <= consume <= next == Lesser(|job.directories|, consume + Window(job))
      invariant forall i :: i in tasks <==> 0 <= i < next
      invariant forall i :: i in tasks ==> tasks[i] == job.outcomes[i]
      invariant !t.truncated && Fold(job, consume, t) == Fold(job, 0, NOTHING)
      invariant Window(job) == 0 ==> consume == 0 && t == NOTHING
      invariant forall i :: 0 <= i < consume ==> i in ended
    {
      if consume !in tasks {
        break;
      }
      var outcome := tasks[consume];
      ended := ended + {consume};
      t := Absorb(t, job.directories[consume], outcome, job.caps);
      if t.truncated {
        ended := ended + set i | i in tasks.Keys && i > consume;
        break;
      }
      if next < |job.directories| {
        tasks := tasks[next := job.outcomes[next]];
        next := next + 1;
      }
      consume := consume + 1;
    }
    ended := ended + set i | i in tasks.Keys && i > consume;
    launched := next;
  }
}
