/** What every trace of the breaker guarantees, and what the one-worker queue adds. */
module BreakerRuns {
  import opened Prelude
  import opened BreakerModel

  // ---- the percentile -------------------------------------------------------------------

  function CountAtLeast(s: seq<real>, bar: real): nat {
    if s == [] then 0 else (if s[0] >= bar then 1 else 0) + CountAtLeast(s[1..], bar)
  }

  function SlowSamples(samples: seq<Sample>, bar: real): nat {
    if samples == [] then 0 else (if samples[0].latency >= bar then 1 else 0) + SlowSamples(samples[1..], bar)
  }

  ghost predicate Ascending(s: seq<real>) {
    forall i, j :: 0 <= i < j < |s| ==> s[i] <= s[j]
  }

  lemma {:induction false} InsertFacts(x: real, s: seq<real>, bar: real)
    requires Ascending(s)
    ensures Ascending(Insert(x, s))
    ensures CountAtLeast(Insert(x, s), bar) == CountAtLeast(s, bar) + (if x >= bar then 1 else 0)
    ensures Insert(x, s)[0] == if s == [] || x <= s[0] then x else s[0]
  {
    if s == [] || x <= s[0] {
      assert ([x] + s)[1..] == s;
    } else {
      InsertFacts(x, s[1..], bar);
      var t := Insert(x, s[1..]);
      assert ([s[0]] + t)[1..] == t;
      assert s[0] <= t[0];
    }
  }

  lemma {:induction false} OrderedFacts(samples: seq<Sample>, bar: real)
    ensures Ascending(Ordered(samples)) && CountAtLeast(Ordered(samples), bar) == SlowSamples(samples, bar)
  {
    if samples != [] {
      OrderedFacts(samples[1..], bar);
      InsertFacts(samples[0].latency, Ordered(samples[1..]), bar);
    }
  }

  /** In ascending order the element at `r` reaches the bar exactly when enough elements do. */
  lemma {:induction false} RankReaches(s: seq<real>, r: nat, bar: real)
    requires Ascending(s) && r < |s|
    ensures CountAtLeast(s, bar) <= |s|
    ensures s[r] >= bar <==> CountAtLeast(s, bar) >= |s| - r
  {
    CountBound(s[1..], bar);
    if s[0] >= bar {
      AllReach(s, bar);
    } else if r > 0 {
      RankReaches(s[1..], r - 1, bar);
    }
  }

  lemma {:induction false} CountBound(s: seq<real>, bar: real)
    ensures CountAtLeast(s, bar) <= |s|
  {
    if s != [] { CountBound(s[1..], bar); }
  }

  lemma {:induction false} AllReach(s: seq<real>, bar: real)
    requires forall i :: 0 <= i < |s| ==> s[i] >= bar
    ensures CountAtLeast(s, bar) == |s|
  {
    if s != [] { AllReach(s[1..], bar); }
  }

  /** For every window, P99 reaches the bar exactly when more than a hundredth of the samples (rounded down) do. */
  lemma P99ReachesIff(samples: seq<Sample>, bar: real)
    requires samples != []
    ensures Percentile(samples, 99).Some?
    ensures Percentile(samples, 99).value >= bar <==> SlowSamples(samples, bar) > |samples| / 100
  {
    var n := |samples|;
    OrderedLength(samples);
    OrderedFacts(samples, bar);
    RankInRange(n, 99);
    RankReaches(Ordered(samples), Rank(n, 99), bar);
    assert n - Rank(n, 99) == n / 100 + 1;
  }

  /** With a clock that never runs back, sweeping only on a stale first sample keeps exactly the fresh samples. */
  lemma {:induction false} PruneIsExact(samples: seq<Sample>, cutoff: real)
    requires forall i, j :: 0 <= i < j < |samples| ==> samples[i].at <= samples[j].at
    ensures Pruned(samples, cutoff) == Fresh(samples, cutoff)
    ensures forall k :: 0 <= k < |Pruned(samples, cutoff)| ==> Pruned(samples, cutoff)[k].at >= cutoff
  {
    if samples != [] {
      PruneIsExact(samples[1..], cutoff);
      if samples[0].at >= cutoff {
        assert samples == [samples[0]] + samples[1..];
        if |samples| > 1 { assert samples[1].at >= cutoff; }
      }
    }
  }

  // ---- traces --------------------------------------------------------------------------------

  datatype Event = Query(now: real, latency: real) | Probe(latency: real) | ProbeFault | Reset

  function Apply(b: Breaker, e: Event): Breaker {
    match e
    case Query(now, latency) => Record(b, now, latency)
    case Probe(latency) => NoteProbe(b, latency).0
    case ProbeFault => ProbeFailed(b)
    case Reset => New(b.settings)
  }

  ghost function After(st: Settings, events: seq<Event>): Breaker {
    if events == [] then New(st) else Apply(After(st, events[..|events| - 1]), events[|events| - 1])
  }

  /** Read off the trace alone: how many good probes in a row, queries aside, end it without leaving `open`. */
  ghost function GoodProbes(st: Settings, events: seq<Event>): nat {
    if events == [] || After(st, events[..|events| - 1]).phase != Open then 0
    else
      var rest := events[..|events| - 1];
      match events[|events| - 1]
      case Query(_, _) => GoodProbes(st, rest)
      case Probe(latency) => if latency < st.recoverMs then 1 + GoodProbes(st, rest) else 0
      case _ => 0
  }

  /** How many fast queries in a row, probes aside, end the trace without leaving probation. */
  ghost function FastQueries(st: Settings, events: seq<Event>): nat {
    if events == [] || After(st, events[..|events| - 1]).phase != Probation then 0
    else
      var rest := events[..|events| - 1];
      match events[|events| - 1]
      case Query(_, latency) => if latency < st.tripMs then 1 + FastQueries(st, rest) else 0
      case Reset => 0
      case _ => FastQueries(st, rest)
  }

  /** Fewer than required; one is always required. */
  predicate Short(streak: nat, required: int) {
    streak == 0 || streak < required
  }

  /** The counters say what the trace says. */
  lemma {:induction false} CountersAreStreaks(st: Settings, events: seq<Event>)
    ensures var b := After(st, events);
            && b.settings == st
            && (b.phase == Open ==> b.probeStreak == GoodProbes(st, events) && Short(b.probeStreak, st.recoverProbes))
            && (b.phase == Probation ==> b.probationGood == FastQueries(st, events) && Short(b.probationGood, st.recoverQueries))
            && (b.phase != Probation ==> b.probationGood == 0)
            && (b.phase != Open ==> b.probeStreak == 0)
  {
    if events != [] {
      CountersAreStreaks(st, events[..|events| - 1]);
    }
  }

  lemma AfterAppend(st: Settings, events: seq<Event>, e: Event)
    ensures After(st, events + [e]) == Apply(After(st, events), e)
  {
    assert (events + [e])[..|events|] == events;
  }

  /**
   * Leaving `open`, over every trace: a reset closes; the probe that completes the required run
   * of good probes, with no bad or failed one between, starts probation; nothing else does.
   */
  lemma LeavesOpenIff(st: Settings, events: seq<Event>, e: Event)
    requires After(st, events).phase == Open
    ensures After(st, events + [e]).phase
         == if e.Reset? then Closed
            else if e.Probe? && e.latency < st.recoverMs && GoodProbes(st, events) + 1 >= st.recoverProbes
            then Probation else Open
  {
    CountersAreStreaks(st, events);
    AfterAppend(st, events, e);
  }

  /** A probe is told that queries may pass exactly when the breaker is not open after it. */
  lemma ProbeAnswers(st: Settings, events: seq<Event>, latency: real)
    ensures NoteProbe(After(st, events), latency).1 <==> After(st, events + [Probe(latency)]).phase != Open
  {
    AfterAppend(st, events, Probe(latency));
  }

  /** Leaving probation: one slow query re-opens; the query that completes the required run of fast ones closes; so does a reset. */
  lemma LeavesProbationIff(st: Settings, events: seq<Event>, e: Event)
    requires After(st, events).phase == Probation
    ensures After(st, events + [e]).phase
         == if e.Reset? then Closed
            else if !e.Query? then Probation
            else if e.latency >= st.tripMs then Open
            else if FastQueries(st, events) + 1 >= st.recoverQueries then Closed
            else Probation
  {
    CountersAreStreaks(st, events);
    AfterAppend(st, events, e);
  }

  /** Leaving `closed`: only by a query after warm-up, with enough samples, more than a hundredth of which are slow. */
  lemma LeavesClosedIff(st: Settings, events: seq<Event>, e: Event)
    requires After(st, events).phase == Closed
    ensures After(st, events + [e]).phase
         == if e.Query?
               && var s := Sampled(After(st, events), e.now, e.latency);
               && s.total > st.minSamples && |s.samples| >= st.minSamples
               && SlowSamples(s.samples, st.tripMs) > |s.samples| / 100
            then Open else Closed
  {
    CountersAreStreaks(st, events);
    AfterAppend(st, events, e);
    if e.Query? {
      P99ReachesIff(Sampled(After(st, events), e.now, e.latency).samples, st.tripMs);
    }
  }

  // ---- the window, read off the trace ---------------------------------------------------------

  /** The samples of all queries since the last reset. */
  ghost function Recorded(events: seq<Event>): seq<Sample> {
    if events == [] then []
    else
      var rest := Recorded(events[..|events| - 1]);
      match events[|events| - 1]
      case Query(now, latency) => rest + [Sample(now, latency)]
      case Reset => []
      case _ => rest
  }

  /** Those among them that are not older than the window at the time of the last one. */
  ghost function InWindow(st: Settings, events: seq<Event>): seq<Sample> {
    var all := Recorded(events);
    if all == [] then [] else Fresh(all, all[|all| - 1].at - st.window)
  }

  /** The samples taken at `cutoff` or later, in order. */
  ghost function NotOlder(samples: seq<Sample>, cutoff: real): seq<Sample> {
    if samples == [] then []
    else
      var n := |samples| - 1;
      NotOlder(samples[..n], cutoff) + (if samples[n].at >= cutoff then [samples[n]] else [])
  }

  /** Sweeping keeps exactly those. */
  lemma {:induction false} FreshIsNotOlder(samples: seq<Sample>, cutoff: real)
    ensures Fresh(samples, cutoff) == NotOlder(samples, cutoff)
  {
    if samples != [] {
      var n := |samples| - 1;
      FreshIsNotOlder(samples[..n], cutoff);
      FreshAppend(samples[..n], samples[n], cutoff);
      assert samples == samples[..n] + [samples[n]];
    }
  }

  /** The clock never runs back from one query to the next. */
  ghost predicate Monotone(events: seq<Event>) {
    forall i, j :: 0 <= i < j < |events| && events[i].Query? && events[j].Query? ==> events[i].now <= events[j].now
  }

  ghost predicate TimeOrdered(samples: seq<Sample>) {
    forall i, j :: 0 <= i < j < |samples| ==> samples[i].at <= samples[j].at
  }

  lemma {:induction false} RecordedBefore(events: seq<Event>, t: real)
    requires forall i :: 0 <= i < |events| && events[i].Query? ==> events[i].now <= t
    ensures forall k :: 0 <= k < |Recorded(events)| ==> Recorded(events)[k].at <= t
  {
    if events != [] { RecordedBefore(events[..|events| - 1], t); }
  }

  lemma {:induction false} RecordedOrdered(events: seq<Event>)
    requires Monotone(events)
    ensures TimeOrdered(Recorded(events))
  {
    if events != [] {
      var n := |events| - 1;
      RecordedOrdered(events[..n]);
      if events[n].Query? { RecordedBefore(events[..n], events[n].now); }
    }
  }

  lemma {:induction false} FreshAppend(a: seq<Sample>, s: Sample, cutoff: real)
    ensures Fresh(a + [s], cutoff) == Fresh(a, cutoff) + (if s.at >= cutoff then [s] else [])
  {
    if a == [] {
      assert a + [s] == [s] && [s][1..] == [];
    } else {
      var head, tail := if a[0].at >= cutoff then [a[0]] else [], if s.at >= cutoff then [s] else [];
      assert (a + [s])[1..] == a[1..] + [s];
      FreshAppend(a[1..], s, cutoff);
      assert head + (Fresh(a[1..], cutoff) + tail) == (head + Fresh(a[1..], cutoff)) + tail;
    }
  }

  lemma {:induction false} FreshTwice(a: seq<Sample>, early: real, late: real)
    requires early <= late
    ensures Fresh(Fresh(a, early), late) == Fresh(a, late)
  {
    if a != [] {
      FreshTwice(a[1..], early, late);
      if a[0].at >= early {
        assert ([a[0]] + Fresh(a[1..], early))[1..] == Fresh(a[1..], early);
      } else {
        assert [] + Fresh(a[1..], early) == Fresh(a[1..], early);
      }
    }
  }

  lemma {:induction false} FreshOrdered(a: seq<Sample>, cutoff: real)
    requires TimeOrdered(a)
    ensures TimeOrdered(Fresh(a, cutoff)) && forall k :: 0 <= k < |Fresh(a, cutoff)| ==> Fresh(a, cutoff)[k] in a
  {
    if a != [] {
      FreshOrdered(a[1..], cutoff);
      var f := Fresh(a[1..], cutoff);
      forall k | 0 <= k < |f| ensures a[0].at <= f[k].at {
        var i :| 0 <= i < |a[1..]| && a[1..][i] == f[k];
        assert a[i + 1] == f[k];
      }
    }
  }

  /** Sweeping the old window for a later cutoff gives what a sweep of everything would. */
  lemma PruneAgain(all: seq<Sample>, early: real, late: real)
    requires TimeOrdered(all) && early <= late
    ensures Pruned(Fresh(all, early), late) == Fresh(all, late)
  {
    FreshOrdered(all, early);
    PruneIsExact(Fresh(all, early), late);
    FreshTwice(all, early, late);
  }

  /** One query: pruning the old window and adding the sample gives the new window. */
  lemma WindowStep(all: seq<Sample>, kept: seq<Sample>, s: Sample, window: real)
    requires window >= 0.0 && TimeOrdered(all) && (all != [] ==> all[|all| - 1].at <= s.at)
    requires kept == if all == [] then [] else Fresh(all, all[|all| - 1].at - window)
    ensures Pruned(kept, s.at - window) + [s] == Fresh(all + [s], s.at - window)
  {
    FreshAppend(all, s, s.at - window);
    PrunedWindow(all, kept, s.at - window, window);
  }

  lemma PrunedWindow(all: seq<Sample>, kept: seq<Sample>, late: real, window: real)
    requires TimeOrdered(all) && (all != [] ==> all[|all| - 1].at - window <= late)
    requires kept == if all == [] then [] else Fresh(all, all[|all| - 1].at - window)
    ensures Pruned(kept, late) == Fresh(all, late)
  {
    if all != [] {
      PruneAgain(all, all[|all| - 1].at - window, late);
    }
  }

  lemma RecordedNext(events: seq<Event>, e: Event)
    ensures Recorded(events + [e])
         == if e.Query? then Recorded(events) + [Sample(e.now, e.latency)] else if e.Reset? then [] else Recorded(events)
  {
    assert (events + [e])[..|events|] == events;
  }

  lemma InWindowQuery(st: Settings, events: seq<Event>, now: real, latency: real)
    ensures InWindow(st, events + [Query(now, latency)]) == Fresh(Recorded(events) + [Sample(now, latency)], now - st.window)
  {
    RecordedNext(events, Query(now, latency));
    var all := Recorded(events) + [Sample(now, latency)];
    assert all[|all| - 1] == Sample(now, latency);
  }

  lemma RecordSamples(b: Breaker, now: real, latency: real)
    ensures var r := Record(b, now, latency);
            r.samples == Pruned(b.samples, now - b.settings.window) + [Sample(now, latency)] && r.total == b.total + 1
  {
  }

  lemma OthersKeepSamples(b: Breaker, e: Event)
    requires !e.Query? && !e.Reset?
    ensures Apply(b, e).samples == b.samples && Apply(b, e).total == b.total
  {
  }

  /** The breaker holds exactly the window of the trace. */
  ghost predicate HoldsWindow(st: Settings, b: Breaker, events: seq<Event>) {
    b.samples == InWindow(st, events) && b.total == |Recorded(events)|
  }

  lemma QueryOrdered(events: seq<Event>, more: seq<Event>, now: real, latency: real)
    requires more == events + [Query(now, latency)] && Monotone(more)
    ensures TimeOrdered(Recorded(events)) && forall k :: 0 <= k < |Recorded(events)| ==> Recorded(events)[k].at <= now
  {
    MonotonePrefix(events, Query(now, latency));
    RecordedOrdered(events);
    forall i | 0 <= i < |events| && events[i].Query? ensures events[i].now <= now {
      assert more[i] == events[i] && more[|events|] == Query(now, latency);
    }
    RecordedBefore(events, now);
  }

  lemma QueryHoldsWindow(st: Settings, b: Breaker, events: seq<Event>, more: seq<Event>, now: real, latency: real)
    requires HoldsWindow(st, b, events) && b.settings == st && st.window >= 0.0
    requires more == events + [Query(now, latency)] && Monotone(more)
    ensures HoldsWindow(st, Record(b, now, latency), more)
  {
    NextWindow(st, events, more, now, latency);
    RecordSamples(b, now, latency);
  }

  lemma NextWindow(st: Settings, events: seq<Event>, more: seq<Event>, now: real, latency: real)
    requires st.window >= 0.0 && more == events + [Query(now, latency)] && Monotone(more)
    ensures Pruned(InWindow(st, events), now - st.window) + [Sample(now, latency)] == InWindow(st, more)
    ensures |Recorded(more)| == |Recorded(events)| + 1
  {
    var all, kept, s := Recorded(events), InWindow(st, events), Sample(now, latency);
    QueryOrdered(events, more, now, latency);
    RecordedNext(events, Query(now, latency));
    WindowStep(all, kept, s, st.window);
    InWindowQuery(st, events, now, latency);
  }

  lemma OtherHoldsWindow(st: Settings, b: Breaker, events: seq<Event>, e: Event)
    requires HoldsWindow(st, b, events) && b.settings == st && !e.Query?
    ensures HoldsWindow(st, Apply(b, e), events + [e])
  {
    RecordedNext(events, e);
    if !e.Reset? { OthersKeepSamples(b, e); }
  }

  lemma MonotonePrefix(events: seq<Event>, e: Event)
    requires Monotone(events + [e])
    ensures Monotone(events)
  {
    assert forall i :: 0 <= i < |events| ==> (events + [e])[i] == events[i];
  }

  /** Over every trace with a clock that does not run back, the samples held are exactly the queries since the last reset that are in the window, and the total counts them all. */
  lemma {:induction false} SamplesAreWindow(st: Settings, events: seq<Event>)
    requires Monotone(events) && st.window >= 0.0
    ensures HoldsWindow(st, After(st, events), events)
  {
    if events != [] {
      var n := |events| - 1;
      var before, e := events[..n], events[n];
      assert events == before + [e];
      MonotonePrefix(before, e);
      SamplesAreWindow(st, before);
      CountersAreStreaks(st, before);
      if e.Query? {
        QueryHoldsWindow(st, After(st, before), before, events, e.now, e.latency);
      } else {
        OtherHoldsWindow(st, After(st, before), before, e);
      }
    }
  }

  /** What the breaker holds once it has taken the sample of a query. */
  lemma SampledWindow(st: Settings, events: seq<Event>, more: seq<Event>, now: real, latency: real) returns (s: Breaker)
    requires more == events + [Query(now, latency)] && Monotone(more) && st.window >= 0.0
    ensures s == Sampled(After(st, events), now, latency)
    ensures s.samples == InWindow(st, more) && s.total == |Recorded(events)| + 1
  {
    s := Sampled(After(st, events), now, latency);
    MonotonePrefix(events, Query(now, latency));
    SamplesAreWindow(st, events);
    CountersAreStreaks(st, events);
    NextWindow(st, events, more, now, latency);
  }

  /**
   * Leaving `closed`, in terms of the trace alone: a query opens the breaker if and only if it is
   * past the warm-up since the last reset, and of the queries in its window, of which there are
   * enough, more than a hundredth were slow.
   */
  lemma TripsIff(st: Settings, events: seq<Event>, more: seq<Event>, now: real, latency: real)
    requires After(st, events).phase == Closed && more == events + [Query(now, latency)] && Monotone(more) && st.window >= 0.0
    ensures var all := Recorded(events) + [Sample(now, latency)];
            var window := Fresh(all, now - st.window);
            After(st, more).phase == Open <==>
              |all| > st.minSamples && |window| >= st.minSamples && SlowSamples(window, st.tripMs) > |window| / 100
  {
    InWindowQuery(st, events, now, latency);
    var s := SampledWindow(st, events, more, now, latency);
    LeavesClosedIff(st, events, Query(now, latency));
  }

  // ---- the one-worker queue ----------------------------------------------------------------------

  /** A query that ran: the probation episode it started in, if any, and its latency. */
  datatype Ran = Ran(episode: Option<nat>, latency: real)

  /** `episode` counts the probation episodes begun; `running` remembers the one its query started in. */
  datatype Worker = Worker(breaker: Breaker, queued: nat, running: Option<Option<nat>>, episode: nat, ran: seq<Ran>)

  datatype WorkerEvent =
    | Submit
    | Dequeue
    | Finish(now: real, latency: real)
    | Outside(event: Event)       // a probe result or a reset, from the event loop

  ghost predicate Enabled(w: Worker, e: WorkerEvent) {
    match e
    case Submit => true
    case Dequeue => w.queued > 0 && w.running.None?
    case Finish(_, _) => w.running.Some?
    case Outside(event) => !event.Query?
  }

  /** The dequeue re-check: a query that finds the breaker open is turned away before any SQL. */
  ghost function Step(w: Worker, e: WorkerEvent): Worker
    requires Enabled(w, e)
  {
    match e
    case Submit => w.(queued := w.queued + 1)
    case Dequeue =>
      var taken := w.(queued := w.queued - 1);
      if w.breaker.phase == Open then taken
      else taken.(running := Some(if w.breaker.phase == Probation then Some(w.episode) else None))
    case Finish(now, latency) =>
      w.(breaker := Record(w.breaker, now, latency), running := None, ran := w.ran + [Ran(w.running.value, latency)])
    case Outside(event) =>
      var b := Apply(w.breaker, event);
      w.(breaker := b, episode := if w.breaker.phase != Probation && b.phase == Probation then w.episode + 1 else w.episode)
  }

  /** A query submitted to an idle worker runs and is recorded, unless the breaker is open, when it is turned away. */
  lemma QueryRuns(w: Worker, now: real, latency: real)
    requires w.running.None? && w.queued == 0
    ensures Enabled(Step(w, Submit), Dequeue)
    ensures var taken := Step(Step(w, Submit), Dequeue);
            if w.breaker.phase == Open then taken == w
            else Enabled(taken, Finish(now, latency)) &&
                 var done := Step(taken, Finish(now, latency));
                 var episode := if w.breaker.phase == Probation then Some(w.episode) else None;
                 done == w.(breaker := Record(w.breaker, now, latency), ran := w.ran + [Ran(episode, latency)])
  {
  }

  /** A probe or a reset reaches the breaker, and a new episode is counted exactly when probation begins. */
  lemma OutsideReaches(w: Worker, e: Event)
    requires !e.Query?
    ensures var w' := Step(w, Outside(e));
            && w'.breaker == Apply(w.breaker, e)
            && w' == w.(breaker := w'.breaker, episode := w'.episode)
            && (w'.episode == w.episode + 1 <==> w.breaker.phase == Open && w'.breaker.phase == Probation)
            && (w'.episode == w.episode || w'.episode == w.episode + 1)
  {
  }

  function SlowIn(ran: seq<Ran>, episode: nat, bar: real): nat {
    if ran == [] then 0
    else
      var last := ran[|ran| - 1];
      SlowIn(ran[..|ran| - 1], episode, bar) + (if last.episode == Some(episode) && last.latency >= bar then 1 else 0)
  }

  ghost predicate EpisodeOk(w: Worker, k: nat) {
    var slow := SlowIn(w.ran, k, w.breaker.settings.tripMs);
    && slow <= 1
    && (k > w.episode ==> slow == 0)
    && (k == w.episode && w.breaker.phase == Probation ==> slow == 0)
    && (w.running == Some(Some(k)) ==> slow == 0 && k <= w.episode)
  }

  ghost predicate Inv(w: Worker) {
    && (w.breaker.phase == Open ==> w.running.None?)
    && (w.breaker.phase == Probation ==> w.running != Some(None))
    && (w.running.Some? && w.running.value.Some? && w.breaker.phase == Probation ==> w.running.value.value == w.episode)
    && forall k :: EpisodeOk(w, k)
  }

  lemma FinishKeeps(w: Worker, e: WorkerEvent)
    requires Inv(w) && e.Finish? && Enabled(w, e)
    ensures Inv(Step(w, e))
  {
    var w' := Step(w, e);
    forall k: nat ensures EpisodeOk(w', k) {
      assert EpisodeOk(w, k);
      assert w'.ran[..|w.ran|] == w.ran;
      assert SlowIn(w'.ran, k, w.breaker.settings.tripMs)
          == SlowIn(w.ran, k, w.breaker.settings.tripMs)
             + (if w.running.value == Some(k) && e.latency >= w.breaker.settings.tripMs then 1 else 0);
    }
  }

  lemma OthersKeep(w: Worker, e: WorkerEvent)
    requires Inv(w) && !e.Finish? && Enabled(w, e)
    ensures Inv(Step(w, e))
  {
    var w' := Step(w, e);
    forall k: nat ensures EpisodeOk(w', k) {
      assert EpisodeOk(w, k);
    }
  }

  ghost predicate RunFrom(w: Worker, events: seq<WorkerEvent>)
    decreases |events|
  {
    events == [] || (Enabled(w, events[0]) && RunFrom(Step(w, events[0]), events[1..]))
  }

  ghost function Reached(w: Worker, events: seq<WorkerEvent>): Worker
    requires RunFrom(w, events)
    decreases |events|
  {
    if events == [] then w else Reached(Step(w, events[0]), events[1..])
  }

  lemma {:induction false} RunKeeps(w: Worker, events: seq<WorkerEvent>)
    requires Inv(w) && RunFrom(w, events)
    ensures Inv(Reached(w, events)) && Reached(w, events).breaker.settings == w.breaker.settings
    decreases |events|
  {
    if events != [] {
      if events[0].Finish? { FinishKeeps(w, events[0]); } else { OthersKeep(w, events[0]); }
      RunKeeps(Step(w, events[0]), events[1..]);
    }
  }

  /** In every run: no queued query's SQL is executing while the breaker is open, and each probation episode starts at most one slow query. */
  lemma OneSlowQueryPerEpisode(st: Settings, events: seq<WorkerEvent>, episode: nat)
    requires RunFrom(Worker(New(st), 0, None, 0, []), events)
    ensures var w := Reached(Worker(New(st), 0, None, 0, []), events);
            && (w.breaker.phase == Open ==> w.running.None?)
            && SlowIn(w.ran, episode, st.tripMs) <= 1
  {
    var w0 := Worker(New(st), 0, None, 0, []);
    assert Inv(w0);
    RunKeeps(w0, events);
    assert EpisodeOk(Reached(w0, events), episode);
  }
}
