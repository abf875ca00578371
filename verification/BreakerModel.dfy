/** The latency breaker on values: sliding sample window, nearest-rank P99, open / probation / closed. */
module BreakerModel {
  import opened Prelude

  datatype Phase = Closed | Open | Probation

  datatype Sample = Sample(at: real, latency: real)

  datatype Settings = Settings(
    window: real, minSamples: int, tripMs: real, recoverMs: real, recoverProbes: int, recoverQueries: int)

  /** The streak lengths asked for are at least one. */
  function AtLeastOne(n: int): nat {
    if n < 1 then 1 else n
  }

  datatype Breaker = Breaker(
    settings: Settings, samples: seq<Sample>, probeStreak: nat, probationGood: nat, total: nat, phase: Phase)

  function New(settings: Settings): Breaker {
    Breaker(settings, [], 0, 0, 0, Closed)
  }

  function Fresh(samples: seq<Sample>, cutoff: real): seq<Sample> {
    if samples == [] then []
    else (if samples[0].at >= cutoff then [samples[0]] else []) + Fresh(samples[1..], cutoff)
  }

  /** Only a stale first sample causes a sweep. */
  function Pruned(samples: seq<Sample>, cutoff: real): seq<Sample> {
    if samples != [] && samples[0].at < cutoff then Fresh(samples, cutoff) else samples
  }

  function Insert(x: real, s: seq<real>): seq<real> {
    if s == [] || x <= s[0] then [x] + s else [s[0]] + Insert(x, s[1..])
  }

  function Ordered(samples: seq<Sample>): seq<real> {
    if samples == [] then [] else Insert(samples[0].latency, Ordered(samples[1..]))
  }

  /** Nearest rank: the ceiling of `pct * n / 100`, less one, never below zero. */
  function Rank(n: nat, pct: nat): nat {
    var r := -(-(n * pct) / 100) - 1;
    if r < 0 then 0 else r
  }

  lemma OrderedLength(samples: seq<Sample>)
    ensures |Ordered(samples)| == |samples|
  {
    if samples != [] {
      OrderedLength(samples[1..]);
      InsertLength(samples[0].latency, Ordered(samples[1..]));
    }
  }

  lemma {:induction false} InsertLength(x: real, s: seq<real>)
    ensures |Insert(x, s)| == |s| + 1
  {
    if s != [] && x > s[0] { InsertLength(x, s[1..]); }
  }

  lemma RankInRange(n: nat, pct: nat)
    requires n >= 1 && pct <= 100
    ensures Rank(n, pct) < n
  {
    assert n * pct <= n * 100;
  }

  function Percentile(samples: seq<Sample>, pct: nat): Option<real>
    requires pct <= 100
  {
    if samples == [] then None
    else
      OrderedLength(samples);
      RankInRange(|samples|, pct);
      Some(Ordered(samples)[Rank(|samples|, pct)])
  }

  function Trip(b: Breaker): Breaker {
    b.(phase := Open, probeStreak := 0, probationGood := 0)
  }

  /** The sample is taken in every phase; what it decides depends on the phase. */
  function Sampled(b: Breaker, now: real, latency: real): Breaker {
    b.(samples := Pruned(b.samples, now - b.settings.window) + [Sample(now, latency)], total := b.total + 1)
  }

  predicate WindowTrips(b: Breaker) {
    && b.total > b.settings.minSamples && |b.samples| >= b.settings.minSamples
    && var p99 := Percentile(b.samples, 99); p99.Some? && p99.value >= b.settings.tripMs
  }

  function Record(b: Breaker, now: real, latency: real): Breaker {
    var s := Sampled(b, now, latency);
    match b.phase
    case Open => s
    case Probation =>
      if latency >= b.settings.tripMs then Trip(s)
      else if b.probationGood + 1 >= AtLeastOne(b.settings.recoverQueries) then s.(phase := Closed, probationGood := 0)
      else s.(probationGood := b.probationGood + 1)
    case Closed => if WindowTrips(s) then Trip(s) else s
  }

  function NoteProbe(b: Breaker, latency: real): (Breaker, bool) {
    if b.phase != Open then (b, true)
    else
      var streak := if latency < b.settings.recoverMs then b.probeStreak + 1 else 0;
      if streak >= AtLeastOne(b.settings.recoverProbes) then (b.(phase := Probation, probeStreak := 0), true)
      else (b.(probeStreak := streak), false)
  }

  function ProbeFailed(b: Breaker): Breaker {
    if b.phase == Open then b.(probeStreak := 0) else b
  }
}
