/** The breaker as a mutable object. The clock's reading is a parameter. */
module LatencyBreaker {
  import opened Prelude
  import M = BreakerModel

  class LatencyBreaker {
    const settings: M.Settings
    var samples: seq<M.Sample>
    var probeStreak: nat
    var probationGood: nat
    var total: nat
    var phase: M.Phase

    constructor (settings: M.Settings)
      ensures Model() == M.New(settings)
    {
      this.settings := settings;
      samples := [];
      probeStreak, probationGood, total := 0, 0, 0;
      phase := M.Closed;
    }

    function Model(): M.Breaker
      reads this
    {
      M.Breaker(settings, samples, probeStreak, probationGood, total, phase)
    }

    method Trip()
      modifies this
      ensures Model() == M.Trip(old(Model()))
    {
      phase := M.Open;
      probeStreak := 0;
      probationGood := 0;
    }

    method Record(now: real, latency: real)
      modifies this
      ensures Model() == M.Record(old(Model()), now, latency)
    {
      samples := M.Pruned(samples, now - settings.window) + [M.Sample(now, latency)];
      total := total + 1;
      if phase == M.Open {
        return;
      }
      if phase == M.Probation {
        if latency >= settings.tripMs {
          Trip();
        } else {
          probationGood := probationGood + 1;
          if probationGood >= M.AtLeastOne(settings.recoverQueries) {
            phase := M.Closed;
            probationGood := 0;
          }
        }
        return;
      }
      if total <= settings.minSamples || |samples| < settings.minSamples {
        return;
      }
      var p99 := M.Percentile(samples, 99);
      if p99.Some? && p99.value >= settings.tripMs {
        Trip();
      }
    }

    method NoteProbe(latency: real) returns (recovered: bool)
      modifies this
      ensures (Model(), recovered) == M.NoteProbe(old(Model()), latency)
    {
      if phase != M.Open {
        return true;
      }
      if latency < settings.recoverMs {
        probeStreak := probeStreak + 1;
      } else {
        probeStreak := 0;
      }
      if probeStreak >= M.AtLeastOne(settings.recoverProbes) {
        phase := M.Probation;
        probeStreak := 0;
        return true;
      }
      return false;
    }

    method ProbeFailed()
      modifies this
      ensures Model() == M.ProbeFailed(old(Model()))
    {
      if phase == M.Open {
        probeStreak := 0;
      }
    }

    method Reset()
      modifies this
      ensures Model() == M.New(settings)
    {
      samples := [];
      probeStreak, probationGood, total := 0, 0, 0;
      phase := M.Closed;
    }
  }
}
