/** The incarnation store and the turn registry as mutable objects. */
module TurnRegistry {
  import opened Prelude
  import M = TurnModel
  import D = OrderedDict

  class IncarnationStore {
    var primary: M.File
    const legacy: Option<M.File>

    constructor (primary: M.File, legacy: Option<M.File>)
      ensures Model() == M.Disk(primary, legacy)
    {
      this.primary := primary;
      this.legacy := legacy;
    }

    function Model(): M.Disk
      reads this
    {
      M.Disk(primary, legacy)
    }

    /** One atomic write attempt: the file changes exactly when it succeeds. */
    method WritePersisted(inc: nat, succeeds: bool) returns (ok: bool)
      modifies this
      ensures ok == succeeds
      ensures primary == if ok then M.Holds(inc) else old(primary)
    {
      if succeeds {
        primary := M.Holds(inc);
      }
      ok := succeeds;
    }

    /** Both files are read before anything is written; bytes that are no UTF-8 raise out of the call. */
    method LoadOrBump(w: M.Weather) returns (v: Option<M.Incarnation>)
      modifies this
      ensures (Model(), v) == M.LoadOrBump(old(Model()), w)
    {
      var base := 0;
      if primary.NotText? && !w.primaryFault {
        return None;
      }
      var first := M.ReadPath(primary, w.primaryFault);
      if first.Some? {
        base := first.value;
      }
      if legacy.Some? {
        if legacy.value.NotText? && !w.legacyFault {
          return None;
        }
        var second := M.ReadPath(legacy.value, w.legacyFault);
        if second.Some? && second.value > base {
          base := second.value;
        }
      }
      var inc := base + 1;
      var durable, attempt := false, 0;
      while attempt < M.WRITE_ATTEMPTS && !durable
        invariant 0 <= attempt <= M.WRITE_ATTEMPTS
        invariant durable == M.Confirmed(w, attempt)
        invariant durable ==> M.Confirmed(w, M.WRITE_ATTEMPTS)
        invariant primary == if durable then M.Holds(inc) else old(primary)
      {
        var ok := WritePersisted(inc, attempt < |w.writes| && w.writes[attempt]);
        attempt := attempt + 1;
        if ok {
          durable := true;
          Stays(w, attempt);
        }
      }
      if !durable && inc < w.clock + 1 {
        return Some(M.Incarnation(w.clock + 1, false));
      }
      return Some(M.Incarnation(inc, durable));
    }

    static lemma {:induction false} Stays(w: M.Weather, k: nat)
      requires k <= M.WRITE_ATTEMPTS && M.Confirmed(w, k)
      ensures M.Confirmed(w, M.WRITE_ATTEMPTS)
      decreases M.WRITE_ATTEMPTS - k
    {
      if k < M.WRITE_ATTEMPTS { Stays(w, k + 1); }
    }
  }

  class Registry {
    const incarnation: M.Incarnation
    var turns: M.Counters

    constructor (incarnation: M.Incarnation)
      ensures this.incarnation == incarnation && turns == []
    {
      this.incarnation := incarnation;
      turns := [];
    }

    method BumpTurn(sid: string) returns (turn: nat)
      modifies this
      ensures turns == M.Bump(old(turns), sid, M.TURNS_MAX)
      ensures turn == M.TurnOf(turns, sid)
    {
      turns := D.Remove(turns, sid) + [D.Slot(sid, M.TurnOf(turns, sid) + 1)];
      while |turns| > M.TURNS_MAX
        invariant M.Trim(turns, M.TURNS_MAX) == M.Bump(old(turns), sid, M.TURNS_MAX)
        decreases |turns|
      {
        turns := turns[1..];
      }
      return M.TurnOf(turns, sid);
    }

    /** Nothing is published for an incarnation that was not confirmed on disk. */
    function Snapshot(sid: string): (r: Option<(int, nat)>)
      reads this
      ensures r.Some? <==> incarnation.durable
      ensures r.Some? ==> r.value == (incarnation.value, M.TurnOf(turns, sid))
    {
      if incarnation.durable then Some((incarnation.value, M.TurnOf(turns, sid))) else None
    }
  }
}
