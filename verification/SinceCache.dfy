/** The snapshot cache as a mutable object, with the generation counter all caches of a process share. */
module SinceCache {
  import opened Prelude
  import opened Base64Url
  import M = SinceModel
  import D = OrderedDict

  class Process {
    var next: nat

    constructor ()
      ensures next == 0
    {
      next := 0;
    }

    method Allocate() returns (g: nat)
      modifies this
      ensures g == next == old(next) + 1
    {
      next := next + 1;
      g := next;
    }
  }

  class SinceCache {
    const limits: M.Limits
    const process: Process
    var slots: seq<D.Slot<M.Key, M.Entry>>
    var retained: int

    constructor (limits: M.Limits, process: Process)
      ensures this.limits == limits && this.process == process
      ensures State() == M.Cache(limits, [], 0)
    {
      this.limits := limits;
      this.process := process;
      slots := [];
      retained := 0;
    }

    function State(): M.Cache
      reads this
    {
      M.Cache(limits, slots, retained)
    }

    method Touch(key: M.Key)
      modifies this
      ensures State() == M.Touch(old(State()), key)
    {
      var found := D.Find(slots, key);
      if found.Some? {
        slots := D.Remove(slots, key) + [D.Slot(key, found.value)];
      }
    }

    method Drop(key: M.Key)
      modifies this
      ensures State() == M.Drop(old(State()), key)
    {
      var found := D.Find(slots, key);
      if found.Some? {
        slots := D.Remove(slots, key);
        retained := retained - M.Retained(found.value);
      }
    }

    method EvictOverBudget()
      modifies this
      ensures State() == M.EvictOver(old(State()))
    {
      while |slots| > limits.maxEntries || retained > limits.maxBytes
        invariant M.EvictOver(State()) == M.EvictOver(old(State()))
        decreases |slots|
      {
        if slots == [] {
          break;
        }
        var oldest := slots[0].key;
        Drop(oldest);
      }
    }

    method Observe(key: M.Key) returns (snapshot: Option<M.Entry>)
      modifies this
      ensures (State(), snapshot) == M.Observe(old(State()), key)
    {
      if !limits.enabled {
        return None;
      }
      snapshot := D.Find(slots, key);
      if snapshot.Some? {
        Touch(key);
      }
    }

    method Commit(key: M.Key, observed: Option<M.Entry>, items: seq<Byte>, prints: seq<(string, string)>, cacheable: bool)
      returns (outcome: M.Outcome)
      modifies this, process
      ensures M.Committed(State(), process.next, outcome)
           == M.Commit(old(State()), old(process.next), key, observed, items, prints, cacheable)
    {
      if !limits.enabled {
        return M.Outcome(None, false, true, true);
      }
      var current := D.Find(slots, key);
      var same := current.Some? && current.value.items == items;
      if !M.SameObservation(current, observed) {
        if same {
          Touch(key);
          return M.Outcome(current, true, false, false);
        }
        return M.Outcome(current, true, true, false);
      }
      if same {
        Touch(key);
        return M.Outcome(current, false, false, false);
      }
      if !cacheable || M.RetainedBy(items, prints) > limits.maxEntryBytes {
        Drop(key);
        return M.Outcome(None, false, true, true);
      }
      var generation := process.Allocate();
      var entry := M.Entry(items, prints, generation);
      Drop(key);
      slots := slots + [D.Slot(key, entry)];
      retained := retained + M.Retained(entry);
      EvictOverBudget();
      if D.Find(slots, key).None? {
        return M.Outcome(None, false, true, true);
      }
      return M.Outcome(Some(entry), false, false, false);
    }
  }
}
