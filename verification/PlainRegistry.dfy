/** The plain registry as an object whose methods update its dictionary and retained-bytes ledger in place. */
module PlainRegistry {
  import opened Prelude
  import opened Flights
  import opened PlainModel

  class SingleFlight {
    var flights: seq<Flight>
    var entries: seq<nat>
    var retainedBytes: int
    const limits: Limits

    ghost function Model(): Plain
      reads this
    {
      Plain(flights, entries, retainedBytes)
    }

    ghost predicate Valid()
      reads this
    {
      Ranged(Model())
    }

    constructor (limits: Limits)
      ensures Valid() && Model() == EMPTY_PLAIN && this.limits == limits
    {
      flights, entries, retainedBytes := [], [], 0;
      this.limits := limits;
    }

    method DropKey(key: Key)
      requires Valid()
      modifies this
      ensures Valid() && Model() == Drop(old(Model()), key)
    {
      var hit := Lookup(flights, entries, key);
      if hit.Some? {
        Remove(hit.value);
      }
    }

    method Remove(i: nat)
      requires Valid() && i < |flights|
      modifies this
      ensures Valid() && Model() == Evicted(old(Model()), i)
    {
      entries := Without(entries, i);
      assert forall k :: 0 <= k < |entries| ==> entries[k] in old(entries);
      flights := flights[i := flights[i].(timer := false)];
      if flights[i].expiresAt.Some? {
        retainedBytes := retainedBytes - flights[i].size;
      }
    }

    /** The first completed entry in insertion order, if any. */
    method FirstDone() returns (oldest: Option<nat>)
      requires Valid()
      ensures oldest == OldestDone(flights, entries)
    {
      var k := 0;
      while k < |entries|
        invariant 0 <= k <= |entries|
        invariant OldestDone(flights, entries) == OldestDone(flights, entries[k..])
      {
        if Done(flights[entries[k]]) {
          return Some(entries[k]);
        }
        assert entries[k..][1..] == entries[k + 1..];
        k := k + 1;
      }
      return None;
    }

    method EvictOverBudget()
      requires Valid()
      modifies this
      ensures Valid() && Model() == Evict(old(Model()), limits)
    {
      while |entries| > limits.maxEntries || retainedBytes > limits.maxBytes
        invariant Valid() && Evict(Model(), limits) == Evict(old(Model()), limits)
        decreases |entries|
      {
        var oldest := FirstDone();
        if oldest.None? {
          break;
        }
        WithoutShrinks(entries, oldest.value);
        Remove(oldest.value);
      }
    }

    /** The serial point: the flight to join, or the new flight to lead. */
    method Enter(key: Key, now: int) returns (i: nat, leader: bool)
      requires Valid()
      modifies this
      ensures Valid()
      ensures var p := ExpireIfDue(old(Model()), key, now);
              var hit := Find(p.flights, p.entries, key);
              && leader == hit.None?
              && i == (if hit.Some? then hit.value else |p.flights|)
              && Model() == if leader then Insert(p, key, limits) else p
    {
      var due := Lookup(flights, entries, key);
      if due.Some? && Done(flights[due.value]) && now >= flights[due.value].expiresAt.value {
        ExpireFlight(due.value, now);
      }
      var hit := Lookup(flights, entries, key);
      if hit.Some? {
        return hit.value, false;
      }
      i := |flights|;
      flights := flights + [NewFlight(key, 0, 0, false)];
      entries := entries + [i];
      EvictOverBudget();
      return i, true;
    }

    method ExpireFlight(i: nat, now: int)
      requires Valid() && i < |flights|
      modifies this
      ensures Valid() && Model() == Expire(old(Model()), i, now)
    {
      var hit := Lookup(flights, entries, flights[i].key);
      if hit != Some(i) {
        return;
      }
      if flights[i].expiresAt.Some? && flights[i].expiresAt.value <= now {
        DropKey(flights[i].key);
      }
    }

    method ConvertSuccess(i: nat, body: Body, now: int)
      requires Valid() && i < |flights|
      modifies this
      ensures Valid() && Model() == Complete(old(Model()), i, body, now, limits)
    {
      var hit := Lookup(flights, entries, flights[i].key);
      var f := flights[i];
      if f.future.Pending? {
        f := f.(future := Result(body));
      }
      if hit != Some(i) {
        flights := flights[i := f];
        return;
      }
      f := f.(expiresAt := Some(now + limits.grace), size := SizeOf(body));
      flights := flights[i := f];
      retainedBytes := retainedBytes + f.size;
      EvictThenArm(i);
    }

    method EvictThenArm(i: nat)
      requires Valid() && i < |flights|
      modifies this
      ensures Valid() && Model() == Retain(old(Model()), i, limits)
    {
      EvictOverBudget();
      var hit := Lookup(flights, entries, flights[i].key);
      if hit == Some(i) {
        flights := flights[i := flights[i].(timer := true)];
      }
    }

    method FailFlight(i: nat, outcome: Future)
      requires Valid() && i < |flights|
      modifies this
      ensures Valid() && Model() == Abandon(old(Model()), i, outcome)
    {
      DropKey(flights[i].key);
      if flights[i].future.Pending? {
        flights := flights[i := flights[i].(future := outcome)];
      }
    }

    method Close()
      requires Valid()
      modifies this
      ensures Valid() && Model() == Shutdown(old(Model()))
    {
      var keys := entries;
      var k := 0;
      while k < |keys|
        invariant 0 <= k <= |keys| && Valid() && |flights| == old(|flights|)
        invariant Clear(Model(), keys[k..]) == Clear(old(Model()), keys)
      {
        assert keys[k..][1..] == keys[k + 1..];
        DropKey(flights[keys[k]].key);
        k := k + 1;
      }
    }
  }
}
