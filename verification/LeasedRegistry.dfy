/** The leased registry as an object whose methods update its two layers, flights and budget in place. */
module LeasedRegistry {
  import opened Prelude
  import opened Flights
  import opened LeasedModel

  /** What the serial point of a fetch decides. */
  datatype Decision = Join(i: nat) | Lead(i: nat) | Bypass

  class SingleFlight {
    var flights: seq<Flight>
    var entries: seq<nat>
    var retired: set<nat>
    var leasedBytes: int
    const maxBytes: nat
    const grace: nat

    ghost function Model(): Registry
      reads this
    {
      Registry(flights, entries, retired, leasedBytes)
    }

    ghost predicate Valid()
      reads this
    {
      Bounded(Model())
    }

    constructor (maxBytes: nat, grace: nat)
      ensures Valid() && Model() == EMPTY_REGISTRY
      ensures this.maxBytes == maxBytes && this.grace == grace
    {
      flights, entries, retired, leasedBytes := [], [], {}, 0;
      this.maxBytes, this.grace := maxBytes, grace;
    }

    method RefundFlight(i: nat)
      requires Valid() && i < |flights|
      modifies this
      ensures Valid() && Model() == Refund(old(Model()), i)
    {
      if flights[i].accounted {
        leasedBytes := leasedBytes - flights[i].reserve;
        flights := flights[i := flights[i].(accounted := false)];
      }
    }

    method DetachFromActive(i: nat)
      requires Valid()
      modifies this
      ensures Valid() && Model() == Detach(old(Model()), i)
    {
      entries := Without(entries, i);
      assert forall k :: 0 <= k < |entries| ==> entries[k] in old(entries);
    }

    method ReapFlight(i: nat)
      requires Valid() && i < |flights|
      modifies this
      ensures Valid() && Model() == Reap(old(Model()), i)
    {
      RefundFlight(i);
      retired := retired - {i};
      DetachFromActive(i);
    }

    method ReleaseRef(i: nat)
      requires Valid() && i < |flights|
      modifies this
      ensures Valid() && Model() == ReleaseCaller(old(Model()), i)
    {
      if flights[i].refs > 0 {
        flights := flights[i := flights[i].(refs := flights[i].refs - 1)];
      } else {
        assert flights[i := flights[i].(refs := 0)] == flights;
      }
      if flights[i].refs != 0 {
        return;
      }
      if flights[i].state == Retained || flights[i].state == Failed {
        ReapFlight(i);
      }
    }

    /** Leader failure: reference, registration, refund, delivery, then reap, in that order. */
    method FailFlight(i: nat, outcome: Future)
      requires Valid() && i < |flights|
      modifies this
      ensures Valid() && Model() == Fail(old(Model()), i, outcome)
    {
      ReleaseRef(i);
      DetachFromActive(i);
      flights := flights[i := flights[i].(layer := Retired, state := Failed)];
      retired := retired + {i};
      RefundFlight(i);
      if flights[i].future.Pending? {
        flights := flights[i := flights[i].(future := outcome)];
      }
      if flights[i].refs == 0 {
        ReapFlight(i);
      }
    }

    method ConvertSuccess(i: nat, body: Body, now: int)
      requires Valid() && i < |flights|
      modifies this
      ensures Valid() && Model() == Succeed(old(Model()), i, body, now + grace)
    {
      var f := flights[i];
      if f.future.Pending? {
        f := f.(future := Result(body));
      }
      if f.layer == Active && f.state == InFlight {
        f := f.(state := Grace, expiresAt := Some(now + grace), timer := true);
      } else if f.layer == Retired && f.state == InFlight {
        f := f.(state := Retained);
      }
      flights := flights[i := f];
    }

    method Expire(i: nat)
      requires Valid() && i < |flights|
      modifies this
      ensures Valid() && Model() == ExpireGrace(old(Model()), i) && |flights| == old(|flights|)
    {
      if flights[i].state != Grace || flights[i].layer != Active {
        return;
      }
      flights := flights[i := flights[i].(timer := false)];
      DetachFromActive(i);
      flights := flights[i := flights[i].(layer := Retired, state := Retained)];
      retired := retired + {i};
      if flights[i].refs == 0 {
        ReapFlight(i);
      }
    }

    method ExpireDue(key: Key, now: int)
      requires Valid()
      modifies this
      ensures Valid() && Model() == ExpireIfDue(old(Model()), key, now)
    {
      var hit := Lookup(flights, entries, key);
      if hit.Some? && flights[hit.value].expiresAt.Some? && now >= flights[hit.value].expiresAt.value {
        Expire(hit.value);
      }
    }

    method Reserve(needed: nat) returns (ok: bool)
      requires Valid()
      modifies this
      ensures Valid() && (ok, Model()) == TryReserve(old(Model()), needed, maxBytes)
    {
      if needed > maxBytes {
        return false;
      }
      if leasedBytes + needed <= maxBytes {
        return true;
      }
      var keys := entries;
      var k := 0;
      while k < |keys| && leasedBytes + needed > maxBytes
        invariant 0 <= k <= |keys| && Valid() && |flights| == old(|flights|)
        invariant Sweep(Model(), keys[k..], needed, maxBytes) == Sweep(old(Model()), keys, needed, maxBytes)
      {
        var i := keys[k];
        assert keys[k..][1..] == keys[k + 1..];
        if Idle(flights[i]) {
          Expire(i);
        }
        k := k + 1;
      }
      return leasedBytes + needed <= maxBytes;
    }

    /** The serial point: join the registered flight, or lead a new one if its reserve fits, or bypass. */
    method Admit(key: Key, reserve: nat, now: int) returns (d: Decision)
      requires Valid()
      modifies this
      ensures Valid()
      ensures var r := ExpireIfDue(old(Model()), key, now);
              Bounded(r) &&
              var hit := Find(r.flights, r.active, key);
              if hit.Some? then d == Join(hit.value) && Model() == AddRef(r, hit.value)
              else
                var (ok, r1) := TryReserve(r, reserve, maxBytes);
                if ok then d == Lead(|r1.flights|) && Model() == Register(r1, key, reserve)
                else d == Bypass && Model() == r1
    {
      ExpireDue(key, now);
      var hit := Lookup(flights, entries, key);
      if hit.Some? {
        flights := flights[hit.value := flights[hit.value].(refs := flights[hit.value].refs + 1)];
        return Join(hit.value);
      }
      var ok := Reserve(reserve);
      if !ok {
        return Bypass;
      }
      var i := |flights|;
      flights := flights + [NewFlight(key, 1, reserve, true)];
      leasedBytes := leasedBytes + reserve;
      entries := entries + [i];
      return Lead(i);
    }

    method Close()
      requires Valid()
      modifies this
      ensures Valid() && Model() == Shutdown(old(Model()))
    {
      var keys := entries;
      var k := 0;
      while k < |keys|
        invariant 0 <= k <= |keys| && Valid() && |flights| == old(|flights|)
        invariant ConvergeAll(Model(), keys[k..]) == ConvergeAll(old(Model()), keys)
      {
        var i := keys[k];
        assert keys[k..][1..] == keys[k + 1..];
        ConvergeOne(i);
        k := k + 1;
      }
    }

    method ConvergeOne(i: nat)
      requires Valid() && i < |flights|
      modifies this
      ensures Valid() && Model() == Converge(old(Model()), i) && |flights| == old(|flights|)
    {
      flights := flights[i := flights[i].(timer := false)];
      DetachFromActive(i);
      flights := flights[i := flights[i].(layer := Retired)];
      retired := retired + {i};
      if flights[i].state == Grace {
        flights := flights[i := flights[i].(state := Retained)];
        if flights[i].refs == 0 {
          ReapFlight(i);
        }
      }
    }
  }
}
