/**
 * Value-level model of the leased single-flight registry.
 *
 * `active` lists the joinable flights in dictionary insertion order; `retired`
 * is the tombstone layer.
 */
module LeasedModel {
  import opened Prelude
  import opened Flights

  datatype Registry = Registry(flights: seq<Flight>, active: seq<nat>, retired: set<nat>, leased: int)

  const EMPTY_REGISTRY := Registry([], [], {}, 0)

  ghost predicate Bounded(r: Registry) {
    && Below(r.active, |r.flights|)
    && (forall i <- r.retired :: i < |r.flights|)
  }

  function Edit(r: Registry, i: nat, f: Flight): Registry
    requires i < |r.flights|
  {
    r.(flights := r.flights[i := f])
  }

  // ---- ownership transitions ---------------------------------------------

  function Refund(r: Registry, i: nat): Registry
    requires i < |r.flights|
  {
    var f := r.flights[i];
    if f.accounted then Edit(r, i, f.(accounted := false)).(leased := r.leased - f.reserve) else r
  }

  function Detach(r: Registry, i: nat): Registry {
    r.(active := Without(r.active, i))
  }

  /** Delete a caller-less tombstone, refunding it if it still counts. */
  function Reap(r: Registry, i: nat): Registry
    requires i < |r.flights|
  {
    var r1 := Refund(r, i);
    Detach(r1.(retired := r1.retired - {i}), i)
  }

  function ReleaseCaller(r: Registry, i: nat): Registry
    requires i < |r.flights|
  {
    var f := r.flights[i];
    var n := if f.refs > 0 then f.refs - 1 else 0;
    var r1 := Edit(r, i, f.(refs := n));
    if n != 0 then r1
    else if f.state == Retained || f.state == Failed then Reap(r1, i)
    else r1
  }

  /** `outcome` is what the leader writes to the shared future: an envelope or a cancellation. */
  function Fail(r: Registry, i: nat, outcome: Future): Registry
    requires i < |r.flights|
  {
    var r1 := Detach(ReleaseCaller(r, i), i);
    var r2 := Edit(r1, i, r1.flights[i].(layer := Retired, state := Failed)).(retired := r1.retired + {i});
    var r3 := Refund(r2, i);
    var f := r3.flights[i];
    var r4 := if f.future.Pending? then Edit(r3, i, f.(future := outcome)) else r3;
    if r4.flights[i].refs == 0 then Reap(r4, i) else r4
  }

  function Succeed(r: Registry, i: nat, body: Body, deadline: int): Registry
    requires i < |r.flights|
  {
    var f0 := r.flights[i];
    var f := if f0.future.Pending? then f0.(future := Result(body)) else f0;
    if f.layer == Active && f.state == InFlight then
      Edit(r, i, f.(state := Grace, expiresAt := Some(deadline), timer := true))
    else if f.layer == Retired && f.state == InFlight then
      Edit(r, i, f.(state := Retained))
    else Edit(r, i, f)
  }

  function DropGrace(r: Registry, i: nat): Registry
    requires i < |r.flights|
  {
    var r1 := Detach(r, i);
    var r2 := Edit(r1, i, r1.flights[i].(layer := Retired, state := Retained)).(retired := r1.retired + {i});
    if r2.flights[i].refs == 0 then Reap(r2, i) else r2
  }

  function ExpireGrace(r: Registry, i: nat): Registry
    requires i < |r.flights|
  {
    var f := r.flights[i];
    if f.state != Grace || f.layer != Active then r
    else DropGrace(Edit(r, i, f.(timer := false)), i)
  }

  /** The timer callback and the tail of the lazy check: a no-op on a replaced flight. */
  function ExpireEntry(r: Registry, i: nat): Registry
    requires i < |r.flights| && Bounded(r)
  {
    if Find(r.flights, r.active, r.flights[i].key) == Some(i) then ExpireGrace(r, i) else r
  }

  function ExpireIfDue(r: Registry, key: Key, now: int): Registry
    requires Bounded(r)
  {
    var hit := Find(r.flights, r.active, key);
    if hit.Some? && r.flights[hit.value].expiresAt.Some? && now >= r.flights[hit.value].expiresAt.value
    then ExpireEntry(r, hit.value) else r
  }

  // ---- admission ------------------------------------------------------------

  predicate Idle(f: Flight) {
    f.state == Grace && f.refs == 0
  }

  /** The serial-point eviction sweep over a snapshot of the dictionary, oldest first. */
  function Sweep(r: Registry, ids: seq<nat>, needed: nat, maxBytes: int): (r': Registry)
    requires Below(ids, |r.flights|)
    ensures |r'.flights| == |r.flights|
    decreases |ids|
  {
    if ids == [] || r.leased + needed <= maxBytes then r
    else
      var r1 := if Idle(r.flights[ids[0]]) then ExpireGrace(r, ids[0]) else r;
      Sweep(r1, ids[1..], needed, maxBytes)
  }

  function TryReserve(r: Registry, needed: nat, maxBytes: int): (bool, Registry)
    requires Bounded(r)
  {
    if needed > maxBytes then (false, r)
    else if r.leased + needed <= maxBytes then (true, r)
    else
      var r1 := Sweep(r, r.active, needed, maxBytes);
      (r1.leased + needed <= maxBytes, r1)
  }

  function Register(r: Registry, key: Key, reserve: nat): Registry {
    var f := NewFlight(key, 1, reserve, true);
    Registry(r.flights + [f], r.active + [|r.flights|], r.retired, r.leased + reserve)
  }

  function AddRef(r: Registry, i: nat): Registry
    requires i < |r.flights|
  {
    Edit(r, i, r.flights[i].(refs := r.flights[i].refs + 1))
  }

  // ---- teardown ---------------------------------------------------------------

  function Converge(r: Registry, i: nat): Registry
    requires i < |r.flights|
  {
    var f := r.flights[i].(timer := false, layer := Retired);
    var r1 := Detach(Edit(r, i, f), i).(retired := r.retired + {i});
    if f.state == Grace then
      var r2 := Edit(r1, i, f.(state := Retained));
      if f.refs == 0 then Reap(r2, i) else r2
    else r1
  }

  function ConvergeAll(r: Registry, ids: seq<nat>): (r': Registry)
    requires Below(ids, |r.flights|)
    ensures |r'.flights| == |r.flights|
    decreases |ids|
  {
    if ids == [] then r else ConvergeAll(Converge(r, ids[0]), ids[1..])
  }

  function Shutdown(r: Registry): Registry
    requires Bounded(r)
  {
    ConvergeAll(r, r.active)
  }
}
