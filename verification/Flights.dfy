/**
 * One flight of the single-flight registry, shared by both profiles.
 *
 * A flight object is identified by its index in the list of all flights ever
 * created, so object identity is index identity, and a flight that left the
 * registry is still there for the callers that refer to it.
 */
module Flights {
  import opened Prelude

  type Key = string
  /** A factory result: raw bytes, or any other object (which has no byte size). */
  datatype Body = Bytes(data: string) | Object(tag: nat)
  /** Identity of one exception instance. */
  type Exc = nat

  datatype Future = Pending | Result(body: Body) | Envelope(exc: Exc) | Cancelled
  datatype Ownership = InFlight | Grace | Retained | Failed
  datatype Layer = Active | Retired

  datatype Flight = Flight(
    key: Key,
    future: Future,
    refs: nat,
    state: Ownership,
    layer: Layer,
    reserve: nat,
    accounted: bool,
    expiresAt: Option<int>,
    timer: bool,
    size: nat)

  /** How a leader's factory ends. */
  datatype Ending = Ok(body: Body) | Error(exc: Exc) | Interrupted

  /** What that publishes to the waiters. */
  function Published(ending: Ending): Future {
    match ending
    case Ok(body) => Result(body)
    case Error(exc) => Envelope(exc)
    case Interrupted => Cancelled
  }

  /** A new flight, as its leader registers it. */
  function NewFlight(key: Key, refs: nat, reserve: nat, accounted: bool): Flight {
    Flight(key, Pending, refs, InFlight, Active, reserve, accounted, None, false, 0)
  }

  /** The flight registered for `key` (the dictionary lookup); `active` lists the dictionary in insertion order. */
  function Find(flights: seq<Flight>, active: seq<nat>, key: Key): (r: Option<nat>)
    requires Below(active, |flights|)
    ensures r.Some? ==> r.value in active && flights[r.value].key == key
    ensures r.None? ==> forall k :: 0 <= k < |active| ==> flights[active[k]].key != key
  {
    if active == [] then None
    else if flights[active[0]].key == key then Some(active[0])
    else Find(flights, active[1..], key)
  }

  /** The lookup as a scan. */
  method Lookup(flights: seq<Flight>, active: seq<nat>, key: Key) returns (hit: Option<nat>)
    requires Below(active, |flights|)
    ensures hit == Find(flights, active, key)
  {
    hit := None;
    var k := |active|;
    while k > 0
      invariant 0 <= k <= |active|
      invariant hit == Find(flights, active[k..], key)
    {
      k := k - 1;
      assert active[k..][1..] == active[k + 1..];
      if flights[active[k]].key == key {
        hit := Some(active[k]);
      }
    }
  }

  lemma {:induction false} FindFrame(fs: seq<Flight>, i: nat, f: Flight, active: seq<nat>, key: Key)
    requires i < |fs| && f.key == fs[i].key && Below(active, |fs|)
    ensures Find(fs[i := f], active, key) == Find(fs, active, key)
  {
    if active != [] {
      FindFrame(fs, i, f, active[1..], key);
    }
  }
}
