/**
 * The plain single-flight profile: join-or-lead with bounded retention of
 * completed results. Only `key`, `future`, `expiresAt`, `timer` and `size` of a
 * flight are used; a registered flight is in flight until its grace deadline is set.
 */
module PlainModel {
  import opened Prelude
  import opened Flights

  datatype Plain = Plain(flights: seq<Flight>, entries: seq<nat>, retained: int)

  datatype Limits = Limits(maxEntries: int, maxBytes: nat, grace: nat)

  const EMPTY_PLAIN := Plain([], [], 0)

  function SizeOf(body: Body): nat {
    if body.Bytes? then |body.data| else 0
  }

  predicate Done(f: Flight) {
    f.expiresAt.Some?
  }

  ghost predicate Ranged(p: Plain) {
    Below(p.entries, |p.flights|)
  }

  function Edit(p: Plain, i: nat, f: Flight): Plain
    requires i < |p.flights|
  {
    p.(flights := p.flights[i := f])
  }

  /** Remove flight `i` from the dictionary, cancel its timer, refund it if it had completed. */
  function Evicted(p: Plain, i: nat): (q: Plain)
    requires i < |p.flights| && Ranged(p)
    ensures Ranged(q) && |q.flights| == |p.flights|
  {
    var f := p.flights[i];
    var rest := Without(p.entries, i);
    assert forall k :: 0 <= k < |rest| ==> rest[k] in p.entries;
    Plain(p.flights[i := f.(timer := false)], rest, if Done(f) then p.retained - f.size else p.retained)
  }

  /** Drop whatever is registered for `key`: there is no identity check. */
  function Drop(p: Plain, key: Key): (q: Plain)
    requires Ranged(p)
    ensures Ranged(q) && |q.flights| == |p.flights|
  {
    var hit := Find(p.flights, p.entries, key);
    if hit.Some? then Evicted(p, hit.value) else p
  }

  /** The oldest completed entry. */
  function OldestDone(fs: seq<Flight>, entries: seq<nat>): (r: Option<nat>)
    requires Below(entries, |fs|)
    ensures r.Some? ==> r.value in entries && r.value < |fs| && Done(fs[r.value])
    ensures r.None? ==> forall k :: 0 <= k < |entries| ==> !Done(fs[entries[k]])
  {
    if entries == [] then None
    else if Done(fs[entries[0]]) then Some(entries[0])
    else OldestDone(fs, entries[1..])
  }

  predicate OverBudget(p: Plain, lim: Limits) {
    |p.entries| > lim.maxEntries || p.retained > lim.maxBytes
  }

  function Evict(p: Plain, lim: Limits): (q: Plain)
    requires Ranged(p)
    ensures Ranged(q) && |q.flights| == |p.flights|
    decreases |p.entries|
  {
    if !OverBudget(p, lim) then p
    else
      var oldest := OldestDone(p.flights, p.entries);
      if oldest.None? then p
      else
        WithoutShrinks(p.entries, oldest.value);
        Evict(Evicted(p, oldest.value), lim)
  }

  lemma WithoutShrinks(s: seq<nat>, x: nat)
    requires x in s
    ensures |Without(s, x)| < |s|
  {
  }

  /** A fetch that finds nothing registered becomes the leader of a new flight. */
  function Insert(p: Plain, key: Key, lim: Limits): Plain
    requires Ranged(p)
  {
    Evict(Plain(p.flights + [NewFlight(key, 0, 0, false)], p.entries + [|p.flights|], p.retained), lim)
  }

  /** Evict, then arm the grace timer of `i` unless it was evicted itself. */
  function Retain(p: Plain, i: nat, lim: Limits): Plain
    requires Ranged(p) && i < |p.flights|
  {
    var p1 := Evict(p, lim);
    if Find(p1.flights, p1.entries, p1.flights[i].key) == Some(i)
    then Edit(p1, i, p1.flights[i].(timer := true)) else p1
  }

  function Complete(p: Plain, i: nat, body: Body, now: int, lim: Limits): Plain
    requires Ranged(p) && i < |p.flights|
  {
    var f0 := p.flights[i];
    var f := if f0.future.Pending? then f0.(future := Result(body)) else f0;
    if Find(p.flights, p.entries, f0.key) != Some(i) then Edit(p, i, f)
    else
      var g := f.(expiresAt := Some(now + lim.grace), size := SizeOf(body));
      Retain(Plain(p.flights[i := g], p.entries, p.retained + g.size), i, lim)
  }

  function Abandon(p: Plain, i: nat, outcome: Future): Plain
    requires Ranged(p) && i < |p.flights|
  {
    var p1 := Drop(p, p.flights[i].key);
    var f := p1.flights[i];
    if f.future.Pending? then Edit(p1, i, f.(future := outcome)) else p1
  }

  function Expire(p: Plain, i: nat, now: int): (q: Plain)
    requires Ranged(p) && i < |p.flights|
    ensures Ranged(q)
  {
    var f := p.flights[i];
    if Find(p.flights, p.entries, f.key) == Some(i) && Done(f) && f.expiresAt.value <= now then Drop(p, f.key) else p
  }

  function ExpireIfDue(p: Plain, key: Key, now: int): (q: Plain)
    requires Ranged(p)
    ensures Ranged(q)
  {
    var hit := Find(p.flights, p.entries, key);
    if hit.Some? && Done(p.flights[hit.value]) && now >= p.flights[hit.value].expiresAt.value
    then Expire(p, hit.value, now) else p
  }

  function Clear(p: Plain, ids: seq<nat>): (q: Plain)
    requires Ranged(p) && Below(ids, |p.flights|)
    ensures Ranged(q) && |q.flights| == |p.flights|
    decreases |ids|
  {
    if ids == [] then p else Clear(Drop(p, p.flights[ids[0]].key), ids[1..])
  }

  function Shutdown(p: Plain): Plain
    requires Ranged(p)
  {
    Clear(p, p.entries)
  }
}
