/** Every run of the plain registry: the retention ledger, its bounds, and when one key can have two flights. */
module PlainRuns {
  import opened Prelude
  import opened Flights
  import opened PlainModel

  datatype Event =
    | Fetch(key: Key)
    | Finish(i: nat, ending: Ending)
    | Fire(i: nat)
    | Stop
    | Tick(d: nat)

  datatype Sys = Sys(reg: Plain, now: int)

  // ---- the retention ledger --------------------------------------------------------

  function Weight(f: Flight): nat {
    if Done(f) then f.size else 0
  }

  /** The bytes a future serves; an object that is no byte string has no length. */
  function ByteLength(future: Future): nat {
    match future
    case Result(Bytes(data)) => |data|
    case _ => 0
  }

  /** Bytes of the bodies served from the dictionary. */
  function ServedBytes(fs: seq<Flight>, entries: seq<nat>): nat
    requires Below(entries, |fs|)
  {
    if entries == [] then 0 else ByteLength(fs[entries[0]].future) + ServedBytes(fs, entries[1..])
  }

  /** Bytes of the completed entries. */
  function Kept(fs: seq<Flight>, entries: seq<nat>): nat
    requires Below(entries, |fs|)
  {
    if entries == [] then 0 else Weight(fs[entries[0]]) + Kept(fs, entries[1..])
  }

  lemma {:induction false} KeptWithout(fs: seq<Flight>, entries: seq<nat>, i: nat)
    requires Below(entries, |fs|) && Distinct(entries) && i in entries
    ensures Below(Without(entries, i), |fs|)
    ensures Kept(fs, Without(entries, i)) == Kept(fs, entries) - Weight(fs[i])
  {
    var rest := Without(entries, i);
    assert forall k :: 0 <= k < |rest| ==> rest[k] in entries;
    if entries[0] == i {
      WithoutAbsent(entries[1..], i);
    } else {
      KeptWithout(fs, entries[1..], i);
      assert rest[1..] == Without(entries[1..], i);
    }
  }

  lemma {:induction false} KeptEdit(fs: seq<Flight>, entries: seq<nat>, i: nat, f: Flight)
    requires Below(entries, |fs|) && Distinct(entries) && i < |fs|
    ensures Kept(fs[i := f], entries)
         == if i in entries then Kept(fs, entries) - Weight(fs[i]) + Weight(f) else Kept(fs, entries)
  {
    if entries != [] {
      KeptEdit(fs, entries[1..], i, f);
      assert i in entries <==> i == entries[0] || i in entries[1..];
      assert entries[0] !in entries[1..];
    }
  }

  lemma {:induction false} KeptAppend(fs: seq<Flight>, entries: seq<nat>, f: Flight)
    requires Below(entries, |fs|)
    ensures Kept(fs + [f], entries + [|fs|]) == Kept(fs, entries) + Weight(f)
    ensures Kept(fs + [f], entries) == Kept(fs, entries)
  {
    if entries != [] {
      KeptAppend(fs, entries[1..], f);
      assert (entries + [|fs|])[1..] == entries[1..] + [|fs|];
    }
  }

  lemma {:induction false} KeptNothing(fs: seq<Flight>, entries: seq<nat>)
    requires Below(entries, |fs|) && forall k :: 0 <= k < |entries| ==> !Done(fs[entries[k]])
    ensures Kept(fs, entries) == 0
  {
    if entries != [] {
      KeptNothing(fs, entries[1..]);
    }
  }

  // ---- invariants ------------------------------------------------------------------

  /** What a flight keeps; `owed` exempts the one flight whose timer is about to be armed. */
  ghost predicate FlightOk(f: Flight, reg: bool, owed: bool) {
    && (reg && f.future.Pending? <==> reg && !Done(f))
    && (f.future.Pending? ==> !Done(f))
    && (reg && Done(f) ==> f.future.Result? && f.size == ByteLength(f.future))
    && (f.timer ==> reg && Done(f))
    && (reg && Done(f) && !owed ==> f.timer)
  }

  ghost predicate Sound(p: Plain, owed: int) {
    && Ranged(p) && Distinct(p.entries)
    && (forall i :: 0 <= i < |p.flights| ==> FlightOk(p.flights[i], i in p.entries, i == owed))
    && (forall i, j :: i in p.entries && j in p.entries && p.flights[i].key == p.flights[j].key ==> i == j)
    && p.retained == Kept(p.flights, p.entries)
  }

  ghost predicate NoneDone(p: Plain)
    requires Ranged(p)
  {
    forall k :: 0 <= k < |p.entries| ==> !Done(p.flights[p.entries[k]])
  }

  /** The bytes fit, and the entries fit too unless only in-flight ones are left. */
  ghost predicate Within(p: Plain, lim: Limits)
    requires Ranged(p)
  {
    p.retained <= lim.maxBytes && (|p.entries| <= lim.maxEntries || NoneDone(p))
  }

  ghost predicate Inv(lim: Limits, s: Sys) {
    Sound(s.reg, -1) && Within(s.reg, lim)
  }

  lemma FindRegistered(p: Plain, owed: int, i: nat)
    requires Sound(p, owed) && i < |p.flights|
    ensures Find(p.flights, p.entries, p.flights[i].key) == Some(i) <==> i in p.entries
  {
  }

  /** Only completed entries leave, and no future changes. */
  ghost predicate Shrinks(p: Plain, q: Plain) {
    && Ranged(p) && Ranged(q)
    && |q.flights| == |p.flights| && |q.entries| <= |p.entries|
    && (forall i :: i in q.entries ==> i in p.entries)
    && (forall i :: 0 <= i < |p.flights| ==> q.flights[i] == p.flights[i].(timer := q.flights[i].timer))
    && (forall i :: i in p.entries && !Done(p.flights[i]) ==> i in q.entries)
  }

  lemma EvictedKeeps(p: Plain, i: nat, owed: int)
    requires Sound(p, owed) && i in p.entries
    ensures Sound(Evicted(p, i), owed) && i !in Evicted(p, i).entries
    ensures Evicted(p, i).retained <= p.retained
    ensures forall j :: j != i ==> (j in Evicted(p, i).entries <==> j in p.entries)
  {
    var q := Evicted(p, i);
    KeptWithout(p.flights, p.entries, i);
    KeptEdit(p.flights, q.entries, i, q.flights[i]);
  }

  lemma {:induction false} EvictKeeps(p: Plain, lim: Limits, owed: int)
    requires Sound(p, owed)
    ensures Sound(Evict(p, lim), owed) && Within(Evict(p, lim), lim) && Shrinks(p, Evict(p, lim))
    decreases |p.entries|
  {
    if OverBudget(p, lim) {
      var oldest := OldestDone(p.flights, p.entries);
      if oldest.None? {
        KeptNothing(p.flights, p.entries);
      } else {
        EvictedKeeps(p, oldest.value, owed);
        WithoutShrinks(p.entries, oldest.value);
        EvictKeeps(Evicted(p, oldest.value), lim, owed);
      }
    }
  }

  /** Every entry ahead of the one chosen for eviction is still in flight. */
  lemma {:induction false} OldestIsFirst(fs: seq<Flight>, entries: seq<nat>) returns (k: nat)
    requires Below(entries, |fs|) && OldestDone(fs, entries).Some?
    ensures k < |entries| && entries[k] == OldestDone(fs, entries).value
    ensures forall j :: 0 <= j < k ==> !Done(fs[entries[j]])
  {
    if Done(fs[entries[0]]) {
      k := 0;
    } else {
      k := OldestIsFirst(fs, entries[1..]);
      k := k + 1;
    }
  }

  /** `p` without its `k` oldest completed entries. */
  ghost function Retire(p: Plain, k: nat): (q: Plain)
    requires Ranged(p)
    ensures Ranged(q)
    decreases k
  {
    if k == 0 || OldestDone(p.flights, p.entries).None? then p
    else Retire(Evicted(p, OldestDone(p.flights, p.entries).value), k - 1)
  }

  /** How many entries an eviction removes. */
  ghost function Excess(p: Plain, lim: Limits): nat
    requires Ranged(p)
    decreases |p.entries|
  {
    var oldest := OldestDone(p.flights, p.entries);
    if !OverBudget(p, lim) || oldest.None? then 0
    else
      WithoutShrinks(p.entries, oldest.value);
      1 + Excess(Evicted(p, oldest.value), lim)
  }

  /** Eviction removes the oldest completed entries, one at a time, and stops at the first state that fits. */
  lemma {:induction false} EvictsNoMoreThanNeeded(p: Plain, lim: Limits, j: nat)
    requires Ranged(p)
    ensures Evict(p, lim) == Retire(p, Excess(p, lim))
    ensures j < Excess(p, lim) ==> |Retire(p, j).entries| > lim.maxEntries || Retire(p, j).retained > lim.maxBytes
    ensures var q := Evict(p, lim); (|q.entries| <= lim.maxEntries && q.retained <= lim.maxBytes) || NoneDone(q)
    decreases |p.entries|
  {
    var oldest := OldestDone(p.flights, p.entries);
    if OverBudget(p, lim) && oldest.Some? {
      WithoutShrinks(p.entries, oldest.value);
      var q := Evicted(p, oldest.value);
      OneEviction(p, q, lim, j);
      EvictsNoMoreThanNeeded(q, lim, if j == 0 then 0 else j - 1);
    }
  }

  lemma OneEviction(p: Plain, q: Plain, lim: Limits, j: nat)
    requires Ranged(p) && OverBudget(p, lim) && OldestDone(p.flights, p.entries).Some?
    requires q == Evicted(p, OldestDone(p.flights, p.entries).value)
    ensures Evict(p, lim) == Evict(q, lim) && Excess(p, lim) == 1 + Excess(q, lim)
    ensures Retire(p, Excess(p, lim)) == Retire(q, Excess(q, lim))
    ensures j > 0 ==> Retire(p, j) == Retire(q, j - 1)
  {
  }

  // ---- events ------------------------------------------------------------------------

  lemma DropKeeps(lim: Limits, p: Plain, key: Key)
    requires Sound(p, -1) && Within(p, lim)
    ensures var q := Drop(p, key);
            && Sound(q, -1) && Within(q, lim)
            && (forall i :: 0 <= i < |p.flights| ==> q.flights[i] == p.flights[i].(timer := q.flights[i].timer))
            && (forall i :: i in q.entries <==> i in p.entries && p.flights[i].key != key)
  {
    var hit := Find(p.flights, p.entries, key);
    if hit.Some? {
      EvictedKeeps(p, hit.value, -1);
      var q := Evicted(p, hit.value);
      if NoneDone(p) {
        forall k | 0 <= k < |q.entries| ensures !Done(q.flights[q.entries[k]]) {
          assert q.entries[k] in p.entries;
        }
      }
    }
  }

  lemma ExpireKeeps(lim: Limits, p: Plain, i: nat, now: int)
    requires Sound(p, -1) && Within(p, lim) && i < |p.flights|
    ensures var q := Expire(p, i, now); Sound(q, -1) && Within(q, lim) && Shrinks(p, q)
  {
    DropKeeps(lim, p, p.flights[i].key);
    FindRegistered(p, -1, i);
  }

  lemma InsertKeeps(lim: Limits, p: Plain, key: Key)
    requires Sound(p, -1) && Find(p.flights, p.entries, key) == None
    ensures var q := Insert(p, key, lim);
            && Sound(q, -1) && Within(q, lim) && |q.flights| == |p.flights| + 1
            && |p.flights| in q.entries && q.flights[|p.flights|].future == Pending
            && (forall i :: i in p.entries && !Done(p.flights[i]) ==> i in q.entries)
            && (forall i :: 0 <= i < |p.flights| ==>
                  q.flights[i].future == p.flights[i].future && q.flights[i].key == p.flights[i].key)
  {
    var n := |p.flights|;
    var f := NewFlight(key, 0, 0, false);
    var p1 := Plain(p.flights + [f], p.entries + [n], p.retained);
    AppendSound(p, f, p1);
    EvictKeeps(p1, lim, -1);
    assert n in p1.entries;
  }

  lemma AppendSound(p: Plain, f: Flight, p1: Plain)
    requires Sound(p, -1) && f == NewFlight(f.key, 0, 0, false) && Find(p.flights, p.entries, f.key) == None
    requires p1 == Plain(p.flights + [f], p.entries + [|p.flights|], p.retained)
    ensures Sound(p1, -1)
  {
    KeptAppend(p.flights, p.entries, f);
    assert forall i :: 0 <= i < |p.flights| ==> (i in p1.entries <==> i in p.entries);
    assert forall k :: 0 <= k < |p.entries| ==> p.entries[k] in p.entries;
  }

  /** From `p` to `q`, flight `i` completed; no other in-flight entry left and no other future changed. */
  ghost predicate Completes(p: Plain, q: Plain, i: nat) {
    && |q.flights| == |p.flights|
    && (forall j :: j in p.entries && j != i && j < |p.flights| && !Done(p.flights[j]) ==> j in q.entries)
    && (forall j :: 0 <= j < |p.flights| && j != i ==> q.flights[j] == p.flights[j].(timer := q.flights[j].timer))
  }

  ghost predicate CompletedWell(lim: Limits, p: Plain, q: Plain, i: nat, outcome: Future) {
    && Sound(q, -1) && Within(q, lim) && Completes(p, q, i)
    && i < |p.flights| && q.flights[i].future == outcome && q.flights[i].key == p.flights[i].key
  }

  lemma CompleteKeeps(lim: Limits, p: Plain, i: nat, body: Body, now: int) returns (q: Plain)
    requires Sound(p, -1) && i in p.entries && p.flights[i].future.Pending?
    ensures q == Complete(p, i, body, now, lim) && CompletedWell(lim, p, q, i, Result(body))
  {
    FindRegistered(p, -1, i);
    var g, r := CompletionRetains(p, i, body, now, lim);
    RetentionKeeps(lim, p, i, g, r);
    q := r;
  }

  lemma RetentionKeeps(lim: Limits, p: Plain, i: nat, g: Flight, q: Plain)
    requires Sound(p, -1) && i in p.entries && p.flights[i].future.Pending? && g.future.Result? && Done(g)
    requires g == p.flights[i].(future := g.future, expiresAt := g.expiresAt, size := SizeOf(g.future.body))
    requires q == Retain(Plain(p.flights[i := g], p.entries, p.retained + g.size), i, lim)
    ensures CompletedWell(lim, p, q, i, g.future)
  {
    MarkDone(p, i, g);
    RetainKeeps(Plain(p.flights[i := g], p.entries, p.retained + g.size), i, lim);
    Carry(p, i, g, q);
  }

  /** A registered completion: the flight gets its result, deadline and size, and then retention runs. */
  lemma CompletionRetains(p: Plain, i: nat, body: Body, now: int, lim: Limits) returns (g: Flight, q: Plain)
    requires Ranged(p) && i < |p.flights| && p.flights[i].future.Pending?
    requires Find(p.flights, p.entries, p.flights[i].key) == Some(i)
    ensures g.expiresAt == Some(now + lim.grace) && g.future == Result(body)
    ensures g == p.flights[i].(future := g.future, expiresAt := g.expiresAt, size := SizeOf(body))
    ensures q == Retain(Plain(p.flights[i := g], p.entries, p.retained + g.size), i, lim)
    ensures q == Complete(p, i, body, now, lim)
  {
    g := p.flights[i].(future := Result(body), expiresAt := Some(now + lim.grace), size := SizeOf(body));
    q := Retain(Plain(p.flights[i := g], p.entries, p.retained + g.size), i, lim);
  }

  lemma Carry(p: Plain, i: nat, g: Flight, q: Plain)
    requires i < |p.flights| == |q.flights|
    requires forall j :: j in p.entries && j < |p.flights| && !Done(p.flights[i := g][j]) ==> j in q.entries
    requires forall j :: 0 <= j < |p.flights| ==> q.flights[j] == p.flights[i := g][j].(timer := q.flights[j].timer)
    ensures Completes(p, q, i) && q.flights[i].future == g.future && q.flights[i].key == g.key
  {
    forall j | 0 <= j < |p.flights| && j != i ensures q.flights[j] == p.flights[j].(timer := q.flights[j].timer) {
      assert p.flights[i := g][j] == p.flights[j];
    }
    forall j | j in p.entries && j != i && j < |p.flights| && !Done(p.flights[j]) ensures j in q.entries {
      assert p.flights[i := g][j] == p.flights[j];
    }
  }

  /** A completion that comes after a shutdown reaches its waiters and accounts nothing. */
  lemma LateCompletion(lim: Limits, p: Plain, i: nat, body: Body, now: int)
    requires Sound(p, -1) && Within(p, lim) && i < |p.flights| && i !in p.entries && p.flights[i].future.Pending?
    ensures var q := Complete(p, i, body, now, lim);
            && q == p.(flights := p.flights[i := p.flights[i].(future := Result(body))])
            && Sound(q, -1) && Within(q, lim)
  {
    FindRegistered(p, -1, i);
    var f := p.flights[i].(future := Result(body));
    KeptEdit(p.flights, p.entries, i, f);
    var q := Edit(p, i, f);
    forall k | 0 <= k < |p.entries| ensures q.flights[q.entries[k]] == p.flights[p.entries[k]] {
      assert p.entries[k] in p.entries;
    }
  }

  /** The completed flight's size enters the ledger; its timer is owed. */
  lemma MarkDone(p: Plain, i: nat, g: Flight)
    requires Sound(p, -1) && i in p.entries && p.flights[i].future.Pending?
    requires g.key == p.flights[i].key && Done(g) && g.future.Result? && !g.timer && g.size == ByteLength(g.future)
    ensures Sound(Plain(p.flights[i := g], p.entries, p.retained + g.size), i)
  {
    KeptEdit(p.flights, p.entries, i, g);
  }

  lemma RetainKeeps(p: Plain, i: nat, lim: Limits)
    requires Sound(p, i) && i in p.entries && Done(p.flights[i])
    ensures var q := Retain(p, i, lim);
            && Sound(q, -1) && Within(q, lim) && |q.flights| == |p.flights|
            && (forall j :: j in p.entries && !Done(p.flights[j]) ==> j in q.entries)
            && (forall j :: 0 <= j < |p.flights| ==> q.flights[j] == p.flights[j].(timer := q.flights[j].timer))
  {
    EvictKeeps(p, lim, i);
    var p1 := Evict(p, lim);
    FindRegistered(p1, i, i);
    KeptEdit(p1.flights, p1.entries, i, p1.flights[i].(timer := true));
  }

  lemma AbandonKeeps(lim: Limits, p: Plain, i: nat, outcome: Future)
    requires Sound(p, -1) && Within(p, lim) && i < |p.flights| && p.flights[i].future.Pending?
    requires outcome.Envelope? || outcome.Cancelled?
    ensures var q := Abandon(p, i, outcome);
            && Sound(q, -1) && Within(q, lim) && |q.flights| == |p.flights| && q.flights[i].future == outcome
            && (forall j :: j in q.entries <==> j in p.entries && p.flights[j].key != p.flights[i].key)
            && (forall j :: 0 <= j < |p.flights| && j != i ==> q.flights[j] == p.flights[j].(timer := q.flights[j].timer))
  {
    var key := p.flights[i].key;
    DropKeeps(lim, p, key);
    FindRegistered(p, -1, i);
    var p1 := Drop(p, key);
    var f := p1.flights[i].(future := outcome);
    KeptEdit(p1.flights, p1.entries, i, f);
    forall k | 0 <= k < |p1.entries| ensures p1.entries[k] != i {
      assert p1.entries[k] in p1.entries;
    }
  }

  lemma {:induction false} ClearKeeps(lim: Limits, p: Plain, ids: seq<nat>)
    requires Sound(p, -1) && Within(p, lim) && Below(ids, |p.flights|)
    requires forall i :: i in p.entries ==> i in ids
    ensures var q := Clear(p, ids);
            && Sound(q, -1) && q.entries == [] && q.retained == 0
            && (forall i :: 0 <= i < |p.flights| ==> q.flights[i] == p.flights[i].(timer := false))
    decreases |ids|
  {
    if ids == [] {
      EmptyOrMember(p.entries);
    } else {
      var key := p.flights[ids[0]].key;
      DropKeeps(lim, p, key);
      forall i | i in Drop(p, key).entries ensures i in ids[1..] {
        assert i in ids && i != ids[0];
      }
      ClearKeeps(lim, Drop(p, key), ids[1..]);
    }
  }

  /** A flight ends once: its leader's factory returns, raises, or is cancelled. */
  ghost function Settle(lim: Limits, s: Sys, i: nat, ending: Ending): Sys
    requires Ranged(s.reg) && i < |s.reg.flights|
  {
    match ending
    case Ok(body) => s.(reg := Complete(s.reg, i, body, s.now, lim))
    case _ => s.(reg := Abandon(s.reg, i, Published(ending)))
  }

  ghost function Enter(lim: Limits, s: Sys, key: Key): Sys
    requires Ranged(s.reg)
  {
    var p := ExpireIfDue(s.reg, key, s.now);
    if Find(p.flights, p.entries, key).Some? then s.(reg := p) else s.(reg := Insert(p, key, lim))
  }

  ghost function Step(lim: Limits, s: Sys, e: Event): Sys
    requires Ranged(s.reg)
  {
    match e
    case Fetch(key) => Enter(lim, s, key)
    case Finish(i, ending) =>
      if i < |s.reg.flights| && s.reg.flights[i].future.Pending? then Settle(lim, s, i, ending) else s
    case Fire(i) =>
      if i < |s.reg.flights| && s.reg.flights[i].timer then s.(reg := Expire(s.reg, i, s.now)) else s
    case Stop => s.(reg := Shutdown(s.reg))
    case Tick(d) => s.(now := s.now + d)
  }

  lemma EnterKeeps(lim: Limits, s: Sys, key: Key)
    requires Inv(lim, s)
    ensures var s' := Enter(lim, s, key);
            && Inv(lim, s') && |s.reg.flights| <= |s'.reg.flights| <= |s.reg.flights| + 1
            && (forall i :: i in s.reg.entries && !Done(s.reg.flights[i]) ==> i in s'.reg.entries)
            && (forall i :: 0 <= i < |s.reg.flights| ==> s'.reg.flights[i].future == s.reg.flights[i].future)
            && (|s.reg.flights| < |s'.reg.flights| ==> |s.reg.flights| in s'.reg.entries)
  {
    var hit := Find(s.reg.flights, s.reg.entries, key);
    if hit.Some? {
      ExpireKeeps(lim, s.reg, hit.value, s.now);
    }
    var p := ExpireIfDue(s.reg, key, s.now);
    assert Sound(p, -1) && Within(p, lim);
    if Find(p.flights, p.entries, key).None? {
      InsertKeeps(lim, p, key);
    }
  }

  lemma SettleKeeps(lim: Limits, s: Sys, i: nat, ending: Ending)
    requires Inv(lim, s) && i < |s.reg.flights| && s.reg.flights[i].future.Pending?
    ensures Inv(lim, Settle(lim, s, i, ending))
  {
    match ending
    case Ok(body) =>
      if i in s.reg.entries {
        var q := CompleteKeeps(lim, s.reg, i, body, s.now);
      } else {
        LateCompletion(lim, s.reg, i, body, s.now);
      }
    case _ => AbandonKeeps(lim, s.reg, i, Published(ending));
  }

  lemma StepKeeps(lim: Limits, s: Sys, e: Event)
    requires Inv(lim, s)
    ensures Inv(lim, Step(lim, s, e))
  {
    match e
    case Fetch(key) => EnterKeeps(lim, s, key);
    case Finish(i, ending) =>
      if i < |s.reg.flights| && s.reg.flights[i].future.Pending? { SettleKeeps(lim, s, i, ending); }
    case Fire(i) =>
      if i < |s.reg.flights| { ExpireKeeps(lim, s.reg, i, s.now); }
    case Stop => ClearKeeps(lim, s.reg, s.reg.entries);
    case Tick(d) =>
  }

  // ---- all runs --------------------------------------------------------------------------

  ghost function Run(lim: Limits, events: seq<Event>): (s: Sys)
    ensures Inv(lim, s)
    decreases |events|
  {
    if events == [] then Sys(EMPTY_PLAIN, 0)
    else
      var n := |events| - 1;
      StepKeeps(lim, Run(lim, events[..n]), events[n]);
      Step(lim, Run(lim, events[..n]), events[n])
  }

  lemma {:induction false} KeptIsServed(fs: seq<Flight>, entries: seq<nat>)
    requires Below(entries, |fs|) && forall k :: 0 <= k < |entries| ==> FlightOk(fs[entries[k]], true, false)
    ensures Kept(fs, entries) == ServedBytes(fs, entries)
  {
    if entries != [] {
      assert FlightOk(fs[entries[0]], true, false);
      KeptIsServed(fs, entries[1..]);
    }
  }

  /** The retention ledger is, after every run, shutdowns included, the byte length of the bodies the dictionary serves, and bounded. */
  lemma RetentionLaw(lim: Limits, events: seq<Event>)
    ensures var p := Run(lim, events).reg;
            && p.retained == ServedBytes(p.flights, p.entries) <= lim.maxBytes
            && (|p.entries| <= lim.maxEntries || NoneDone(p))
            && (forall i :: i in p.entries && Done(p.flights[i]) ==> p.flights[i].timer)
  {
    var p := Run(lim, events).reg;
    forall k | 0 <= k < |p.entries| ensures FlightOk(p.flights[p.entries[k]], true, false) {
      assert p.entries[k] in p.entries;
    }
    KeptIsServed(p.flights, p.entries);
    forall i | i in p.entries && Done(p.flights[i]) ensures p.flights[i].timer {
      assert FlightOk(p.flights[i], i in p.entries, false);
    }
  }

  // ---- who may leave the dictionary ----------------------------------------------------------

  /** The failure of a flight that a shutdown detached, while a successor holds its key. */
  predicate StaleFailure(p: Plain, e: Event) {
    e.Finish? && e.i < |p.flights| && e.i !in p.entries && !e.ending.Ok?
  }

  /**
   * An in-flight entry leaves only when its own leader ends, at a shutdown, or by the
   * stale failure of an older flight for the same key. Eviction never removes it.
   */
  lemma InFlightStays(lim: Limits, s: Sys, e: Event, i: nat)
    requires Inv(lim, s) && i in s.reg.entries && s.reg.flights[i].future.Pending?
    requires i !in Step(lim, s, e).reg.entries
    ensures e.Stop? || (e.Finish? && (e.i == i || (StaleFailure(s.reg, e) && s.reg.flights[e.i].key == s.reg.flights[i].key)))
  {
    match e
    case Fetch(key) => EnterKeeps(lim, s, key);
    case Finish(j, ending) =>
      if j != i && j < |s.reg.flights| && s.reg.flights[j].future.Pending? {
        if ending.Ok? {
          if j in s.reg.entries {
            var q := CompleteKeeps(lim, s.reg, j, ending.body, s.now);
          } else {
            LateCompletion(lim, s.reg, j, ending.body, s.now);
          }
        } else {
          AbandonKeeps(lim, s.reg, j, Published(ending));
        }
      }
    case Fire(j) =>
      if j < |s.reg.flights| { ExpireKeeps(lim, s.reg, j, s.now); }
    case Stop =>
    case Tick(d) =>
  }

  /** A failing flight takes another one down exactly when it is detached and its key is registered again. */
  lemma FailureDropsSuccessor(lim: Limits, p: Plain, i: nat, outcome: Future)
    requires Sound(p, -1) && Within(p, lim) && i < |p.flights| && p.flights[i].future.Pending?
    requires outcome.Envelope? || outcome.Cancelled?
    ensures (exists j :: j in p.entries && j != i && j !in Abandon(p, i, outcome).entries)
       <==> (i !in p.entries && Find(p.flights, p.entries, p.flights[i].key).Some?)
  {
    AbandonKeeps(lim, p, i, outcome);
    FindRegistered(p, -1, i);
    var hit := Find(p.flights, p.entries, p.flights[i].key);
    if i !in p.entries && hit.Some? {
      assert hit.value in p.entries && hit.value != i && hit.value !in Abandon(p, i, outcome).entries;
    }
  }

  ghost predicate AllRegistered(p: Plain) {
    forall i :: 0 <= i < |p.flights| && p.flights[i].future.Pending? ==> i in p.entries
  }

  /** Until a shutdown, every running flight stays registered. */
  lemma StepRegistered(lim: Limits, s: Sys, e: Event)
    requires Inv(lim, s) && AllRegistered(s.reg) && !e.Stop?
    ensures AllRegistered(Step(lim, s, e).reg)
  {
    var q := Step(lim, s, e).reg;
    forall i | 0 <= i < |q.flights| && q.flights[i].future.Pending? ensures i in q.entries {
      StillRegistered(lim, s, e, i);
    }
  }

  lemma StillRegistered(lim: Limits, s: Sys, e: Event, i: nat)
    requires Inv(lim, s) && AllRegistered(s.reg) && !e.Stop?
    requires i < |Step(lim, s, e).reg.flights| && Step(lim, s, e).reg.flights[i].future.Pending?
    ensures i in Step(lim, s, e).reg.entries
  {
    OnlyLeadersWrite(lim, s, e, i);
    if i < |s.reg.flights| && i !in Step(lim, s, e).reg.entries {
      InFlightStays(lim, s, e, i);
    }
  }

  /** A future is written only by its own leader; a new flight starts registered. */
  lemma OnlyLeadersWrite(lim: Limits, s: Sys, e: Event, i: nat)
    requires Inv(lim, s) && !e.Stop?
    ensures var q := Step(lim, s, e).reg;
            && |s.reg.flights| <= |q.flights|
            && (i < |s.reg.flights| && e != Finish(i, if e.Finish? then e.ending else Interrupted) ==>
                  q.flights[i].future == s.reg.flights[i].future)
            && (i < |s.reg.flights| && e.Finish? && e.i == i ==> !q.flights[i].future.Pending?)
            && (|s.reg.flights| <= i < |q.flights| ==> i in q.entries)
  {
    match e
    case Fetch(key) => EnterKeeps(lim, s, key);
    case Finish(j, ending) =>
      if j < |s.reg.flights| && s.reg.flights[j].future.Pending? {
        if ending.Ok? {
          if j in s.reg.entries {
            var q := CompleteKeeps(lim, s.reg, j, ending.body, s.now);
          } else {
            LateCompletion(lim, s.reg, j, ending.body, s.now);
          }
        } else {
          AbandonKeeps(lim, s.reg, j, Published(ending));
        }
      }
    case Fire(j) =>
      if j < |s.reg.flights| { ExpireKeeps(lim, s.reg, j, s.now); }
    case Tick(d) =>
  }

  lemma {:induction false} RunRegistered(lim: Limits, events: seq<Event>)
    requires forall k :: 0 <= k < |events| ==> !events[k].Stop?
    ensures AllRegistered(Run(lim, events).reg)
    decreases |events|
  {
    if events != [] {
      var n := |events| - 1;
      RunRegistered(lim, events[..n]);
      StepRegistered(lim, Run(lim, events[..n]), events[n]);
    }
  }

  // ---- exactly when a key gets a second running flight ----------------------------------------

  /** No two running flights share a key. */
  ghost predicate Unique(p: Plain) {
    forall i, j ::
      0 <= i < j < |p.flights| && p.flights[i].future.Pending? && p.flights[j].future.Pending? ==>
        p.flights[i].key != p.flights[j].key
  }

  /** A flight of `key` still runs, but the dictionary no longer lists it. */
  ghost predicate RunsUnlisted(p: Plain, key: Key, i: nat) {
    i < |p.flights| && p.flights[i].future.Pending? && p.flights[i].key == key && i !in p.entries
  }

  /** A fetch finds nothing to join, although a flight of its key is still running. */
  ghost predicate Clashes(s: Sys, e: Event)
    requires Ranged(s.reg)
  {
    && e.Fetch?
    && var p := ExpireIfDue(s.reg, e.key, s.now);
    && Find(p.flights, p.entries, e.key).None?
    && exists i: nat :: RunsUnlisted(s.reg, e.key, i)
  }

  /** From `p` to `q` no flight was added, no key changed, and no ended flight runs again. */
  ghost predicate NothingStarts(p: Plain, q: Plain) {
    |q.flights| == |p.flights| &&
    forall i :: 0 <= i < |p.flights| ==>
      q.flights[i].key == p.flights[i].key && (q.flights[i].future.Pending? ==> p.flights[i].future.Pending?)
  }

  lemma OthersStartNothing(lim: Limits, s: Sys, e: Event)
    requires Inv(lim, s) && !e.Fetch?
    ensures NothingStarts(s.reg, Step(lim, s, e).reg)
  {
    match e
    case Finish(j, ending) =>
      if j < |s.reg.flights| && s.reg.flights[j].future.Pending? {
        if ending.Ok? {
          if j in s.reg.entries {
            var q := CompleteKeeps(lim, s.reg, j, ending.body, s.now);
          } else {
            LateCompletion(lim, s.reg, j, ending.body, s.now);
          }
        } else {
          AbandonKeeps(lim, s.reg, j, Published(ending));
          AbandonKeysStay(s.reg, j, Published(ending));
        }
      }
    case Fire(j) =>
      if j < |s.reg.flights| { ExpireKeeps(lim, s.reg, j, s.now); }
    case Stop => ClearKeeps(lim, s.reg, s.reg.entries);
    case Tick(d) =>
  }

  lemma AbandonKeysStay(p: Plain, i: nat, outcome: Future)
    requires Ranged(p) && i < |p.flights|
    ensures Abandon(p, i, outcome).flights[i].key == p.flights[i].key
  {
  }

  lemma DueShrinks(lim: Limits, s: Sys, key: Key)
    requires Inv(lim, s)
    ensures var p := ExpireIfDue(s.reg, key, s.now); Sound(p, -1) && Within(p, lim) && Shrinks(s.reg, p)
  {
    var hit := Find(s.reg.flights, s.reg.entries, key);
    if hit.Some? {
      ExpireKeeps(lim, s.reg, hit.value, s.now);
    }
  }

  lemma InsertShape(lim: Limits, p: Plain, key: Key)
    requires Sound(p, -1) && Find(p.flights, p.entries, key) == None
    ensures var q, n := Insert(p, key, lim), |p.flights|;
            && |q.flights| == n + 1 && q.flights[n].key == key && q.flights[n].future.Pending?
            && (forall i :: 0 <= i < n ==> q.flights[i].key == p.flights[i].key && q.flights[i].future == p.flights[i].future)
  {
    var f := NewFlight(key, 0, 0, false);
    var p1 := Plain(p.flights + [f], p.entries + [|p.flights|], p.retained);
    AppendSound(p, f, p1);
    EvictKeeps(p1, lim, -1);
  }

  /** A fetch either joins, changing no future, or adds one running flight of its key. */
  lemma FetchShape(lim: Limits, s: Sys, key: Key)
    requires Inv(lim, s)
    ensures var p, q, n := ExpireIfDue(s.reg, key, s.now), Enter(lim, s, key).reg, |s.reg.flights|;
            && n <= |q.flights|
            && (forall i :: 0 <= i < n ==> q.flights[i].key == s.reg.flights[i].key && q.flights[i].future == s.reg.flights[i].future)
            && (if Find(p.flights, p.entries, key).Some? then |q.flights| == n
                else |q.flights| == n + 1 && q.flights[n].key == key && q.flights[n].future.Pending?)
  {
    DueShrinks(lim, s, key);
    var p := ExpireIfDue(s.reg, key, s.now);
    if Find(p.flights, p.entries, key).None? {
      InsertShape(lim, p, key);
    }
  }

  /** One event breaks uniqueness if and only if it is a fetch whose key still has an unlisted running flight. */
  lemma StepStaysUniqueIff(lim: Limits, s: Sys, e: Event)
    requires Inv(lim, s) && Unique(s.reg)
    ensures Unique(Step(lim, s, e).reg) <==> !Clashes(s, e)
  {
    var q := Step(lim, s, e).reg;
    if !e.Fetch? {
      OthersStartNothing(lim, s, e);
    } else {
      FetchShape(lim, s, e.key);
      if Clashes(s, e) {
        var i: nat :| RunsUnlisted(s.reg, e.key, i);
        assert q.flights[i].future.Pending? && q.flights[|s.reg.flights|].future.Pending?;
      } else {
        FetchStaysUnique(lim, s, e.key);
      }
    }
  }

  lemma FetchStaysUnique(lim: Limits, s: Sys, key: Key)
    requires Inv(lim, s) && Unique(s.reg) && !Clashes(s, Fetch(key))
    ensures Unique(Enter(lim, s, key).reg)
  {
    FetchShape(lim, s, key);
    DueShrinks(lim, s, key);
    var p, n := ExpireIfDue(s.reg, key, s.now), |s.reg.flights|;
    if Find(p.flights, p.entries, key).None? {
      forall i: nat | i < n && s.reg.flights[i].future.Pending? ensures s.reg.flights[i].key != key {
        assert !RunsUnlisted(s.reg, key, i);
        assert FlightOk(s.reg.flights[i], i in s.reg.entries, false);
        if i in s.reg.entries { assert i in p.entries; }
      }
    }
  }

  lemma RunPrefix(lim: Limits, events: seq<Event>, n: nat)
    requires n < |events|
    ensures Run(lim, events[..n + 1]) == Step(lim, Run(lim, events[..n]), events[n])
  {
    assert events[..n + 1][..n] == events[..n];
  }

  lemma {:induction false} NoClashStaysUnique(lim: Limits, events: seq<Event>, n: nat)
    requires n <= |events| && forall k :: 0 <= k < n ==> !Clashes(Run(lim, events[..k]), events[k])
    ensures Unique(Run(lim, events[..n]).reg)
  {
    if n > 0 {
      NoClashStaysUnique(lim, events, n - 1);
      RunPrefix(lim, events, n - 1);
      StepStaysUniqueIff(lim, Run(lim, events[..n - 1]), events[n - 1]);
    }
  }

  /** A whole run keeps one running flight per key if and only if none of its fetches clashes. */
  lemma RunStaysUniqueIff(lim: Limits, events: seq<Event>)
    ensures (forall n :: 0 <= n <= |events| ==> Unique(Run(lim, events[..n]).reg))
       <==> (forall n :: 0 <= n < |events| ==> !Clashes(Run(lim, events[..n]), events[n]))
  {
    if forall n :: 0 <= n <= |events| ==> Unique(Run(lim, events[..n]).reg) {
      forall n | 0 <= n < |events| ensures !Clashes(Run(lim, events[..n]), events[n]) {
        RunPrefix(lim, events, n);
        assert Unique(Run(lim, events[..n]).reg) && Unique(Run(lim, events[..n + 1]).reg);
        StepStaysUniqueIff(lim, Run(lim, events[..n]), events[n]);
      }
    }
    if forall n :: 0 <= n < |events| ==> !Clashes(Run(lim, events[..n]), events[n]) {
      forall n | 0 <= n <= |events| ensures Unique(Run(lim, events[..n]).reg) {
        NoClashStaysUnique(lim, events, n);
      }
    }
  }

  /** Without a shutdown no fetch can clash, so at most one flight per key runs at a time. */
  lemma OneFlightPerKey(lim: Limits, events: seq<Event>, i: nat, j: nat)
    requires forall k :: 0 <= k < |events| ==> !events[k].Stop?
    requires var fs := Run(lim, events).reg.flights;
             i < |fs| && j < |fs| && fs[i].future.Pending? && fs[j].future.Pending? && fs[i].key == fs[j].key
    ensures i == j
  {
    forall n | 0 <= n < |events| ensures !Clashes(Run(lim, events[..n]), events[n]) {
      RunRegistered(lim, events[..n]);
    }
    NoClashStaysUnique(lim, events, |events|);
    assert events[..|events|] == events;
  }

  lemma RunExtends(lim: Limits, events: seq<Event>, e: Event)
    ensures Run(lim, events + [e]) == Step(lim, Run(lim, events), e)
  {
    assert (events + [e])[..|events|] == events;
  }

  lemma FirstFetch(lim: Limits, fs: seq<Flight>, now: int, key: Key)
    ensures Step(lim, Sys(Plain(fs, [], 0), now), Fetch(key)).reg
         == Plain(fs + [NewFlight(key, 0, 0, false)], [|fs|], 0)
  {
    var p1 := Plain(fs + [NewFlight(key, 0, 0, false)], [|fs|], 0);
    assert OldestDone(p1.flights, p1.entries) == None;
    assert [] + [|fs|] == [|fs|];
  }

  lemma DropsOnly(p: Plain, i: nat)
    requires p.entries == [i] && i < |p.flights| && !Done(p.flights[i]) && !p.flights[i].timer
    ensures Drop(p, p.flights[i].key) == p.(entries := [])
  {
    assert Without([i], i) == [];
    assert p.flights[i := p.flights[i].(timer := false)] == p.flights;
  }

  /** Fetch, shutdown, fetch: the detached flight and its successor both run, and the second fetch is the one that clashes. */
  lemma TwoFlightsAfterShutdown(lim: Limits, key: Key)
    ensures var f, events := NewFlight(key, 0, 0, false), [Fetch(key), Stop, Fetch(key)];
            && Run(lim, events).reg == Plain([f, f], [1], 0) && f.future.Pending? && !Unique(Run(lim, events).reg)
            && Clashes(Run(lim, [Fetch(key), Stop]), Fetch(key))
  {
    var f := NewFlight(key, 0, 0, false);
    FirstFetch(lim, [], 0, key);
    RunExtends(lim, [], Fetch(key));
    assert [] + [Fetch(key)] == [Fetch(key)] && [] + [f] == [f];
    ThenStop(lim, key);
    var two := Run(lim, [Fetch(key), Stop]);
    FirstFetch(lim, [f], two.now, key);
    RunExtends(lim, [Fetch(key), Stop], Fetch(key));
    assert [Fetch(key), Stop] + [Fetch(key)] == [Fetch(key), Stop, Fetch(key)] && [f] + [f] == [f, f];
    Doubled(f, two.now);
  }

  lemma Doubled(f: Flight, now: int)
    requires f.future.Pending?
    ensures !Unique(Plain([f, f], [1], 0)) && Clashes(Sys(Plain([f], [], 0), now), Fetch(f.key))
  {
    var fs := [f, f];
    assert fs[0].future.Pending? && fs[1].future.Pending?;
    assert RunsUnlisted(Plain([f], [], 0), f.key, 0);
  }

  lemma ThenStop(lim: Limits, key: Key)
    requires Run(lim, [Fetch(key)]).reg == Plain([NewFlight(key, 0, 0, false)], [0], 0)
    ensures Run(lim, [Fetch(key), Stop]).reg == Plain([NewFlight(key, 0, 0, false)], [], 0)
  {
    var f := NewFlight(key, 0, 0, false);
    DropsOnly(Plain([f], [0], 0), 0);
    assert Clear(Plain([f], [], 0), [0][1..]) == Plain([f], [], 0);
    RunExtends(lim, [Fetch(key)], Stop);
    assert [Fetch(key)] + [Stop] == [Fetch(key), Stop];
  }

  /** And a third: the detached flight's failure unregisters the running successor, so the next fetch finds nothing to join. */
  lemma StaleFailureLetsThirdIn(lim: Limits, key: Key)
    ensures var f, events := NewFlight(key, 0, 0, false), [Fetch(key), Stop, Fetch(key), Finish(0, Error(0)), Fetch(key)];
            Run(lim, events).reg == Plain([f.(future := Envelope(0)), f, f], [2], 0)
  {
    var f := NewFlight(key, 0, 0, false);
    var g := f.(future := Envelope(0));
    TwoFlightsAfterShutdown(lim, key);
    DropsOnly(Plain([f, f], [1], 0), 1);
    var three, four := [Fetch(key), Stop, Fetch(key)], [Fetch(key), Stop, Fetch(key), Finish(0, Error(0))];
    RunExtends(lim, three, Finish(0, Error(0)));
    assert three + [Finish(0, Error(0))] == four;
    assert [f, f][0 := g] == [g, f];
    assert Run(lim, four).reg == Plain([g, f], [], 0);
    FirstFetch(lim, [g, f], Run(lim, four).now, key);
    RunExtends(lim, four, Fetch(key));
    assert four + [Fetch(key)] == [Fetch(key), Stop, Fetch(key), Finish(0, Error(0)), Fetch(key)];
    assert [g, f] + [f] == [g, f, f];
  }

  // ---- the grace window ------------------------------------------------------------------------------

  /** Event `e` ends the leader of flight `i` with a result. */
  predicate Succeeds(s: Sys, e: Event, i: nat) {
    e.Finish? && e.i == i && e.ending.Ok? && i < |s.reg.flights| && s.reg.flights[i].future.Pending?
  }

  /** No deadline changes, and what is new has none. */
  ghost predicate DeadlinesStay(fs: seq<Flight>, gs: seq<Flight>) {
    forall i :: 0 <= i < |gs| ==> gs[i].expiresAt == if i < |fs| then fs[i].expiresAt else None
  }

  lemma InsertDeadlines(lim: Limits, p: Plain, key: Key)
    requires Sound(p, -1) && Find(p.flights, p.entries, key) == None
    ensures DeadlinesStay(p.flights, Insert(p, key, lim).flights)
  {
    var f := NewFlight(key, 0, 0, false);
    var p1 := Plain(p.flights + [f], p.entries + [|p.flights|], p.retained);
    AppendSound(p, f, p1);
    EvictKeeps(p1, lim, -1);
  }

  lemma FetchDeadlines(lim: Limits, s: Sys, key: Key)
    requires Inv(lim, s)
    ensures DeadlinesStay(s.reg.flights, Enter(lim, s, key).reg.flights)
  {
    DueShrinks(lim, s, key);
    var p := ExpireIfDue(s.reg, key, s.now);
    if Find(p.flights, p.entries, key).None? {
      InsertDeadlines(lim, p, key);
    }
  }

  lemma RetainDeadlines(lim: Limits, p: Plain, i: nat, g: Flight, q: Plain)
    requires Sound(p, -1) && i in p.entries && p.flights[i].future.Pending? && g.future.Result? && Done(g)
    requires g == p.flights[i].(future := g.future, expiresAt := g.expiresAt, size := SizeOf(g.future.body))
    requires q == Retain(Plain(p.flights[i := g], p.entries, p.retained + g.size), i, lim)
    ensures |q.flights| == |p.flights| && q.flights[i].expiresAt == g.expiresAt
  {
    MarkDone(p, i, g);
    RetainKeeps(Plain(p.flights[i := g], p.entries, p.retained + g.size), i, lim);
  }

  /** Flight `i` has this deadline, and the others have theirs. */
  ghost predicate DeadlineWritten(fs: seq<Flight>, gs: seq<Flight>, i: nat, deadline: Option<int>) {
    && i < |fs| == |gs| && gs[i].expiresAt == deadline
    && (forall j :: 0 <= j < |fs| && j != i ==> gs[j].expiresAt == fs[j].expiresAt)
  }

  lemma RegisteredDeadline(lim: Limits, p: Plain, i: nat, body: Body, now: int) returns (q: Plain)
    requires Sound(p, -1) && i in p.entries && p.flights[i].future.Pending?
    ensures q == Complete(p, i, body, now, lim) && DeadlineWritten(p.flights, q.flights, i, Some(now + lim.grace))
  {
    FindRegistered(p, -1, i);
    var g, r := CompletionRetains(p, i, body, now, lim);
    RetentionKeeps(lim, p, i, g, r);
    RetainDeadlines(lim, p, i, g, r);
    q := r;
  }

  lemma LateDeadline(lim: Limits, p: Plain, i: nat, body: Body, now: int)
    requires Sound(p, -1) && Within(p, lim) && i < |p.flights| && i !in p.entries && p.flights[i].future.Pending?
    ensures DeadlineWritten(p.flights, Complete(p, i, body, now, lim).flights, i, None)
  {
    assert FlightOk(p.flights[i], i in p.entries, false);
    LateCompletion(lim, p, i, body, now);
  }

  lemma CompleteDeadline(lim: Limits, p: Plain, i: nat, body: Body, now: int)
    requires Sound(p, -1) && Within(p, lim) && i < |p.flights| && p.flights[i].future.Pending?
    ensures DeadlineWritten(p.flights, Complete(p, i, body, now, lim).flights, i, if i in p.entries then Some(now + lim.grace) else None)
  {
    if i in p.entries {
      var q := RegisteredDeadline(lim, p, i, body, now);
    } else {
      LateDeadline(lim, p, i, body, now);
    }
  }

  /** A completed flight was completed before the event, with the same deadline, or its leader succeeds now. */
  lemma DeadlineStep(lim: Limits, s: Sys, e: Event, i: nat)
    requires Inv(lim, s) && i < |Step(lim, s, e).reg.flights| && Done(Step(lim, s, e).reg.flights[i])
    ensures i < |s.reg.flights|
    ensures Step(lim, s, e).reg.flights[i].expiresAt
         == if Succeeds(s, e, i) then Some(s.now + lim.grace) else s.reg.flights[i].expiresAt
  {
    match e
    case Fetch(key) => FetchDeadlines(lim, s, key);
    case Finish(j, ending) =>
      if j < |s.reg.flights| && s.reg.flights[j].future.Pending? {
        if ending.Ok? { CompleteDeadline(lim, s.reg, j, ending.body, s.now); } else { AbandonDeadlines(lim, s.reg, j, Published(ending)); }
      }
    case Fire(j) =>
      if j < |s.reg.flights| { ExpireKeeps(lim, s.reg, j, s.now); }
    case Stop => ClearKeeps(lim, s.reg, s.reg.entries);
    case Tick(d) =>
  }

  lemma AbandonDeadlines(lim: Limits, p: Plain, i: nat, outcome: Future)
    requires Sound(p, -1) && Within(p, lim) && i < |p.flights|
    ensures DeadlinesStay(p.flights, Abandon(p, i, outcome).flights)
  {
    DropKeeps(lim, p, p.flights[i].key);
  }

  /** The time of a run, read off its ticks. */
  ghost function Clock(events: seq<Event>): nat {
    if events == [] then 0
    else Clock(events[..|events| - 1]) + (if events[|events| - 1].Tick? then events[|events| - 1].d else 0)
  }

  lemma {:induction false} ClockIsNow(lim: Limits, events: seq<Event>)
    ensures Run(lim, events).now == Clock(events)
  {
    if events != [] { ClockIsNow(lim, events[..|events| - 1]); }
  }

  ghost predicate SucceedsAt(lim: Limits, events: seq<Event>, n: nat, i: nat) {
    n < |events| && Succeeds(Run(lim, events[..n]), events[n], i)
  }

  /** Flight `i`'s own leader succeeded at event `n`, the grace before `deadline`. */
  ghost predicate DeadlineSet(lim: Limits, events: seq<Event>, n: nat, i: nat, deadline: Option<int>) {
    SucceedsAt(lim, events, n, i) && deadline.Some? && deadline.value == Clock(events[..n]) + lim.grace
  }

  lemma {:induction false} GraceDeadline(lim: Limits, events: seq<Event>, k: nat, s: Sys, i: nat) returns (n: nat)
    requires k <= |events| && s == Run(lim, events[..k]) && i < |s.reg.flights| && Done(s.reg.flights[i])
    ensures DeadlineSet(lim, events, n, i, s.reg.flights[i].expiresAt)
  {
    assert k > 0 by { assert events[..0] == []; }
    n := k - 1;
    var before := Run(lim, events[..n]);
    RunPrefix(lim, events, n);
    DeadlineStep(lim, before, events[n], i);
    if Succeeds(before, events[n], i) {
      ClockIsNow(lim, events[..n]);
    } else {
      n := GraceDeadline(lim, events, n, before, i);
    }
  }

  predicate Ended(s: Sys, i: nat) {
    i < |s.reg.flights| && !s.reg.flights[i].future.Pending?
  }

  lemma StepEnds(lim: Limits, s: Sys, e: Event, i: nat)
    requires Inv(lim, s) && (Succeeds(s, e, i) || Ended(s, i))
    ensures Ended(Step(lim, s, e), i)
  {
    if e.Fetch? { FetchShape(lim, s, e.key); } else { OthersStartNothing(lim, s, e); }
    if Succeeds(s, e, i) { OnlyLeadersWrite(lim, s, e, i); }
  }

  lemma NextEnds(lim: Limits, events: seq<Event>, n: nat, i: nat)
    requires n < |events| && (SucceedsAt(lim, events, n, i) || Ended(Run(lim, events[..n]), i))
    ensures Ended(Run(lim, events[..n + 1]), i)
  {
    RunPrefix(lim, events, n);
    StepEnds(lim, Run(lim, events[..n]), events[n], i);
  }

  lemma {:induction false} EndedFrom(lim: Limits, events: seq<Event>, k: nat, m: nat, i: nat)
    requires k <= m <= |events| && Ended(Run(lim, events[..k]), i)
    ensures Ended(Run(lim, events[..m]), i)
    decreases m - k
  {
    if k < m {
      NextEnds(lim, events, k, i);
      EndedFrom(lim, events, k + 1, m, i);
    }
  }

  lemma EndedStays(lim: Limits, events: seq<Event>, n: nat, m: nat, i: nat)
    requires n < m <= |events| && SucceedsAt(lim, events, n, i)
    ensures Ended(Run(lim, events[..m]), i)
  {
    NextEnds(lim, events, n, i);
    EndedFrom(lim, events, n + 1, m, i);
  }

  /** The leader of flight `i` succeeded less than the grace ago. */
  ghost predicate WithinGrace(lim: Limits, events: seq<Event>, i: nat) {
    exists n: nat :: SucceedsAt(lim, events, n, i) && Clock(events) < Clock(events[..n]) + lim.grace
  }

  lemma WithinGraceIff(lim: Limits, events: seq<Event>, n: nat, i: nat, deadline: Option<int>)
    requires DeadlineSet(lim, events, n, i, deadline)
    ensures WithinGrace(lim, events, i) <==> Clock(events) < deadline.value
  {
    forall m: nat | SucceedsAt(lim, events, m, i) ensures m == n {
      if m < n { EndedStays(lim, events, m, n, i); }
      if n < m { EndedStays(lim, events, n, m, i); }
    }
  }

  predicate Due(f: Flight, now: int) {
    Done(f) && now >= f.expiresAt.value
  }

  lemma FetchDue(lim: Limits, s: Sys, key: Key, i: nat)
    requires Inv(lim, s) && Find(s.reg.flights, s.reg.entries, key) == Some(i)
    ensures var q := Step(lim, s, Fetch(key)).reg;
            if Due(s.reg.flights[i], s.now) then |q.flights| == |s.reg.flights| + 1 else q == s.reg
  {
    FetchShape(lim, s, key);
    DropKeeps(lim, s.reg, key);
  }

  lemma DueIff(lim: Limits, events: seq<Event>, s: Sys, i: nat)
    requires s == Run(lim, events) && i in s.reg.entries
    ensures Due(s.reg.flights[i], s.now) <==> !s.reg.flights[i].future.Pending? && !WithinGrace(lim, events, i)
  {
    assert FlightOk(s.reg.flights[i], i in s.reg.entries, false);
    ClockIsNow(lim, events);
    if Done(s.reg.flights[i]) {
      assert events[..|events|] == events;
      var n := GraceDeadline(lim, events, |events|, s, i);
      WithinGraceIff(lim, events, n, i, s.reg.flights[i].expiresAt);
    }
  }

  /**
   * Over every run: a fetch whose key has flight `i` registered joins it, changing nothing, if and
   * only if the flight is still running or its leader succeeded less than the grace ago; otherwise
   * it leads a new flight.
   */
  lemma JoinsWithinGrace(lim: Limits, events: seq<Event>, s: Sys, key: Key, i: nat)
    requires s == Run(lim, events) && Find(s.reg.flights, s.reg.entries, key) == Some(i)
    ensures var q := Step(lim, s, Fetch(key)).reg;
            if s.reg.flights[i].future.Pending? || WithinGrace(lim, events, i) then q == s.reg
            else |q.flights| == |s.reg.flights| + 1
  {
    DueIff(lim, events, s, i);
    FetchDue(lim, s, key, i);
  }

  /** Over every run: the timer of a completed entry removes it if and only if the grace is over. */
  lemma FiresAfterGrace(lim: Limits, events: seq<Event>, s: Sys, i: nat)
    requires s == Run(lim, events) && i in s.reg.entries && s.reg.flights[i].future.Result?
    ensures i in Step(lim, s, Fire(i)).reg.entries <==> WithinGrace(lim, events, i)
  {
    DueIff(lim, events, s, i);
    assert FlightOk(s.reg.flights[i], i in s.reg.entries, false);
    FindRegistered(s.reg, -1, i);
    DropKeeps(lim, s.reg, s.reg.flights[i].key);
  }
}
