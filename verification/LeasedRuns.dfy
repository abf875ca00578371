/**
 * Every run of the leased registry: callers enter, join, lead, wake, are
 * cancelled and release; factories resolve; timers fire; the application shuts
 * down. Code between two awaits is one event.
 */
module LeasedRuns {
  import opened Prelude
  import opened Flights
  import opened LeasedModel

  datatype Config = Config(maxBytes: nat, grace: nat)

  /** Where one call of the fetch entry point stands. */
  datatype Phase =
    | Leading(i: nat)
    | Waiting(i: nat, key: Key, reserve: nat)
    | Holding(i: nat, body: Body)
    | Bypassed
    | Released(i: nat, body: Body)
    | Raised(i: nat, exc: Exc)
    | Aborted

  datatype Sys = Sys(reg: Registry, callers: map<nat, Phase>, now: int)

  datatype Event =
    | Call(c: nat, key: Key, reserve: nat)
    | Finish(c: nat, ending: Ending)
    | Wake(c: nat)
    | CancelWaiter(c: nat)
    | Release(c: nat)
    | Fire(i: nat)
    | Stop
    | Tick(d: nat)

  // ---- the ledger ------------------------------------------------------------

  function Weight(f: Flight): nat {
    if f.accounted then f.reserve else 0
  }

  /** Bytes reserved by the flights that count. */
  function Ledger(fs: seq<Flight>): nat {
    if fs == [] then 0 else Ledger(fs[..|fs| - 1]) + Weight(fs[|fs| - 1])
  }

  lemma {:induction false} LedgerEdit(fs: seq<Flight>, i: nat, f: Flight)
    requires i < |fs|
    ensures Ledger(fs[i := f]) == Ledger(fs) - Weight(fs[i]) + Weight(f)
  {
    var n := |fs| - 1;
    if i < n {
      LedgerEdit(fs[..n], i, f);
      assert fs[i := f][..n] == fs[..n][i := f];
    } else {
      assert fs[i := f][..n] == fs[..n];
    }
  }

  // ---- invariants --------------------------------------------------------------

  /** What every flight keeps, given which layers list it. */
  ghost predicate FlightOk(f: Flight, act: bool, ret: bool) {
    && !(act && ret)
    && (f.accounted <==> (act || ret) && f.state != Failed)
    && (act ==> f.layer == Active && (f.state == InFlight || f.state == Grace))
    && (!act ==> f.layer == Retired && f.state != Grace)
    && (ret && f.state != InFlight ==> f.refs > 0)
    && (!act && !ret ==> f.refs == 0 && f.state != InFlight)
    && (f.timer <==> f.state == Grace)
    && (f.expiresAt.Some? ==> f.state == Grace || f.state == Retained)
    && (f.state == Grace ==> f.expiresAt.Some?)
    && (f.future.Pending? <==> f.state == InFlight)
    && (f.future.Result? <==> f.state == Grace || f.state == Retained)
  }

  ghost predicate Wf(r: Registry, maxBytes: nat) {
    && Bounded(r)
    && Distinct(r.active)
    && (forall i :: 0 <= i < |r.flights| ==> FlightOk(r.flights[i], i in r.active, i in r.retired))
    && (forall i, j :: i in r.active && j in r.active && r.flights[i].key == r.flights[j].key ==> i == j)
    && r.leased == Ledger(r.flights) <= maxBytes
  }

  function Ref(p: Phase): Option<nat> {
    match p
    case Leading(i) => Some(i)
    case Waiting(i, _, _) => Some(i)
    case Holding(i, _) => Some(i)
    case _ => None
  }

  ghost function Refs(callers: map<nat, Phase>, i: nat): set<nat> {
    set c | c in callers && Ref(callers[c]) == Some(i)
  }

  ghost predicate PhaseOk(fs: seq<Flight>, p: Phase) {
    match p
    case Leading(i) => i < |fs| && fs[i].state == InFlight
    case Waiting(i, key, _) => i < |fs| && fs[i].key == key
    case Holding(i, body) => i < |fs| && fs[i].future == Result(body)
    case Released(i, body) => i < |fs| && fs[i].future == Result(body)
    case Raised(i, exc) => i < |fs| && fs[i].future == Envelope(exc)
    case _ => true
  }

  ghost predicate Led(callers: map<nat, Phase>, i: nat) {
    exists c :: c in callers && callers[c] == Leading(i)
  }

  ghost predicate CallersOk(fs: seq<Flight>, callers: map<nat, Phase>) {
    && (forall c :: c in callers ==> PhaseOk(fs, callers[c]))
    && (forall i :: 0 <= i < |fs| ==> fs[i].refs == |Refs(callers, i)|)
    && (forall i :: 0 <= i < |fs| && fs[i].state == InFlight ==> Led(callers, i))
    && (forall c, d :: c in callers && d in callers && callers[c].Leading? && callers[c] == callers[d] ==> c == d)
  }

  ghost predicate Inv(cfg: Config, s: Sys) {
    Wf(s.reg, cfg.maxBytes) && CallersOk(s.reg.flights, s.callers)
  }

  // ---- one-flight changes ---------------------------------------------------------

  ghost predicate OnlyAt(r: Registry, r': Registry, i: nat) {
    && i < |r.flights| == |r'.flights|
    && r'.flights == r.flights[i := r'.flights[i]]
    && (forall j :: j != i ==> (j in r'.active <==> j in r.active) && (j in r'.retired <==> j in r.retired))
    && (i in r'.active ==> i in r.active)
    && (Distinct(r.active) ==> Distinct(r'.active))
    && r'.flights[i].key == r.flights[i].key
    && r'.flights[i].reserve == r.flights[i].reserve
  }

  /** A change confined to one flight keeps the registry well formed if it leaves that flight so. */
  lemma Local(r: Registry, r': Registry, i: nat, maxBytes: nat)
    requires Wf(r, maxBytes) && OnlyAt(r, r', i)
    requires FlightOk(r'.flights[i], i in r'.active, i in r'.retired)
    requires r'.leased == r.leased - Weight(r.flights[i]) + Weight(r'.flights[i]) <= maxBytes
    ensures Wf(r', maxBytes)
  {
    LedgerEdit(r.flights, i, r'.flights[i]);
    assert forall k :: 0 <= k < |r'.active| ==> r'.active[k] in r'.active;
    assert forall k :: 0 <= k < |r.active| ==> r.active[k] in r.active;
    forall j | j in r'.active ensures j in r.active { }
  }

  lemma ReapEffect(r: Registry, i: nat)
    requires i < |r.flights|
    ensures OnlyAt(r, Reap(r, i), i)
    ensures Reap(r, i).flights[i] == r.flights[i].(accounted := false)
    ensures Reap(r, i).leased == r.leased - Weight(r.flights[i])
    ensures i !in Reap(r, i).active && i !in Reap(r, i).retired
  {
  }

  lemma ReleaseKeeps(r: Registry, i: nat, maxBytes: nat)
    requires Wf(r, maxBytes) && i < |r.flights| && r.flights[i].refs > 0
    ensures var r' := ReleaseCaller(r, i);
            && Wf(r', maxBytes) && OnlyAt(r, r', i) && r'.active == r.active
            && r'.flights[i] == r.flights[i].(refs := r.flights[i].refs - 1, accounted := r'.flights[i].accounted)
  {
    var f := r.flights[i];
    var r1 := Edit(r, i, f.(refs := f.refs - 1));
    if f.refs == 1 && (f.state == Retained || f.state == Failed) {
      ReapEffect(r1, i);
      WithoutAbsent(r.active, i);
    }
    Local(r, ReleaseCaller(r, i), i, maxBytes);
  }

  lemma FailKeeps(r: Registry, i: nat, outcome: Future, maxBytes: nat)
    requires Wf(r, maxBytes) && i < |r.flights|
    requires r.flights[i].state == InFlight && r.flights[i].refs > 0
    requires outcome.Envelope? || outcome.Cancelled?
    ensures var r' := Fail(r, i, outcome);
            && Wf(r', maxBytes) && OnlyAt(r, r', i)
            && r'.flights[i].refs == r.flights[i].refs - 1 && r'.flights[i].future == outcome
            && r'.flights[i].state == Failed
            && r'.leased == r.leased - r.flights[i].reserve && i !in r'.active
  {
    var f := r.flights[i];
    var g := f.(refs := f.refs - 1, layer := Retired, state := Failed, accounted := false, future := outcome);
    var r4 := Registry(r.flights[i := g], Without(r.active, i), r.retired + {i}, r.leased - f.reserve);
    assert f.accounted;
    assert Fail(r, i, outcome) == if g.refs == 0 then Reap(r4, i) else r4;
    if g.refs == 0 {
      ReapEffect(r4, i);
    }
    Local(r, Fail(r, i, outcome), i, maxBytes);
  }

  lemma SucceedKeeps(r: Registry, i: nat, body: Body, deadline: int, maxBytes: nat)
    requires Wf(r, maxBytes) && i < |r.flights|
    requires r.flights[i].state == InFlight && r.flights[i].refs > 0
    ensures var r' := Succeed(r, i, body, deadline);
            && Wf(r', maxBytes) && OnlyAt(r, r', i) && r'.active == r.active && r'.leased == r.leased
            && r'.flights[i].refs == r.flights[i].refs && r'.flights[i].future == Result(body)
            && r'.flights[i].accounted && r'.flights[i].state != InFlight
            && (r'.flights[i].state == Grace ==> r'.flights[i].expiresAt == Some(deadline))
  {
    Local(r, Succeed(r, i, body, deadline), i, maxBytes);
  }

  // ---- changes no caller can see --------------------------------------------------

  /** Futures, references and running factories are untouched; refunds only. */
  ghost predicate Quiet(r: Registry, r': Registry) {
    && |r.flights| == |r'.flights|
    && (forall j :: 0 <= j < |r.flights| ==> QuietAt(r.flights[j], r'.flights[j]))
    && (forall j :: j in r'.active ==> j in r.active)
  }

  ghost predicate QuietAt(f: Flight, g: Flight) {
    && g.key == f.key && g.reserve == f.reserve && g.future == f.future && g.refs == f.refs
    && (g.state == InFlight <==> f.state == InFlight)
    && (g.state == Grace ==> f.state == Grace) && g.expiresAt == f.expiresAt
    && (g.accounted ==> f.accounted)
    && (f.accounted && f.refs > 0 ==> g.accounted)
  }

  lemma QuietCallers(r: Registry, r': Registry, callers: map<nat, Phase>)
    requires Quiet(r, r') && CallersOk(r.flights, callers)
    ensures CallersOk(r'.flights, callers)
  {
    forall c | c in callers ensures PhaseOk(r'.flights, callers[c]) {
      assert PhaseOk(r.flights, callers[c]);
    }
    forall i | 0 <= i < |r'.flights|
      ensures r'.flights[i].refs == |Refs(callers, i)|
      ensures r'.flights[i].state == InFlight ==> Led(callers, i)
    {
      assert QuietAt(r.flights[i], r'.flights[i]);
    }
  }

  lemma ExpireKeeps(r: Registry, i: nat, maxBytes: nat)
    requires Wf(r, maxBytes) && i < |r.flights|
    ensures var r' := ExpireGrace(r, i);
            && Wf(r', maxBytes) && OnlyAt(r, r', i) && Quiet(r, r')
            && r'.leased == r.leased - (if Idle(r.flights[i]) then r.flights[i].reserve else 0)
  {
    var f := r.flights[i];
    var r' := ExpireGrace(r, i);
    if f.state == Grace {
      var g := f.(timer := false, layer := Retired, state := Retained);
      var r2 := Registry(r.flights[i := g], Without(r.active, i), r.retired + {i}, r.leased);
      assert r' == if g.refs == 0 then Reap(r2, i) else r2;
      if g.refs == 0 {
        ReapEffect(r2, i);
      }
      Local(r, r', i, maxBytes);
    }
  }

  lemma DueKeeps(r: Registry, key: Key, now: int, maxBytes: nat)
    requires Wf(r, maxBytes)
    ensures Wf(ExpireIfDue(r, key, now), maxBytes) && Quiet(r, ExpireIfDue(r, key, now))
  {
    var hit := Find(r.flights, r.active, key);
    if hit.Some? {
      ExpireKeeps(r, hit.value, maxBytes);
    }
  }

  lemma ConvergeKeeps(r: Registry, i: nat, maxBytes: nat)
    requires Wf(r, maxBytes) && i in r.active
    ensures Wf(Converge(r, i), maxBytes) && Quiet(r, Converge(r, i)) && OnlyAt(r, Converge(r, i), i)
    ensures i !in Converge(r, i).active
  {
    var f := r.flights[i].(timer := false, layer := Retired);
    var r' := Converge(r, i);
    if f.state == Grace && f.refs == 0 {
      ReapEffect(Registry(r.flights[i := f.(state := Retained)], Without(r.active, i), r.retired + {i}, r.leased), i);
    }
    Local(r, r', i, maxBytes);
  }

  lemma {:induction false} ConvergeAllKeeps(r: Registry, ids: seq<nat>, maxBytes: nat)
    requires Wf(r, maxBytes) && Distinct(ids) && Below(ids, |r.flights|)
    requires forall j :: j in ids <==> j in r.active
    ensures var r' := ConvergeAll(r, ids);
            Wf(r', maxBytes) && Quiet(r, r') && r'.active == []
    decreases |ids|
  {
    if ids == [] {
      EmptyOrMember(r.active);
    } else {
      var i := ids[0];
      ConvergeKeeps(r, i, maxBytes);
      var r1 := Converge(r, i);
      forall j ensures j in ids[1..] <==> j in r1.active {
        assert j in ids <==> j == i || j in ids[1..];
      }
      ConvergeAllKeeps(r1, ids[1..], maxBytes);
      QuietTransitive(r, r1, ConvergeAll(r, ids));
    }
  }

  // ---- admission --------------------------------------------------------------------

  /** Bytes the sweep could free: grace flights that no caller holds. */
  function IdleBytes(fs: seq<Flight>, ids: seq<nat>): nat
    requires Below(ids, |fs|)
  {
    if ids == [] then 0
    else (if Idle(fs[ids[0]]) then fs[ids[0]].reserve else 0) + IdleBytes(fs, ids[1..])
  }

  lemma {:induction false} IdleBytesFrame(fs: seq<Flight>, i: nat, f: Flight, ids: seq<nat>)
    requires Below(ids, |fs|) && i < |fs| && i !in ids
    ensures IdleBytes(fs[i := f], ids) == IdleBytes(fs, ids)
  {
    if ids != [] {
      IdleBytesFrame(fs, i, f, ids[1..]);
    }
  }

  lemma {:induction false} SweepFits(r: Registry, ids: seq<nat>, needed: nat, maxBytes: nat)
    requires Wf(r, maxBytes) && Distinct(ids) && Below(ids, |r.flights|)
    ensures var r' := Sweep(r, ids, needed, maxBytes);
            && Wf(r', maxBytes) && Quiet(r, r')
            && (r'.leased + needed <= maxBytes <==> r.leased - IdleBytes(r.flights, ids) + needed <= maxBytes)
    decreases |ids|
  {
    if ids != [] && r.leased + needed > maxBytes {
      var i := ids[0];
      ExpireKeeps(r, i, maxBytes);
      var r1 := if Idle(r.flights[i]) then ExpireGrace(r, i) else r;
      assert Quiet(r, r1);
      assert i !in ids[1..];
      IdleBytesFrame(r.flights, i, r1.flights[i], ids[1..]);
      SweepFits(r1, ids[1..], needed, maxBytes);
      QuietTransitive(r, r1, Sweep(r, ids, needed, maxBytes));
    }
  }

  lemma {:induction false} IdleWithinLedger(r: Registry, ids: seq<nat>, maxBytes: nat)
    requires Wf(r, maxBytes) && Distinct(ids) && Below(ids, |r.flights|)
    ensures IdleBytes(r.flights, ids) <= r.leased
    decreases |ids|
  {
    if ids != [] {
      var i := ids[0];
      ExpireKeeps(r, i, maxBytes);
      var r1 := ExpireGrace(r, i);
      assert i !in ids[1..];
      IdleBytesFrame(r.flights, i, r1.flights[i], ids[1..]);
      IdleWithinLedger(r1, ids[1..], maxBytes);
    }
  }

  lemma QuietTransitive(a: Registry, b: Registry, c: Registry)
    requires Quiet(a, b) && Quiet(b, c)
    ensures Quiet(a, c)
  {
    forall j | 0 <= j < |a.flights| ensures QuietAt(a.flights[j], c.flights[j]) {
      assert QuietAt(a.flights[j], b.flights[j]) && QuietAt(b.flights[j], c.flights[j]);
    }
  }

  /**
   * A caller is turned away exactly when its reserve does not fit even with every
   * idle grace flight evicted.
   */
  lemma Admission(r: Registry, needed: nat, maxBytes: nat)
    requires Wf(r, maxBytes)
    ensures var (ok, r') := TryReserve(r, needed, maxBytes);
            && (ok <==> r.leased - IdleBytes(r.flights, r.active) + needed <= maxBytes)
            && Wf(r', maxBytes) && Quiet(r, r') && (ok ==> r'.leased + needed <= maxBytes)
  {
    SweepFits(r, r.active, needed, maxBytes);
    IdleWithinLedger(r, r.active, maxBytes);
  }

  /** The idle grace flights among `ids`, oldest first. */
  function IdleIds(fs: seq<Flight>, ids: seq<nat>): (idle: seq<nat>)
    requires Below(ids, |fs|)
    ensures Below(idle, |fs|)
    ensures forall i :: i in idle ==> i in ids && i < |fs| && Idle(fs[i])
  {
    if ids == [] then []
    else (if Idle(fs[ids[0]]) then [ids[0]] else []) + IdleIds(fs, ids[1..])
  }

  function Reserves(fs: seq<Flight>, ids: seq<nat>): nat
    requires Below(ids, |fs|)
  {
    if ids == [] then 0 else fs[ids[0]].reserve + Reserves(fs, ids[1..])
  }

  /** `active` without the flights in `gone`; the others keep their order. */
  function Minus(active: seq<nat>, gone: seq<nat>): seq<nat>
    decreases |gone|
  {
    if gone == [] then active else Minus(Without(active, gone[0]), gone[1..])
  }

  lemma {:induction false} IdleIdsFrame(fs: seq<Flight>, i: nat, f: Flight, ids: seq<nat>)
    requires Below(ids, |fs|) && i < |fs| && i !in ids
    ensures IdleIds(fs[i := f], ids) == IdleIds(fs, ids)
  {
    if ids != [] {
      IdleIdsFrame(fs, i, f, ids[1..]);
    }
  }

  lemma {:induction false} ReservesFrame(fs: seq<Flight>, i: nat, f: Flight, ids: seq<nat>)
    requires Below(ids, |fs|) && i < |fs| && f.reserve == fs[i].reserve
    ensures Reserves(fs[i := f], ids) == Reserves(fs, ids)
  {
    if ids != [] {
      ReservesFrame(fs, i, f, ids[1..]);
    }
  }

  /** From `r` to `r'` the first `k` of the idle flights left, each needed; if one stayed, the reserve fits without it. */
  ghost predicate Swept(r: Registry, r': Registry, idle: seq<nat>, k: nat, needed: nat, maxBytes: nat)
    requires Below(idle, |r.flights|)
  {
    && k <= |idle| && |r'.flights| == |r.flights|
    && r'.active == Minus(r.active, idle[..k])
    && r'.leased == r.leased - Reserves(r.flights, idle[..k])
    && (forall i :: 0 <= i < |r.flights| && i !in idle[..k] ==> r'.flights[i] == r.flights[i])
    && (forall j :: 0 <= j < k ==> r.leased - Reserves(r.flights, idle[..j]) + needed > maxBytes)
    && (k < |idle| ==> r'.leased + needed <= maxBytes)
  }

  lemma SweptMore(r: Registry, r1: Registry, r': Registry, i: nat, idle: seq<nat>, k: nat, needed: nat, maxBytes: nat)
    requires i < |r.flights| == |r1.flights| && Below(idle, |r.flights|) && Below([i] + idle, |r.flights|)
    requires r1.flights == r.flights[i := r1.flights[i]] && r1.flights[i].reserve == r.flights[i].reserve
    requires r1.active == Without(r.active, i) && r1.leased == r.leased - r.flights[i].reserve
    requires r.leased + needed > maxBytes && Swept(r1, r', idle, k, needed, maxBytes)
    ensures Swept(r, r', [i] + idle, k + 1, needed, maxBytes)
  {
    var all := [i] + idle;
    assert all[..k + 1] == [i] + idle[..k];
    assert all[..k + 1][1..] == idle[..k];
    ReservesFrame(r.flights, i, r1.flights[i], idle[..k]);
    forall j | 0 <= j < k + 1 ensures r.leased - Reserves(r.flights, all[..j]) + needed > maxBytes {
      if j > 0 {
        assert all[..j][1..] == idle[..j - 1];
        ReservesFrame(r.flights, i, r1.flights[i], idle[..j - 1]);
        assert r1.leased - Reserves(r1.flights, idle[..j - 1]) + needed > maxBytes;
      }
    }
  }

  lemma SweptNothing(r: Registry, idle: seq<nat>, needed: nat, maxBytes: nat)
    requires Below(idle, |r.flights|) && (idle == [] || r.leased + needed <= maxBytes)
    ensures Swept(r, r, idle, 0, needed, maxBytes)
  {
    assert idle[..0] == [];
  }

  lemma {:induction false} SweepsNoMoreThanNeeded(r: Registry, ids: seq<nat>, needed: nat, maxBytes: nat)
    returns (k: nat, r': Registry, idle: seq<nat>)
    requires Wf(r, maxBytes) && Distinct(ids) && Below(ids, |r.flights|)
    ensures r' == Sweep(r, ids, needed, maxBytes) && idle == IdleIds(r.flights, ids)
    ensures Swept(r, r', idle, k, needed, maxBytes)
    decreases |ids|, 1
  {
    if ids == [] || r.leased + needed <= maxBytes {
      k, r', idle := 0, r, IdleIds(r.flights, ids);
      SweptNothing(r, idle, needed, maxBytes);
    } else if Idle(r.flights[ids[0]]) {
      k, r', idle := SweepsFirst(r, ids, needed, maxBytes);
    } else {
      SweepSkips(r, ids, needed, maxBytes);
      k, r', idle := SweepsNoMoreThanNeeded(r, ids[1..], needed, maxBytes);
    }
  }

  lemma {:induction false} SweepsFirst(r: Registry, ids: seq<nat>, needed: nat, maxBytes: nat)
    returns (k: nat, r': Registry, idle: seq<nat>)
    requires Wf(r, maxBytes) && Distinct(ids) && Below(ids, |r.flights|)
    requires ids != [] && r.leased + needed > maxBytes && Idle(r.flights[ids[0]])
    ensures r' == Sweep(r, ids, needed, maxBytes) && idle == IdleIds(r.flights, ids)
    ensures Swept(r, r', idle, k, needed, maxBytes)
    decreases |ids|, 0
  {
    var r1 := SweepFirst(r, ids, needed, maxBytes);
    var m, rest;
    m, r', rest := SweepsNoMoreThanNeeded(r1, ids[1..], needed, maxBytes);
    SweptMore(r, r1, r', ids[0], rest, m, needed, maxBytes);
    k, idle := m + 1, [ids[0]] + rest;
  }

  lemma SweepSkips(r: Registry, ids: seq<nat>, needed: nat, maxBytes: nat)
    requires Below(ids, |r.flights|) && ids != [] && r.leased + needed > maxBytes && !Idle(r.flights[ids[0]])
    ensures Sweep(r, ids, needed, maxBytes) == Sweep(r, ids[1..], needed, maxBytes)
    ensures IdleIds(r.flights, ids) == IdleIds(r.flights, ids[1..])
  {
    assert [] + IdleIds(r.flights, ids[1..]) == IdleIds(r.flights, ids[1..]);
  }

  /** The first step of a sweep whose oldest candidate is idle. */
  lemma SweepFirst(r: Registry, ids: seq<nat>, needed: nat, maxBytes: nat) returns (r1: Registry)
    requires Wf(r, maxBytes) && Distinct(ids) && Below(ids, |r.flights|)
    requires ids != [] && r.leased + needed > maxBytes && Idle(r.flights[ids[0]])
    ensures Wf(r1, maxBytes) && |r1.flights| == |r.flights|
    ensures Sweep(r, ids, needed, maxBytes) == Sweep(r1, ids[1..], needed, maxBytes)
    ensures r1.flights == r.flights[ids[0] := r1.flights[ids[0]]] && r1.flights[ids[0]].reserve == r.flights[ids[0]].reserve
    ensures r1.active == Without(r.active, ids[0]) && r1.leased == r.leased - r.flights[ids[0]].reserve
    ensures IdleIds(r.flights, ids) == [ids[0]] + IdleIds(r1.flights, ids[1..])
  {
    var i := ids[0];
    r1 := ExpireGrace(r, i);
    ExpireKeeps(r, i, maxBytes);
    ExpiredLeaves(r, i, maxBytes);
    IdleIdsFrame(r.flights, i, r1.flights[i], ids[1..]);
  }

  /**
   * A reservation that could fit evicts the oldest idle grace flights and no more of them than it
   * must: a prefix of them leaves, the reserve did not fit before any of these left, and if one
   * stays it fits now. A reserve over the whole budget evicts nothing.
   */
  lemma EvictsNoMoreThanNeeded(r: Registry, needed: nat, maxBytes: nat) returns (k: nat)
    requires Wf(r, maxBytes)
    ensures var (ok, r') := TryReserve(r, needed, maxBytes);
            if needed > maxBytes then r' == r
            else Swept(r, r', IdleIds(r.flights, r.active), k, needed, maxBytes)
  {
    var r', idle;
    k, r', idle := SweepsNoMoreThanNeeded(r, r.active, needed, maxBytes);
  }

  lemma ExpiredLeaves(r: Registry, i: nat, maxBytes: nat)
    requires Wf(r, maxBytes) && i < |r.flights| && Idle(r.flights[i])
    ensures ExpireGrace(r, i).active == Without(r.active, i)
  {
    assert FlightOk(r.flights[i], i in r.active, i in r.retired);
    WithoutTwice(r.active, i);
  }

  lemma {:induction false} WithoutTwice(s: seq<nat>, i: nat)
    ensures Without(Without(s, i), i) == Without(s, i)
  {
    WithoutAbsent(Without(s, i), i);
  }

  // ---- events -----------------------------------------------------------------------

  /** The serial point of the fetch entry: join the registered flight, lead a new one, or bypass. */
  ghost function Enter(cfg: Config, s: Sys, c: nat, key: Key, reserve: nat): Sys
    requires Wf(s.reg, cfg.maxBytes)
  {
    DueKeeps(s.reg, key, s.now, cfg.maxBytes);
    var r := ExpireIfDue(s.reg, key, s.now);
    var hit := Find(r.flights, r.active, key);
    if hit.Some? then
      s.(reg := AddRef(r, hit.value), callers := s.callers[c := Waiting(hit.value, key, reserve)])
    else
      var (ok, r1) := TryReserve(r, reserve, cfg.maxBytes);
      if !ok then s.(reg := r1, callers := s.callers[c := Bypassed])
      else s.(reg := Register(r1, key, reserve), callers := s.callers[c := Leading(|r1.flights|)])
  }

  ghost function Resume(cfg: Config, s: Sys, c: nat): Sys
    requires Inv(cfg, s) && c in s.callers && s.callers[c].Waiting?
  {
    var Waiting(i, key, reserve) := s.callers[c];
    assert PhaseOk(s.reg.flights, s.callers[c]);
    match s.reg.flights[i].future
    case Pending => s
    case Result(body) => s.(callers := s.callers[c := Holding(i, body)])
    case Envelope(exc) => s.(reg := ReleaseCaller(s.reg, i), callers := s.callers[c := Raised(i, exc)])
    case Cancelled =>
      RefHeld(cfg, s, c, i);
      ReleaseKeeps(s.reg, i, cfg.maxBytes);
      Enter(cfg, s.(reg := ReleaseCaller(s.reg, i), callers := s.callers[c := Aborted]), c, key, reserve)
  }

  /** The leader's tail: publish to the shared future, then settle the flight's ownership. */
  ghost function Settle(cfg: Config, s: Sys, c: nat, ending: Ending): Sys
    requires Inv(cfg, s) && c in s.callers && s.callers[c].Leading?
  {
    var i := s.callers[c].i;
    assert PhaseOk(s.reg.flights, s.callers[c]);
    match ending
    case Ok(body) =>
      s.(reg := Succeed(s.reg, i, body, s.now + cfg.grace), callers := s.callers[c := Holding(i, body)])
    case Error(exc) =>
      s.(reg := Fail(s.reg, i, Envelope(exc)), callers := s.callers[c := Raised(i, exc)])
    case Interrupted =>
      s.(reg := Fail(s.reg, i, Cancelled), callers := s.callers[c := Aborted])
  }

  /** A waiter is cancelled, or a lease is released: the caller's reference goes away. */
  ghost function Leave(cfg: Config, s: Sys, c: nat, p: Phase): Sys
    requires Inv(cfg, s) && c in s.callers && Ref(s.callers[c]).Some?
  {
    var i := Ref(s.callers[c]).value;
    assert PhaseOk(s.reg.flights, s.callers[c]);
    s.(reg := ReleaseCaller(s.reg, i), callers := s.callers[c := p])
  }

  ghost function Step(cfg: Config, s: Sys, e: Event): Sys
    requires Inv(cfg, s)
  {
    match e
    case Call(c, key, reserve) =>
      if c in s.callers then s else Enter(cfg, s, c, key, reserve)
    case Finish(c, ending) =>
      if c in s.callers && s.callers[c].Leading? then Settle(cfg, s, c, ending) else s
    case Wake(c) =>
      if c in s.callers && s.callers[c].Waiting? then Resume(cfg, s, c) else s
    case CancelWaiter(c) =>
      if c in s.callers && s.callers[c].Waiting? then Leave(cfg, s, c, Aborted) else s
    case Release(c) =>
      if c in s.callers && s.callers[c].Holding? then
        Leave(cfg, s, c, Released(s.callers[c].i, s.callers[c].body))
      else s
    case Fire(i) =>
      if i < |s.reg.flights| && s.reg.flights[i].timer then s.(reg := ExpireEntry(s.reg, i)) else s
    case Stop => s.(reg := Shutdown(s.reg))
    case Tick(d) => s.(now := s.now + d)
  }

  // ---- every event keeps the invariant -------------------------------------------------

  lemma RefsOf(callers: map<nat, Phase>, c: nat, p: Phase, i: nat)
    ensures var before := Refs(callers, i) - {c};
            && Refs(callers[c := p], i) == (if Ref(p) == Some(i) then before + {c} else before)
            && |Refs(callers[c := p], i)| == |before| + (if Ref(p) == Some(i) then 1 else 0)
            && |before| == |Refs(callers, i)| - (if c in callers && Ref(callers[c]) == Some(i) then 1 else 0)
  {
    var before := Refs(callers, i) - {c};
    assert Refs(callers[c := p], i) == if Ref(p) == Some(i) then before + {c} else before;
    if c in callers && Ref(callers[c]) == Some(i) {
      assert before + {c} == Refs(callers, i);
    } else {
      assert before == Refs(callers, i);
    }
  }

  lemma RefHeld(cfg: Config, s: Sys, c: nat, i: nat)
    requires Inv(cfg, s) && c in s.callers && Ref(s.callers[c]) == Some(i)
    ensures i < |s.reg.flights| && s.reg.flights[i].refs > 0
  {
    assert PhaseOk(s.reg.flights, s.callers[c]);
    assert c in Refs(s.callers, i);
  }

  /** Flight `i` counts one caller less if `c` left it and one more if `c` arrived there. */
  lemma MoveCounts(r: Registry, r': Registry, callers: map<nat, Phase>, c: nat, p: Phase, i: nat)
    requires CallersOk(r.flights, callers) && OnlyAt(r, r', i)
    requires Ref(p) == None || Ref(p) == Some(i)
    requires c in callers ==> Ref(callers[c]) == None || Ref(callers[c]) == Some(i)
    requires r'.flights[i].refs == r.flights[i].refs
               - (if c in callers && Ref(callers[c]) == Some(i) then 1 else 0) + (if Ref(p) == Some(i) then 1 else 0)
    ensures forall j :: 0 <= j < |r'.flights| ==> r'.flights[j].refs == |Refs(callers[c := p], j)|
  {
    forall j | 0 <= j < |r'.flights| ensures r'.flights[j].refs == |Refs(callers[c := p], j)| {
      RefsOf(callers, c, p, j);
    }
  }

  /** Only flight `i` changed, a future is written at most once, and a leader leaves with its flight. */
  ghost predicate Moves(r: Registry, r': Registry, callers: map<nat, Phase>, c: nat, p: Phase, i: nat) {
    && OnlyAt(r, r', i)
    && !p.Leading? && PhaseOk(r'.flights, p)
    && (r.flights[i].future.Pending? || r'.flights[i].future == r.flights[i].future)
    && (r'.flights[i].state == InFlight <==>
          r.flights[i].state == InFlight && !(c in callers && callers[c].Leading?))
    && (c in callers && callers[c].Leading? ==> callers[c].i == i)
  }

  lemma MovePhases(r: Registry, r': Registry, callers: map<nat, Phase>, c: nat, p: Phase, i: nat)
    requires CallersOk(r.flights, callers) && Moves(r, r', callers, c, p, i)
    ensures forall d :: d in callers && d != c ==> PhaseOk(r'.flights, callers[d])
  {
    forall d | d in callers && d != c ensures PhaseOk(r'.flights, callers[d]) {
      assert PhaseOk(r.flights, callers[d]);
    }
  }

  lemma MoveLeaders(r: Registry, r': Registry, callers: map<nat, Phase>, c: nat, p: Phase, i: nat)
    requires CallersOk(r.flights, callers) && Moves(r, r', callers, c, p, i)
    ensures forall j :: 0 <= j < |r'.flights| && r'.flights[j].state == InFlight ==> Led(callers[c := p], j)
  {
    forall j | 0 <= j < |r'.flights| && r'.flights[j].state == InFlight ensures Led(callers[c := p], j) {
      assert Led(callers, j);
      var d :| d in callers && callers[d] == Leading(j);
      assert callers[c := p][d] == Leading(j);
    }
  }

  lemma Move(r: Registry, r': Registry, callers: map<nat, Phase>, c: nat, p: Phase, i: nat)
    requires CallersOk(r.flights, callers) && Moves(r, r', callers, c, p, i)
    requires Ref(p) == None || Ref(p) == Some(i)
    requires c in callers ==> Ref(callers[c]) == None || Ref(callers[c]) == Some(i)
    requires r'.flights[i].refs == r.flights[i].refs
               - (if c in callers && Ref(callers[c]) == Some(i) then 1 else 0) + (if Ref(p) == Some(i) then 1 else 0)
    ensures CallersOk(r'.flights, callers[c := p])
  {
    MoveCounts(r, r', callers, c, p, i);
    MovePhases(r, r', callers, c, p, i);
    MoveLeaders(r, r', callers, c, p, i);
  }

  lemma EnterKeeps(cfg: Config, s: Sys, c: nat, key: Key, reserve: nat)
    requires Inv(cfg, s) && (c in s.callers ==> Ref(s.callers[c]) == None)
    ensures Inv(cfg, Enter(cfg, s, c, key, reserve))
  {
    DueKeeps(s.reg, key, s.now, cfg.maxBytes);
    var r := ExpireIfDue(s.reg, key, s.now);
    QuietCallers(s.reg, r, s.callers);
    var hit := Find(r.flights, r.active, key);
    if hit.Some? {
      var i := hit.value;
      Local(r, AddRef(r, i), i, cfg.maxBytes);
      Move(r, AddRef(r, i), s.callers, c, Waiting(i, key, reserve), i);
    } else {
      Admission(r, reserve, cfg.maxBytes);
      var (ok, r1) := TryReserve(r, reserve, cfg.maxBytes);
      QuietCallers(r, r1, s.callers);
      if ok {
        RegisterWf(r1, key, reserve, cfg.maxBytes);
        RegisterCallers(r1.flights, s.callers, c, NewFlight(key, 1, reserve, true));
      } else {
        Drop(r1.flights, s.callers, c, Bypassed);
      }
    }
  }

  /** A caller that holds no reference may change to any other reference-free, flight-free phase. */
  lemma Drop(fs: seq<Flight>, callers: map<nat, Phase>, c: nat, p: Phase)
    requires CallersOk(fs, callers) && (c in callers ==> Ref(callers[c]) == None)
    requires Ref(p) == None && PhaseOk(fs, p)
    ensures CallersOk(fs, callers[c := p])
  {
    forall j | 0 <= j < |fs|
      ensures fs[j].refs == |Refs(callers[c := p], j)|
      ensures fs[j].state == InFlight ==> Led(callers[c := p], j)
    {
      RefsOf(callers, c, p, j);
      if fs[j].state == InFlight {
        var d :| d in callers && callers[d] == Leading(j);
        assert callers[c := p][d] == Leading(j);
      }
    }
  }

  lemma RegisterWf(r: Registry, key: Key, reserve: nat, maxBytes: nat)
    requires Wf(r, maxBytes) && r.leased + reserve <= maxBytes
    requires forall k :: 0 <= k < |r.active| ==> r.flights[r.active[k]].key != key
    ensures Wf(Register(r, key, reserve), maxBytes)
  {
    var r' := Register(r, key, reserve);
    var n := |r.flights|;
    assert r'.flights[..n] == r.flights;
    NewcomerListed(r.active, n);
    forall i | 0 <= i < n ensures FlightOk(r'.flights[i], i in r'.active, i in r'.retired) {
      assert i in r'.active <==> i in r.active;
    }
  }

  lemma NewcomerListed(active: seq<nat>, n: nat)
    requires Below(active, n) && Distinct(active)
    ensures Below(active + [n], n + 1) && Distinct(active + [n]) && n !in active
    ensures forall i :: i in active + [n] <==> i == n || i in active
    ensures forall i :: i in active ==> i < n
  {
  }

  lemma RegisterCallers(fs: seq<Flight>, callers: map<nat, Phase>, c: nat, f: Flight)
    requires CallersOk(fs, callers) && (c in callers ==> Ref(callers[c]) == None)
    requires f.state == InFlight && f.refs == 1
    ensures CallersOk(fs + [f], callers[c := Leading(|fs|)])
  {
    var n := |fs|;
    var callers' := callers[c := Leading(n)];
    RegisterCounts(fs, callers, c);
    forall d | d in callers && d != c ensures PhaseOk(fs + [f], callers[d]) {
      assert PhaseOk(fs, callers[d]);
    }
    forall j | 0 <= j <= n && (fs + [f])[j].state == InFlight ensures Led(callers', j) {
      LedAfter(callers, c, n, j);
    }
  }

  lemma RegisterCounts(fs: seq<Flight>, callers: map<nat, Phase>, c: nat)
    requires CallersOk(fs, callers) && (c in callers ==> Ref(callers[c]) == None)
    ensures forall j :: 0 <= j < |fs| ==> fs[j].refs == |Refs(callers[c := Leading(|fs|)], j)|
    ensures |Refs(callers[c := Leading(|fs|)], |fs|)| == 1
    ensures forall d :: d in callers ==> callers[d] != Leading(|fs|)
  {
    var n := |fs|;
    forall d | d in callers ensures Ref(callers[d]) != Some(n) {
      assert PhaseOk(fs, callers[d]);
    }
    assert Refs(callers, n) == {};
    RefsOf(callers, c, Leading(n), n);
    forall j | 0 <= j < n ensures fs[j].refs == |Refs(callers[c := Leading(n)], j)| {
      RefsOf(callers, c, Leading(n), j);
    }
  }

  lemma LedAfter(callers: map<nat, Phase>, c: nat, n: nat, j: nat)
    requires c in callers ==> Ref(callers[c]) == None
    ensures Led(callers, j) || j == n ==> Led(callers[c := Leading(n)], j)
  {
    if Led(callers, j) {
      var d :| d in callers && callers[d] == Leading(j);
      assert callers[c := Leading(n)][d] == Leading(j);
    }
    assert callers[c := Leading(n)][c] == Leading(n);
  }

  lemma ResumeKeeps(cfg: Config, s: Sys, c: nat)
    requires Inv(cfg, s) && c in s.callers && s.callers[c].Waiting?
    ensures Inv(cfg, Resume(cfg, s, c))
  {
    var Waiting(i, key, reserve) := s.callers[c];
    RefHeld(cfg, s, c, i);
    ReleaseKeeps(s.reg, i, cfg.maxBytes);
    var r' := ReleaseCaller(s.reg, i);
    match s.reg.flights[i].future
    case Pending =>
    case Result(body) => Move(s.reg, s.reg, s.callers, c, Holding(i, body), i);
    case Envelope(exc) => Move(s.reg, r', s.callers, c, Raised(i, exc), i);
    case Cancelled =>
      Move(s.reg, r', s.callers, c, Aborted, i);
      EnterKeeps(cfg, s.(reg := r', callers := s.callers[c := Aborted]), c, key, reserve);
  }

  lemma WonKeeps(cfg: Config, s: Sys, c: nat, body: Body)
    requires Inv(cfg, s) && c in s.callers && s.callers[c].Leading?
    ensures Inv(cfg, Settle(cfg, s, c, Ok(body)))
  {
    var i := s.callers[c].i;
    RefHeld(cfg, s, c, i);
    assert PhaseOk(s.reg.flights, s.callers[c]);
    var deadline := s.now + cfg.grace;
    SucceedKeeps(s.reg, i, body, deadline, cfg.maxBytes);
    Move(s.reg, Succeed(s.reg, i, body, deadline), s.callers, c, Holding(i, body), i);
    assert Settle(cfg, s, c, Ok(body)).reg == Succeed(s.reg, i, body, deadline);
  }

  lemma LostKeeps(cfg: Config, s: Sys, c: nat, outcome: Future, p: Phase)
    requires Inv(cfg, s) && c in s.callers && s.callers[c].Leading?
    requires (outcome == Cancelled && p == Aborted) || (outcome.Envelope? && p == Raised(s.callers[c].i, outcome.exc))
    ensures s.callers[c].i < |s.reg.flights|
    ensures Inv(cfg, s.(reg := Fail(s.reg, s.callers[c].i, outcome), callers := s.callers[c := p]))
  {
    var i := s.callers[c].i;
    RefHeld(cfg, s, c, i);
    assert PhaseOk(s.reg.flights, s.callers[c]);
    FailKeeps(s.reg, i, outcome, cfg.maxBytes);
    Move(s.reg, Fail(s.reg, i, outcome), s.callers, c, p, i);
  }

  lemma SettleKeeps(cfg: Config, s: Sys, c: nat, ending: Ending)
    requires Inv(cfg, s) && c in s.callers && s.callers[c].Leading?
    ensures Inv(cfg, Settle(cfg, s, c, ending))
  {
    match ending
    case Ok(body) => WonKeeps(cfg, s, c, body);
    case Error(exc) => LostKeeps(cfg, s, c, Envelope(exc), Raised(s.callers[c].i, exc));
    case Interrupted => LostKeeps(cfg, s, c, Cancelled, Aborted);
  }

  lemma LeaveKeeps(cfg: Config, s: Sys, c: nat, p: Phase)
    requires Inv(cfg, s) && c in s.callers && Ref(s.callers[c]).Some? && !s.callers[c].Leading?
    requires p == Aborted || (s.callers[c].Holding? && p == Released(s.callers[c].i, s.callers[c].body))
    ensures Inv(cfg, Leave(cfg, s, c, p))
  {
    var i := Ref(s.callers[c]).value;
    RefHeld(cfg, s, c, i);
    assert PhaseOk(s.reg.flights, s.callers[c]);
    ReleaseKeeps(s.reg, i, cfg.maxBytes);
    Move(s.reg, ReleaseCaller(s.reg, i), s.callers, c, p, i);
  }

  lemma FireKeeps(cfg: Config, s: Sys, i: nat)
    requires Inv(cfg, s) && i < |s.reg.flights|
    ensures Inv(cfg, s.(reg := ExpireEntry(s.reg, i))) && Quiet(s.reg, ExpireEntry(s.reg, i))
  {
    ExpireKeeps(s.reg, i, cfg.maxBytes);
    QuietCallers(s.reg, ExpireEntry(s.reg, i), s.callers);
  }

  lemma StopKeeps(cfg: Config, s: Sys)
    requires Inv(cfg, s)
    ensures Inv(cfg, s.(reg := Shutdown(s.reg))) && Quiet(s.reg, Shutdown(s.reg)) && Shutdown(s.reg).active == []
  {
    ConvergeAllKeeps(s.reg, s.reg.active, cfg.maxBytes);
    QuietCallers(s.reg, Shutdown(s.reg), s.callers);
  }

  lemma CallKeeps(cfg: Config, s: Sys, e: Event)
    requires Inv(cfg, s) && (e.Call? || e.Finish? || e.Wake?)
    ensures Inv(cfg, Step(cfg, s, e))
  {
    match e
    case Call(c, key, reserve) =>
      if c !in s.callers { EnterKeeps(cfg, s, c, key, reserve); }
    case Finish(c, ending) =>
      if c in s.callers && s.callers[c].Leading? { SettleKeeps(cfg, s, c, ending); }
    case Wake(c) =>
      if c in s.callers && s.callers[c].Waiting? { ResumeKeeps(cfg, s, c); }
  }

  lemma DepartureKeeps(cfg: Config, s: Sys, e: Event)
    requires Inv(cfg, s) && (e.CancelWaiter? || e.Release?)
    ensures Inv(cfg, Step(cfg, s, e))
  {
    match e
    case CancelWaiter(c) =>
      if c in s.callers && s.callers[c].Waiting? { LeaveKeeps(cfg, s, c, Aborted); }
    case Release(c) =>
      if c in s.callers && s.callers[c].Holding? {
        LeaveKeeps(cfg, s, c, Released(s.callers[c].i, s.callers[c].body));
      }
  }

  lemma FireKeepsStep(cfg: Config, s: Sys, i: nat)
    requires Inv(cfg, s)
    ensures Inv(cfg, Step(cfg, s, Fire(i)))
  {
    if i < |s.reg.flights| {
      FireKeeps(cfg, s, i);
    }
  }

  lemma StopKeepsStep(cfg: Config, s: Sys)
    requires Inv(cfg, s)
    ensures Inv(cfg, Step(cfg, s, Stop))
  {
    StopKeeps(cfg, s);
  }

  lemma StepKeeps(cfg: Config, s: Sys, e: Event)
    requires Inv(cfg, s)
    ensures Inv(cfg, Step(cfg, s, e))
  {
    if e.Call? || e.Finish? || e.Wake? {
      CallKeeps(cfg, s, e);
    } else if e.CancelWaiter? || e.Release? {
      DepartureKeeps(cfg, s, e);
    } else if e.Fire? {
      FireKeepsStep(cfg, s, e.i);
    } else if e.Stop? {
      StopKeepsStep(cfg, s);
    }
  }

  // ---- all runs ------------------------------------------------------------------------

  /** The state after any list of events; an event that does not apply changes nothing. */
  ghost function Run(cfg: Config, events: seq<Event>): (s: Sys)
    ensures Inv(cfg, s)
    decreases |events|
  {
    if events == [] then Sys(EMPTY_REGISTRY, map[], 0)
    else
      var n := |events| - 1;
      StepKeeps(cfg, Run(cfg, events[..n]), events[n]);
      Step(cfg, Run(cfg, events[..n]), events[n])
  }

  /** Reserves of the flights listed in a layer that have not failed, whatever their flag says. */
  ghost function Counted(r: Registry, n: nat): nat
    requires n <= |r.flights|
  {
    if n == 0 then 0
    else
      var i := n - 1;
      Counted(r, i)
      + (if (i in r.active || i in r.retired) && r.flights[i].state != Failed then r.flights[i].reserve else 0)
  }

  lemma {:induction false} CountedIsLedger(r: Registry, n: nat, maxBytes: nat)
    requires Wf(r, maxBytes) && n <= |r.flights|
    ensures Counted(r, n) == Ledger(r.flights[..n])
  {
    if n > 0 {
      CountedIsLedger(r, n - 1, maxBytes);
      assert r.flights[..n][..n - 1] == r.flights[..n - 1];
      assert FlightOk(r.flights[n - 1], n - 1 in r.active, n - 1 in r.retired);
    }
  }

  /** The budget counter is the sum over in-flight (detached or not), grace and retained flights, within the cap. */
  lemma LedgerLaw(cfg: Config, events: seq<Event>)
    ensures var r := Run(cfg, events).reg;
            r.leased == Counted(r, |r.flights|) <= cfg.maxBytes
  {
    var r := Run(cfg, events).reg;
    CountedIsLedger(r, |r.flights|, cfg.maxBytes);
    assert r.flights[..|r.flights|] == r.flights;
  }

  lemma {:induction false} NothingCounts(fs: seq<Flight>)
    requires forall i :: 0 <= i < |fs| ==> !fs[i].accounted
    ensures Ledger(fs) == 0
  {
    if fs != [] {
      NothingCounts(fs[..|fs| - 1]);
    }
  }

  ghost predicate Unused(s: Sys) {
    && (forall c :: c in s.callers ==> Ref(s.callers[c]) == None)
    && (forall k :: 0 <= k < |s.reg.active| && s.reg.active[k] < |s.reg.flights| ==>
          s.reg.flights[s.reg.active[k]].state != Grace)
  }

  lemma UnusedFlight(cfg: Config, s: Sys, i: nat)
    requires Inv(cfg, s) && Unused(s) && i < |s.reg.flights|
    ensures i !in s.reg.active && i !in s.reg.retired && !s.reg.flights[i].accounted
  {
    assert FlightOk(s.reg.flights[i], i in s.reg.active, i in s.reg.retired);
    assert Refs(s.callers, i) == {};
    assert !Led(s.callers, i);
  }

  /** Without callers and without grace flights nothing is left, not even a byte. */
  lemma Quiescence(cfg: Config, events: seq<Event>)
    requires Unused(Run(cfg, events))
    ensures var r := Run(cfg, events).reg; r.leased == 0 && r.active == [] && r.retired == {}
  {
    UnusedState(cfg, Run(cfg, events));
  }

  lemma UnusedState(cfg: Config, s: Sys)
    requires Inv(cfg, s) && Unused(s)
    ensures s.reg.leased == 0 && s.reg.active == [] && s.reg.retired == {}
  {
    var r := s.reg;
    forall i | 0 <= i < |r.flights| ensures i !in r.active && i !in r.retired && !r.flights[i].accounted {
      UnusedFlight(cfg, s, i);
    }
    NothingCounts(r.flights);
    EmptyOrMember(r.active);
  }

  /** At most one non-detached running flight per key, and every running flight has its leader. */
  lemma OneFlightPerKey(cfg: Config, events: seq<Event>, i: nat, j: nat)
    requires var fs := Run(cfg, events).reg.flights;
             && i < |fs| && j < |fs| && fs[i].key == fs[j].key
             && fs[i].state == InFlight && fs[i].layer == Active
             && fs[j].state == InFlight && fs[j].layer == Active
    ensures i == j && Led(Run(cfg, events).callers, i)
  {
    var r := Run(cfg, events).reg;
    assert FlightOk(r.flights[i], i in r.active, i in r.retired);
    assert FlightOk(r.flights[j], j in r.active, j in r.retired);
  }

  /** The flight a call ended on, with what the call obtained from it. */
  function Outcome(p: Phase): Option<(nat, Future)> {
    match p
    case Holding(i, body) => Some((i, Result(body)))
    case Released(i, body) => Some((i, Result(body)))
    case Raised(i, exc) => Some((i, Envelope(exc)))
    case _ => None
  }

  /** All calls served by one flight obtained the same thing: the same body or the same exception. */
  lemma SharedOutcome(cfg: Config, events: seq<Event>, c: nat, d: nat)
    requires var callers := Run(cfg, events).callers;
             && c in callers && d in callers
             && Outcome(callers[c]).Some? && Outcome(callers[d]).Some?
             && Outcome(callers[c]).value.0 == Outcome(callers[d]).value.0
    ensures var s := Run(cfg, events);
            && Outcome(s.callers[c]) == Outcome(s.callers[d])
            && Outcome(s.callers[c]).value.1 == s.reg.flights[Outcome(s.callers[c]).value.0].future
  {
    var s := Run(cfg, events);
    assert PhaseOk(s.reg.flights, s.callers[c]);
    assert PhaseOk(s.reg.flights, s.callers[d]);
  }

  // ---- what one event may change ---------------------------------------------------------

  /** Futures are written once, a reserve never changes, and a refunded flight never counts again. */
  ghost predicate Evolves(fs: seq<Flight>, gs: seq<Flight>) {
    |fs| <= |gs| && forall i :: 0 <= i < |fs| ==> EvolvesAt(fs[i], gs[i])
  }

  ghost predicate EvolvesAt(f: Flight, g: Flight) {
    && g.key == f.key && g.reserve == f.reserve
    && (!f.future.Pending? ==> g.future == f.future)
    && (g.accounted ==> f.accounted)
  }

  lemma EnterEvolves(cfg: Config, s: Sys, c: nat, key: Key, reserve: nat)
    requires Wf(s.reg, cfg.maxBytes)
    ensures var s' := Enter(cfg, s, c, key, reserve);
            && Evolves(s.reg.flights, s'.reg.flights)
            && (forall i :: 0 <= i < |s.reg.flights| ==> s'.reg.flights[i].future == s.reg.flights[i].future)
            && (forall d :: d != c && d in s.callers ==> d in s'.callers && s'.callers[d] == s.callers[d])
  {
    DueKeeps(s.reg, key, s.now, cfg.maxBytes);
    var r := ExpireIfDue(s.reg, key, s.now);
    Admission(r, reserve, cfg.maxBytes);
    var (ok, r1) := TryReserve(r, reserve, cfg.maxBytes);
    QuietTransitive(s.reg, r, r1);
    QuietEvolves(s.reg, r);
    QuietEvolves(s.reg, r1);
  }

  /** The only event that can change flight `i`'s future is the end of `i`'s own leader, and it publishes that end. */
  ghost predicate LeaderWrites(s: Sys, e: Event, s': Sys, i: nat) {
    i < |s.reg.flights| && i < |s'.reg.flights| && s'.reg.flights[i].future != s.reg.flights[i].future ==>
      && e.Finish? && e.c in s.callers && s.callers[e.c] == Leading(i)
      && s'.reg.flights[i].future == Published(e.ending)
  }

  lemma CallEvolves(cfg: Config, s: Sys, e: Event)
    requires Inv(cfg, s) && (e.Call? || e.Finish? || e.Wake?)
    ensures var s' := Step(cfg, s, e);
            Evolves(s.reg.flights, s'.reg.flights) && forall i :: 0 <= i < |s.reg.flights| ==> LeaderWrites(s, e, s', i)
  {
    match e
    case Call(c, key, reserve) =>
      if c !in s.callers { EnterEvolves(cfg, s, c, key, reserve); }
    case Finish(c, ending) =>
      if c in s.callers && s.callers[c].Leading? { SettleEvolves(cfg, s, c, ending); }
    case Wake(c) =>
      if c in s.callers && s.callers[c].Waiting? { ResumeEvolves(cfg, s, c); }
  }

  lemma DepartureEvolves(cfg: Config, s: Sys, e: Event)
    requires Inv(cfg, s) && (e.CancelWaiter? || e.Release?)
    ensures var s' := Step(cfg, s, e);
            Evolves(s.reg.flights, s'.reg.flights) && forall i :: 0 <= i < |s.reg.flights| ==> LeaderWrites(s, e, s', i)
  {
    match e
    case CancelWaiter(c) =>
      if c in s.callers && s.callers[c].Waiting? { LeaveEvolves(cfg, s, c, Aborted); }
    case Release(c) =>
      if c in s.callers && s.callers[c].Holding? {
        LeaveEvolves(cfg, s, c, Released(s.callers[c].i, s.callers[c].body));
      }
  }

  lemma FireEvolvesStep(cfg: Config, s: Sys, i: nat)
    requires Inv(cfg, s)
    ensures var s' := Step(cfg, s, Fire(i));
            Evolves(s.reg.flights, s'.reg.flights) && forall j :: 0 <= j < |s.reg.flights| ==> LeaderWrites(s, Fire(i), s', j)
  {
    if i < |s.reg.flights| {
      FireKeeps(cfg, s, i);
      QuietEvolves(s.reg, ExpireEntry(s.reg, i));
    }
  }

  lemma StopEvolvesStep(cfg: Config, s: Sys)
    requires Inv(cfg, s)
    ensures var s' := Step(cfg, s, Stop);
            Evolves(s.reg.flights, s'.reg.flights) && forall j :: 0 <= j < |s.reg.flights| ==> LeaderWrites(s, Stop, s', j)
  {
    StopKeeps(cfg, s);
    QuietEvolves(s.reg, Shutdown(s.reg));
  }

  lemma StepEvolves(cfg: Config, s: Sys, e: Event)
    requires Inv(cfg, s)
    ensures var s' := Step(cfg, s, e);
            Evolves(s.reg.flights, s'.reg.flights) && forall i :: 0 <= i < |s.reg.flights| ==> LeaderWrites(s, e, s', i)
  {
    if e.Call? || e.Finish? || e.Wake? {
      CallEvolves(cfg, s, e);
    } else if e.CancelWaiter? || e.Release? {
      DepartureEvolves(cfg, s, e);
    } else if e.Fire? {
      FireEvolvesStep(cfg, s, e.i);
    } else if e.Stop? {
      StopEvolvesStep(cfg, s);
    }
  }

  lemma QuietEvolves(r: Registry, r': Registry)
    requires Quiet(r, r')
    ensures Evolves(r.flights, r'.flights)
    ensures forall i :: 0 <= i < |r.flights| ==> r'.flights[i].future == r.flights[i].future
  {
    forall i | 0 <= i < |r.flights|
      ensures EvolvesAt(r.flights[i], r'.flights[i]) && r'.flights[i].future == r.flights[i].future
    {
      assert QuietAt(r.flights[i], r'.flights[i]);
    }
  }

  lemma SettleAt(cfg: Config, s: Sys, c: nat, ending: Ending)
    requires Inv(cfg, s) && c in s.callers && s.callers[c].Leading?
    ensures var i, r' := s.callers[c].i, Settle(cfg, s, c, ending).reg;
            && OnlyAt(s.reg, r', i) && r'.flights[i].future == Published(ending)
            && s.reg.flights[i].accounted && s.reg.flights[i].future.Pending?
  {
    var i := s.callers[c].i;
    RefHeld(cfg, s, c, i);
    assert PhaseOk(s.reg.flights, s.callers[c]);
    assert FlightOk(s.reg.flights[i], i in s.reg.active, i in s.reg.retired);
    match ending
    case Ok(body) => SucceedKeeps(s.reg, i, body, s.now + cfg.grace, cfg.maxBytes);
    case Error(exc) => FailKeeps(s.reg, i, Envelope(exc), cfg.maxBytes);
    case Interrupted => FailKeeps(s.reg, i, Cancelled, cfg.maxBytes);
  }

  lemma SettleEvolves(cfg: Config, s: Sys, c: nat, ending: Ending)
    requires Inv(cfg, s) && c in s.callers && s.callers[c].Leading?
    ensures var s' := Settle(cfg, s, c, ending);
            && Evolves(s.reg.flights, s'.reg.flights)
            && (forall i :: 0 <= i < |s.reg.flights| ==> LeaderWrites(s, Finish(c, ending), s', i))
  {
    SettleAt(cfg, s, c, ending);
  }

  lemma LeaveEvolves(cfg: Config, s: Sys, c: nat, p: Phase)
    requires Inv(cfg, s) && c in s.callers && Ref(s.callers[c]).Some?
    ensures var s' := Leave(cfg, s, c, p);
            && Evolves(s.reg.flights, s'.reg.flights) && s'.reg.active == s.reg.active
            && (forall i :: 0 <= i < |s.reg.flights| ==> s'.reg.flights[i].future == s.reg.flights[i].future)
  {
    var i := Ref(s.callers[c]).value;
    RefHeld(cfg, s, c, i);
    ReleaseKeeps(s.reg, i, cfg.maxBytes);
  }

  /** Giving up one's reference writes no future. */
  lemma ReleasedEvolves(cfg: Config, s: Sys, c: nat, i: nat)
    requires Inv(cfg, s) && c in s.callers && Ref(s.callers[c]) == Some(i)
    ensures i < |s.reg.flights| && Wf(ReleaseCaller(s.reg, i), cfg.maxBytes)
    ensures Evolves(s.reg.flights, ReleaseCaller(s.reg, i).flights)
    ensures |ReleaseCaller(s.reg, i).flights| == |s.reg.flights|
    ensures forall j :: 0 <= j < |s.reg.flights| ==> ReleaseCaller(s.reg, i).flights[j].future == s.reg.flights[j].future
  {
    RefHeld(cfg, s, c, i);
    ReleaseKeeps(s.reg, i, cfg.maxBytes);
  }

  lemma ReenterEvolves(cfg: Config, s: Sys, s1: Sys, c: nat, key: Key, reserve: nat)
    requires Wf(s1.reg, cfg.maxBytes) && Evolves(s.reg.flights, s1.reg.flights)
    requires forall j :: 0 <= j < |s.reg.flights| ==> s1.reg.flights[j].future == s.reg.flights[j].future
    ensures var s' := Enter(cfg, s1, c, key, reserve);
            && Evolves(s.reg.flights, s'.reg.flights)
            && (forall i :: 0 <= i < |s.reg.flights| ==> s'.reg.flights[i].future == s.reg.flights[i].future)
  {
    EnterEvolves(cfg, s1, c, key, reserve);
    EvolvesTransitive(s.reg.flights, s1.reg.flights, Enter(cfg, s1, c, key, reserve).reg.flights);
  }

  lemma ResumeEvolves(cfg: Config, s: Sys, c: nat)
    requires Inv(cfg, s) && c in s.callers && s.callers[c].Waiting?
    ensures var s' := Resume(cfg, s, c);
            && Evolves(s.reg.flights, s'.reg.flights)
            && (forall i :: 0 <= i < |s.reg.flights| ==> s'.reg.flights[i].future == s.reg.flights[i].future)
  {
    var Waiting(i, key, reserve) := s.callers[c];
    ReleasedEvolves(cfg, s, c, i);
    if s.reg.flights[i].future.Cancelled? {
      ReenterEvolves(cfg, s, s.(reg := ReleaseCaller(s.reg, i), callers := s.callers[c := Aborted]), c, key, reserve);
    }
  }

  lemma EvolvesTransitive(a: seq<Flight>, b: seq<Flight>, c: seq<Flight>)
    requires Evolves(a, b) && Evolves(b, c)
    ensures Evolves(a, c)
  {
    forall i | 0 <= i < |a| ensures EvolvesAt(a[i], c[i]) {
      assert EvolvesAt(a[i], b[i]) && EvolvesAt(b[i], c[i]);
    }
  }

  /** Bytes of the flights already refunded. */
  function Refunded(fs: seq<Flight>): nat {
    if fs == [] then 0
    else Refunded(fs[..|fs| - 1]) + (if fs[|fs| - 1].accounted then 0 else fs[|fs| - 1].reserve)
  }

  function Admitted(fs: seq<Flight>): nat {
    if fs == [] then 0 else Admitted(fs[..|fs| - 1]) + fs[|fs| - 1].reserve
  }

  lemma {:induction false} Split(fs: seq<Flight>)
    ensures Admitted(fs) == Ledger(fs) + Refunded(fs)
  {
    if fs != [] {
      Split(fs[..|fs| - 1]);
    }
  }

  lemma {:induction false} RunEvolves(cfg: Config, events: seq<Event>, n: nat)
    requires n <= |events|
    ensures Evolves(Run(cfg, events[..n]).reg.flights, Run(cfg, events).reg.flights)
    decreases |events| - n
  {
    if n == |events| {
      assert events[..n] == events;
    } else {
      assert events[..n + 1][..n] == events[..n];
      StepEvolves(cfg, Run(cfg, events[..n]), events[n]);
      RunEvolves(cfg, events, n + 1);
      EvolvesTransitive(Run(cfg, events[..n]).reg.flights, Run(cfg, events[..n + 1]).reg.flights,
                        Run(cfg, events).reg.flights);
    }
  }

  /**
   * Every reservation ever made is either still counted or was refunded once: the
   * bytes refunded are exactly the reserves of the flights that stopped counting,
   * and a flight refunded by event `n` stays refunded for the rest of the run.
   */
  lemma RefundedOnce(cfg: Config, events: seq<Event>, n: nat)
    requires n <= |events|
    ensures var r0, r := Run(cfg, events[..n]).reg, Run(cfg, events).reg;
            && r.leased == Admitted(r.flights) - Refunded(r.flights)
            && |r0.flights| <= |r.flights|
            && (forall i :: 0 <= i < |r0.flights| && !r0.flights[i].accounted ==>
                  !r.flights[i].accounted && r.flights[i].reserve == r0.flights[i].reserve)
  {
    var r0, r := Run(cfg, events[..n]).reg, Run(cfg, events).reg;
    RunEvolves(cfg, events, n);
    Split(r.flights);
    forall i | 0 <= i < |r0.flights| ensures EvolvesAt(r0.flights[i], r.flights[i]) { }
  }

  /** What a wake-up hands to a waiter on flight `i`: exactly what the flight's future holds. */
  function Delivered(p: Phase, future: Future): Phase
    requires p.Waiting?
  {
    match future
    case Result(body) => Holding(p.i, body)
    case Envelope(exc) => Raised(p.i, exc)
    case _ => p
  }

  lemma WakeDelivers(cfg: Config, s: Sys, d: nat)
    requires Inv(cfg, s) && d in s.callers && s.callers[d].Waiting?
    ensures s.callers[d].i < |s.reg.flights|
    ensures var future := s.reg.flights[s.callers[d].i].future;
            !future.Cancelled? ==>
              d in Resume(cfg, s, d).callers && Resume(cfg, s, d).callers[d] == Delivered(s.callers[d], future)
  {
    RefHeld(cfg, s, d, s.callers[d].i);
  }

  /** A cancelled waiter disturbs nobody: no other call, future, registration or wake-up changes. */
  lemma CancelledWaiterIsSilent(cfg: Config, s: Sys, c: nat)
    requires Inv(cfg, s) && c in s.callers && s.callers[c].Waiting?
    ensures var s' := Leave(cfg, s, c, Aborted);
            && Step(cfg, s, CancelWaiter(c)) == s'
            && Inv(cfg, s') && s'.callers == s.callers[c := Aborted] && s'.reg.active == s.reg.active
            && (forall i :: 0 <= i < |s.reg.flights| ==> s'.reg.flights[i].future == s.reg.flights[i].future)
  {
    LeaveKeeps(cfg, s, c, Aborted);
    LeaveEvolves(cfg, s, c, Aborted);
  }

  /**
   * A waiter whose leader was cancelled re-enters with that flight's bytes already refunded,
   * whatever has happened to its key meanwhile. With `r` the registry once its own reference
   * is gone and a due grace flight has expired: if a flight holds the key it joins that one
   * with one more reference and no new reserve; else it leads a new flight at once if its
   * reserve fits what is free or idle, and bypasses if not.
   */
  lemma RejoinAfterLeaderCancel(cfg: Config, s: Sys, c: nat)
    requires Inv(cfg, s) && c in s.callers && s.callers[c].Waiting?
    requires s.reg.flights[s.callers[c].i].future == Cancelled
    ensures !s.reg.flights[s.callers[c].i].accounted && s.callers[c].i !in s.reg.active
    ensures var Waiting(i, key, reserve) := s.callers[c];
            Bounded(ReleaseCaller(s.reg, i)) &&
            var r, s' := ExpireIfDue(ReleaseCaller(s.reg, i), key, s.now), Step(cfg, s, Wake(c));
            Bounded(r) &&
            var hit := Find(r.flights, r.active, key);
            if hit.Some? then s'.callers[c] == Waiting(hit.value, key, reserve) && s'.reg == AddRef(r, hit.value)
            else
              s'.callers[c] == if r.leased - IdleBytes(r.flights, r.active) + reserve <= cfg.maxBytes
                               then Leading(|r.flights|) else Bypassed
  {
    var Waiting(i, key, reserve) := s.callers[c];
    RefHeld(cfg, s, c, i);
    assert FlightOk(s.reg.flights[i], i in s.reg.active, i in s.reg.retired);
    ReleaseKeeps(s.reg, i, cfg.maxBytes);
    DueKeeps(ReleaseCaller(s.reg, i), key, s.now, cfg.maxBytes);
    Admission(ExpireIfDue(ReleaseCaller(s.reg, i), key, s.now), reserve, cfg.maxBytes);
  }

  /** If nothing took the key, what is free or idle can be read off the registry as it was before the wake-up. */
  lemma RejoinOnFreeKey(cfg: Config, s: Sys, c: nat)
    requires Inv(cfg, s) && c in s.callers && s.callers[c].Waiting?
    requires s.reg.flights[s.callers[c].i].future == Cancelled
    requires Find(s.reg.flights, s.reg.active, s.callers[c].key) == None
    ensures var p := Step(cfg, s, Wake(c)).callers[c];
            var fits := s.reg.leased - IdleBytes(s.reg.flights, s.reg.active) + s.callers[c].reserve <= cfg.maxBytes;
            p == if fits then Leading(|s.reg.flights|) else Bypassed
  {
    var Waiting(i, key, reserve) := s.callers[c];
    RefHeld(cfg, s, c, i);
    assert FlightOk(s.reg.flights[i], i in s.reg.active, i in s.reg.retired);
    ReleaseKeeps(s.reg, i, cfg.maxBytes);
    var r := ReleaseCaller(s.reg, i);
    assert r.leased == s.reg.leased;
    IdleBytesFrame(s.reg.flights, i, r.flights[i], s.reg.active);
    FindFrame(s.reg.flights, i, r.flights[i], s.reg.active, key);
    Admission(r, reserve, cfg.maxBytes);
  }

  // ---- giving back ------------------------------------------------------------------------------

  /**
   * Releasing a lease gives up one reference and nothing else, unless it was the last one on a
   * flight already out of the registry: then the flight is gone and its bytes are back.
   */
  lemma ReleaseGivesBack(cfg: Config, s: Sys, c: nat)
    requires Inv(cfg, s) && c in s.callers && s.callers[c].Holding?
    ensures s.callers[c].i < |s.reg.flights|
    ensures var Holding(i, body) := s.callers[c];
            var s', f := Step(cfg, s, Release(c)), s.reg.flights[i];
            && s'.callers == s.callers[c := Released(i, body)] && s'.reg.active == s.reg.active
            && |s'.reg.flights| == |s.reg.flights| && s'.reg.flights[i].refs == f.refs - 1
            && (if f.refs == 1 && i in s.reg.retired
                then s'.reg.leased == s.reg.leased - f.reserve && i !in s'.reg.retired
                else s'.reg.leased == s.reg.leased && s'.reg.retired == s.reg.retired)
  {
    var i := s.callers[c].i;
    RefHeld(cfg, s, c, i);
    assert PhaseOk(s.reg.flights, s.callers[c]);
    assert FlightOk(s.reg.flights[i], i in s.reg.active, i in s.reg.retired);
    ReleaseKeeps(s.reg, i, cfg.maxBytes);
    if s.reg.flights[i].refs == 1 && i in s.reg.retired {
      ReapEffect(Edit(s.reg, i, s.reg.flights[i].(refs := 0)), i);
    }
  }

  /** A timer that fires takes its flight, if it is in its grace window, out of the registry, and its bytes are back if nobody holds it. */
  lemma FireExpires(cfg: Config, s: Sys, i: nat)
    requires Inv(cfg, s) && i < |s.reg.flights| && s.reg.flights[i].state == Grace
    ensures var r' := Step(cfg, s, Fire(i)).reg;
            && i !in r'.active
            && r'.leased == s.reg.leased - (if s.reg.flights[i].refs == 0 then s.reg.flights[i].reserve else 0)
            && (forall j :: j != i ==> (j in r'.active <==> j in s.reg.active))
  {
    assert FlightOk(s.reg.flights[i], i in s.reg.active, i in s.reg.retired);
    EntryLeaves(s.reg, i, cfg.maxBytes);
  }

  lemma EntryLeaves(r: Registry, i: nat, maxBytes: nat)
    requires Wf(r, maxBytes) && i < |r.flights| && r.flights[i].state == Grace
    ensures ExpireEntry(r, i).leased == r.leased - (if r.flights[i].refs == 0 then r.flights[i].reserve else 0)
    ensures i !in ExpireEntry(r, i).active && forall j :: j != i ==> (j in ExpireEntry(r, i).active <==> j in r.active)
  {
    assert FlightOk(r.flights[i], i in r.active, i in r.retired);
    assert Find(r.flights, r.active, r.flights[i].key) == Some(i);
    ExpireKeeps(r, i, maxBytes);
    GraceLeaves(r, i);
  }

  /** A timer of any other flight does nothing. */
  lemma FireElsewhere(cfg: Config, s: Sys, i: nat)
    requires Inv(cfg, s) && (i < |s.reg.flights| ==> s.reg.flights[i].state != Grace)
    ensures Step(cfg, s, Fire(i)) == s
  {
    if i < |s.reg.flights| {
      assert FlightOk(s.reg.flights[i], i in s.reg.active, i in s.reg.retired);
    }
  }

  lemma {:induction false} ConvergeAllFrees(r: Registry, ids: seq<nat>, maxBytes: nat)
    requires Wf(r, maxBytes) && Distinct(ids) && Below(ids, |r.flights|)
    requires forall j :: j in ids <==> j in r.active
    ensures ConvergeAll(r, ids).leased == r.leased - IdleBytes(r.flights, ids)
    decreases |ids|
  {
    if ids != [] {
      var i := ids[0];
      ConvergeKeeps(r, i, maxBytes);
      ConvergeFrees(r, i, maxBytes);
      var r1 := Converge(r, i);
      forall j ensures j in ids[1..] <==> j in r1.active {
        assert j in ids <==> j == i || j in ids[1..];
      }
      assert i !in ids[1..];
      IdleBytesFrame(r.flights, i, r1.flights[i], ids[1..]);
      ConvergeAllFrees(r1, ids[1..], maxBytes);
    }
  }

  lemma ConvergeFrees(r: Registry, i: nat, maxBytes: nat)
    requires Wf(r, maxBytes) && i in r.active
    ensures Converge(r, i).leased == r.leased - (if Idle(r.flights[i]) then r.flights[i].reserve else 0)
  {
    assert FlightOk(r.flights[i], i in r.active, i in r.retired);
  }

  /** A shutdown empties the registry, keeps every future and every caller, and gives back exactly the bytes of the idle grace flights. */
  lemma StopEmpties(cfg: Config, s: Sys)
    requires Inv(cfg, s)
    ensures var s' := Step(cfg, s, Stop);
            && s'.reg.active == [] && s'.callers == s.callers
            && |s'.reg.flights| == |s.reg.flights|
            && (forall i :: 0 <= i < |s.reg.flights| ==> s'.reg.flights[i].future == s.reg.flights[i].future)
            && s'.reg.leased == s.reg.leased - IdleBytes(s.reg.flights, s.reg.active)
  {
    ShutdownEmpties(s.reg, cfg.maxBytes);
  }

  lemma ShutdownEmpties(r: Registry, maxBytes: nat)
    requires Wf(r, maxBytes)
    ensures Shutdown(r).active == [] && |Shutdown(r).flights| == |r.flights|
    ensures forall i :: 0 <= i < |r.flights| ==> Shutdown(r).flights[i].future == r.flights[i].future
    ensures Shutdown(r).leased == r.leased - IdleBytes(r.flights, r.active)
  {
    ConvergeAllKeeps(r, r.active, maxBytes);
    QuietEvolves(r, Shutdown(r));
    ConvergeAllFrees(r, r.active, maxBytes);
  }

  // ---- where every outcome comes from -------------------------------------------------------

  /** Whatever an event adds is still running. */
  ghost predicate NewcomersRun(fs: seq<Flight>, gs: seq<Flight>) {
    |fs| <= |gs| && forall i :: |fs| <= i < |gs| ==> gs[i].future.Pending?
  }

  lemma EnterNewcomers(cfg: Config, s: Sys, c: nat, key: Key, reserve: nat)
    requires Wf(s.reg, cfg.maxBytes)
    ensures NewcomersRun(s.reg.flights, Enter(cfg, s, c, key, reserve).reg.flights)
  {
    DueKeeps(s.reg, key, s.now, cfg.maxBytes);
    Admission(ExpireIfDue(s.reg, key, s.now), reserve, cfg.maxBytes);
  }

  lemma CallNewcomers(cfg: Config, s: Sys, e: Event)
    requires Inv(cfg, s) && (e.Call? || e.Finish? || e.Wake?)
    ensures NewcomersRun(s.reg.flights, Step(cfg, s, e).reg.flights)
  {
    match e
    case Call(c, key, reserve) =>
      if c !in s.callers { EnterNewcomers(cfg, s, c, key, reserve); }
    case Finish(c, ending) =>
      if c in s.callers && s.callers[c].Leading? { SettleAt(cfg, s, c, ending); }
    case Wake(c) =>
      if c in s.callers && s.callers[c].Waiting? { ResumeNewcomers(cfg, s, c); }
  }

  lemma DepartureNewcomers(cfg: Config, s: Sys, e: Event)
    requires Inv(cfg, s) && (e.CancelWaiter? || e.Release?)
    ensures NewcomersRun(s.reg.flights, Step(cfg, s, e).reg.flights)
  {
    match e
    case CancelWaiter(c) =>
      if c in s.callers && s.callers[c].Waiting? { LeaveNewcomers(cfg, s, c, Aborted); }
    case Release(c) =>
      if c in s.callers && s.callers[c].Holding? {
        LeaveNewcomers(cfg, s, c, Released(s.callers[c].i, s.callers[c].body));
      }
  }

  lemma FireNewcomersStep(cfg: Config, s: Sys, i: nat)
    requires Inv(cfg, s)
    ensures NewcomersRun(s.reg.flights, Step(cfg, s, Fire(i)).reg.flights)
  {
    if i < |s.reg.flights| {
      FireKeeps(cfg, s, i);
    }
  }

  lemma StopNewcomersStep(cfg: Config, s: Sys)
    requires Inv(cfg, s)
    ensures NewcomersRun(s.reg.flights, Step(cfg, s, Stop).reg.flights)
  {
    StopKeeps(cfg, s);
  }

  lemma StepNewcomers(cfg: Config, s: Sys, e: Event)
    requires Inv(cfg, s)
    ensures NewcomersRun(s.reg.flights, Step(cfg, s, e).reg.flights)
  {
    if e.Call? || e.Finish? || e.Wake? {
      CallNewcomers(cfg, s, e);
    } else if e.CancelWaiter? || e.Release? {
      DepartureNewcomers(cfg, s, e);
    } else if e.Fire? {
      FireNewcomersStep(cfg, s, e.i);
    } else if e.Stop? {
      StopNewcomersStep(cfg, s);
    }
  }

  lemma LeaveNewcomers(cfg: Config, s: Sys, c: nat, p: Phase)
    requires Inv(cfg, s) && c in s.callers && Ref(s.callers[c]).Some?
    ensures NewcomersRun(s.reg.flights, Leave(cfg, s, c, p).reg.flights)
  {
    var i := Ref(s.callers[c]).value;
    RefHeld(cfg, s, c, i);
    ReleaseKeeps(s.reg, i, cfg.maxBytes);
  }

  lemma ResumeNewcomers(cfg: Config, s: Sys, c: nat)
    requires Inv(cfg, s) && c in s.callers && s.callers[c].Waiting?
    ensures NewcomersRun(s.reg.flights, Resume(cfg, s, c).reg.flights)
  {
    var Waiting(i, key, reserve) := s.callers[c];
    ReleasedEvolves(cfg, s, c, i);
    var s1 := s.(reg := ReleaseCaller(s.reg, i), callers := s.callers[c := Aborted]);
    if s.reg.flights[i].future.Cancelled? {
      EnterNewcomers(cfg, s1, c, key, reserve);
    }
  }

  /** Event `n` of the run is the end of flight `i`'s own leader, with this outcome. */
  ghost predicate LeaderEnds(cfg: Config, events: seq<Event>, n: nat, i: nat, outcome: Future) {
    && n < |events| && events[n].Finish?
    && var callers := Run(cfg, events[..n]).callers;
    && events[n].c in callers && callers[events[n].c] == Leading(i) && outcome == Published(events[n].ending)
  }

  lemma FutureStep(cfg: Config, s: Sys, e: Event, i: nat)
    requires Inv(cfg, s) && i < |Step(cfg, s, e).reg.flights| && !Step(cfg, s, e).reg.flights[i].future.Pending?
    ensures i < |s.reg.flights| && LeaderWrites(s, e, Step(cfg, s, e), i)
    ensures !s.reg.flights[i].future.Pending? ==> Step(cfg, s, e).reg.flights[i].future == s.reg.flights[i].future
  {
    StepNewcomers(cfg, s, e);
    StepEvolves(cfg, s, e);
    assert EvolvesAt(s.reg.flights[i], Step(cfg, s, e).reg.flights[i]);
  }

  lemma PrefixStep(cfg: Config, events: seq<Event>, k: nat)
    requires k < |events|
    ensures Run(cfg, events[..k + 1]) == Step(cfg, Run(cfg, events[..k]), events[k])
  {
    assert events[..k + 1][..k] == events[..k];
  }

  /** Every future that is no longer pending was set by the end of its flight's own leader. */
  lemma {:induction false} FutureFromLeader(cfg: Config, events: seq<Event>, k: nat, s: Sys, i: nat) returns (n: nat)
    requires k <= |events| && s == Run(cfg, events[..k]) && i < |s.reg.flights| && !s.reg.flights[i].future.Pending?
    ensures LeaderEnds(cfg, events, n, i, s.reg.flights[i].future)
  {
    assert k > 0 by { assert events[..0] == []; }
    n := k - 1;
    var before := Run(cfg, events[..n]);
    PrefixStep(cfg, events, n);
    FutureStep(cfg, before, events[n], i);
    if !before.reg.flights[i].future.Pending? {
      n := FutureFromLeader(cfg, events, n, before, i);
    }
  }

  /** In every run, whatever a call was served, body or exception, is what its flight's leader ended with, at a Finish event of that run. */
  lemma ServedByLeader(cfg: Config, events: seq<Event>, c: nat) returns (n: nat)
    requires c in Run(cfg, events).callers && Outcome(Run(cfg, events).callers[c]).Some?
    ensures var (i, outcome) := Outcome(Run(cfg, events).callers[c]).value; LeaderEnds(cfg, events, n, i, outcome)
  {
    var s := Run(cfg, events);
    assert PhaseOk(s.reg.flights, s.callers[c]);
    assert events[..|events|] == events;
    n := FutureFromLeader(cfg, events, |events|, s, Outcome(s.callers[c]).value.0);
  }

  // ---- the grace window ----------------------------------------------------------------------

  /** Nothing enters its grace window, and no deadline moves. */
  ghost predicate GraceCarried(fs: seq<Flight>, gs: seq<Flight>) {
    forall i :: 0 <= i < |gs| && gs[i].state == Grace ==> i < |fs| && fs[i].state == Grace && fs[i].expiresAt == gs[i].expiresAt
  }

  lemma QuietGrace(r: Registry, r': Registry)
    requires Quiet(r, r')
    ensures GraceCarried(r.flights, r'.flights)
  {
    forall i | 0 <= i < |r'.flights| && r'.flights[i].state == Grace
      ensures r.flights[i].state == Grace && r.flights[i].expiresAt == r'.flights[i].expiresAt
    {
      assert QuietAt(r.flights[i], r'.flights[i]);
    }
  }

  lemma AdmitGrace(r: Registry, key: Key, reserve: nat, maxBytes: nat)
    requires Wf(r, maxBytes)
    ensures var (ok, r1) := TryReserve(r, reserve, maxBytes);
            GraceCarried(r.flights, r1.flights) && GraceCarried(r.flights, Register(r1, key, reserve).flights)
  {
    Admission(r, reserve, maxBytes);
    QuietGrace(r, TryReserve(r, reserve, maxBytes).1);
  }

  lemma EnterGrace(cfg: Config, s: Sys, c: nat, key: Key, reserve: nat)
    requires Wf(s.reg, cfg.maxBytes)
    ensures GraceCarried(s.reg.flights, Enter(cfg, s, c, key, reserve).reg.flights)
  {
    DueKeeps(s.reg, key, s.now, cfg.maxBytes);
    var r := ExpireIfDue(s.reg, key, s.now);
    QuietGrace(s.reg, r);
    AdmitGrace(r, key, reserve, cfg.maxBytes);
    var hit := Find(r.flights, r.active, key);
    if hit.Some? { assert GraceCarried(r.flights, AddRef(r, hit.value).flights); }
    GraceTransitive(s.reg.flights, r.flights, Enter(cfg, s, c, key, reserve).reg.flights);
  }

  lemma ReleasedGrace(cfg: Config, s: Sys, c: nat, i: nat)
    requires Inv(cfg, s) && c in s.callers && Ref(s.callers[c]) == Some(i)
    ensures i < |s.reg.flights| && Wf(ReleaseCaller(s.reg, i), cfg.maxBytes)
    ensures GraceCarried(s.reg.flights, ReleaseCaller(s.reg, i).flights)
  {
    RefHeld(cfg, s, c, i);
    ReleaseKeeps(s.reg, i, cfg.maxBytes);
  }

  lemma GraceTransitive(fs: seq<Flight>, gs: seq<Flight>, hs: seq<Flight>)
    requires GraceCarried(fs, gs) && GraceCarried(gs, hs)
    ensures GraceCarried(fs, hs)
  {
  }

  lemma ReenterGrace(cfg: Config, fs: seq<Flight>, s1: Sys, c: nat, key: Key, reserve: nat)
    requires Wf(s1.reg, cfg.maxBytes) && GraceCarried(fs, s1.reg.flights)
    ensures GraceCarried(fs, Enter(cfg, s1, c, key, reserve).reg.flights)
  {
    EnterGrace(cfg, s1, c, key, reserve);
    GraceTransitive(fs, s1.reg.flights, Enter(cfg, s1, c, key, reserve).reg.flights);
  }

  lemma ResumeGrace(cfg: Config, s: Sys, c: nat)
    requires Inv(cfg, s) && c in s.callers && s.callers[c].Waiting?
    ensures GraceCarried(s.reg.flights, Resume(cfg, s, c).reg.flights)
  {
    var Waiting(i, key, reserve) := s.callers[c];
    ReleasedGrace(cfg, s, c, i);
    if s.reg.flights[i].future.Cancelled? {
      var s1 := s.(reg := ReleaseCaller(s.reg, i), callers := s.callers[c := Aborted]);
      ReenterGrace(cfg, s.reg.flights, s1, c, key, reserve);
      assert Resume(cfg, s, c) == Enter(cfg, s1, c, key, reserve);
    }
  }

  /** Event `e` ends the leader of flight `i` with a result. */
  predicate Succeeds(s: Sys, e: Event, i: nat) {
    e.Finish? && e.ending.Ok? && e.c in s.callers && s.callers[e.c] == Leading(i)
  }

  lemma SettleGrace(cfg: Config, s: Sys, c: nat, ending: Ending, i: nat)
    requires Inv(cfg, s) && c in s.callers && s.callers[c].Leading?
    requires i < |Settle(cfg, s, c, ending).reg.flights| && Settle(cfg, s, c, ending).reg.flights[i].state == Grace
    ensures i < |s.reg.flights|
    ensures var g := Settle(cfg, s, c, ending).reg.flights[i];
            if Succeeds(s, Finish(c, ending), i) then g.expiresAt == Some(s.now + cfg.grace)
            else s.reg.flights[i].state == Grace && s.reg.flights[i].expiresAt == g.expiresAt
  {
    var j := s.callers[c].i;
    RefHeld(cfg, s, c, j);
    assert PhaseOk(s.reg.flights, s.callers[c]);
    match ending
    case Ok(body) => SucceedKeeps(s.reg, j, body, s.now + cfg.grace, cfg.maxBytes);
    case Error(exc) => FailKeeps(s.reg, j, Envelope(exc), cfg.maxBytes);
    case Interrupted => FailKeeps(s.reg, j, Cancelled, cfg.maxBytes);
  }

  lemma OtherGrace(cfg: Config, s: Sys, e: Event)
    requires Inv(cfg, s) && !e.Finish?
    ensures GraceCarried(s.reg.flights, Step(cfg, s, e).reg.flights)
  {
    if e.Call? {
      if e.c !in s.callers { EnterGrace(cfg, s, e.c, e.key, e.reserve); }
    } else if e.Wake? {
      if e.c in s.callers && s.callers[e.c].Waiting? { ResumeGrace(cfg, s, e.c); }
    } else if e.CancelWaiter? || e.Release? {
      if e.c in s.callers && Ref(s.callers[e.c]).Some? { ReleasedGrace(cfg, s, e.c, Ref(s.callers[e.c]).value); }
    } else if e.Fire? {
      if e.i < |s.reg.flights| {
        FireKeeps(cfg, s, e.i);
        QuietGrace(s.reg, ExpireEntry(s.reg, e.i));
      }
    } else if e.Stop? {
      StopKeeps(cfg, s);
      QuietGrace(s.reg, Shutdown(s.reg));
    }
  }

  /** The time of a run, read off its ticks. */
  ghost function Clock(events: seq<Event>): nat {
    if events == [] then 0
    else Clock(events[..|events| - 1]) + Elapsed(events[|events| - 1])
  }

  /** How far one event moves the clock. */
  function Elapsed(e: Event): nat {
    if e.Tick? then e.d else 0
  }

  lemma EnterNow(cfg: Config, s: Sys, c: nat, key: Key, reserve: nat)
    requires Wf(s.reg, cfg.maxBytes)
    ensures Enter(cfg, s, c, key, reserve).now == s.now
  {
  }

  lemma CallNow(cfg: Config, s: Sys, e: Event)
    requires Inv(cfg, s) && (e.Call? || e.Finish? || e.Wake?)
    ensures Step(cfg, s, e).now == s.now
  {
    match e
    case Call(c, key, reserve) =>
      if c !in s.callers { EnterNow(cfg, s, c, key, reserve); }
    case Finish(c, ending) =>
    case Wake(c) =>
      if c in s.callers && s.callers[c].Waiting? { ResumeNow(cfg, s, c); }
  }

  lemma ResumeNow(cfg: Config, s: Sys, c: nat)
    requires Inv(cfg, s) && c in s.callers && s.callers[c].Waiting?
    ensures Resume(cfg, s, c).now == s.now
  {
    var Waiting(i, key, reserve) := s.callers[c];
    ReleasedGrace(cfg, s, c, i);
    if s.reg.flights[i].future.Cancelled? {
      EnterNow(cfg, s.(reg := ReleaseCaller(s.reg, i), callers := s.callers[c := Aborted]), c, key, reserve);
    }
  }

  lemma StepNow(cfg: Config, s: Sys, e: Event)
    requires Inv(cfg, s)
    ensures Step(cfg, s, e).now == s.now + Elapsed(e)
  {
    if e.Call? || e.Finish? || e.Wake? {
      CallNow(cfg, s, e);
    }
  }

  lemma {:induction false} ClockIsNow(cfg: Config, events: seq<Event>)
    ensures Run(cfg, events).now == Clock(events)
  {
    if events != [] {
      var n := |events| - 1;
      ClockIsNow(cfg, events[..n]);
      StepNow(cfg, Run(cfg, events[..n]), events[n]);
    }
  }

  /** Event `n` of the run is the successful end of flight `i`'s own leader. */
  ghost predicate SucceedsAt(cfg: Config, events: seq<Event>, n: nat, i: nat) {
    n < |events| && Succeeds(Run(cfg, events[..n]), events[n], i)
  }

  /** A flight in its grace window after an event was there before, or its leader's success put it there now. */
  lemma GraceStep(cfg: Config, s: Sys, e: Event, i: nat)
    requires Inv(cfg, s) && i < |Step(cfg, s, e).reg.flights| && Step(cfg, s, e).reg.flights[i].state == Grace
    ensures i < |s.reg.flights|
    ensures var g := Step(cfg, s, e).reg.flights[i];
            if Succeeds(s, e, i) then g.expiresAt == Some(s.now + cfg.grace)
            else s.reg.flights[i].state == Grace && s.reg.flights[i].expiresAt == g.expiresAt
  {
    if !e.Finish? {
      OtherGrace(cfg, s, e);
    } else if e.c in s.callers && s.callers[e.c].Leading? {
      SettleGrace(cfg, s, e.c, e.ending, i);
    }
  }

  /** Flight `i`'s own leader succeeded at event `n`, the grace before `deadline`. */
  ghost predicate DeadlineSet(cfg: Config, events: seq<Event>, n: nat, i: nat, deadline: Option<int>) {
    SucceedsAt(cfg, events, n, i) && deadline.Some? && deadline.value == Clock(events[..n]) + cfg.grace
  }

  /** A flight in its grace window has the deadline that its leader's success set: the grace after it. */
  lemma {:induction false} GraceDeadline(cfg: Config, events: seq<Event>, k: nat, s: Sys, i: nat) returns (n: nat)
    requires k <= |events| && s == Run(cfg, events[..k]) && i < |s.reg.flights| && s.reg.flights[i].state == Grace
    ensures DeadlineSet(cfg, events, n, i, s.reg.flights[i].expiresAt)
  {
    assert k > 0 by { assert events[..0] == []; }
    n := k - 1;
    var before := Run(cfg, events[..n]);
    PrefixStep(cfg, events, n);
    GraceStep(cfg, before, events[n], i);
    if Succeeds(before, events[n], i) {
      ClockIsNow(cfg, events[..n]);
      assert SucceedsAt(cfg, events, n, i);
    } else {
      n := GraceDeadline(cfg, events, n, before, i);
    }
  }

  /** A leader ends once. */
  lemma SucceedsOnce(cfg: Config, events: seq<Event>, n: nat, m: nat, i: nat)
    requires SucceedsAt(cfg, events, n, i) && SucceedsAt(cfg, events, m, i)
    ensures n == m
  {
    if n < m { EndedStays(cfg, events, n, m, i); }
    if m < n { EndedStays(cfg, events, m, n, i); }
  }

  predicate Ended(s: Sys, i: nat) {
    i < |s.reg.flights| && !s.reg.flights[i].future.Pending?
  }

  lemma EndsNow(cfg: Config, s: Sys, e: Event, i: nat)
    requires Inv(cfg, s) && Succeeds(s, e, i)
    ensures !Ended(s, i) && Ended(Step(cfg, s, e), i)
  {
    SettleAt(cfg, s, e.c, e.ending);
  }

  lemma EndedFrom(cfg: Config, events: seq<Event>, k: nat, m: nat, i: nat)
    requires k <= m <= |events| && Ended(Run(cfg, events[..k]), i)
    ensures Ended(Run(cfg, events[..m]), i)
  {
    assert events[..m][..k] == events[..k];
    RunEvolves(cfg, events[..m], k);
    assert EvolvesAt(Run(cfg, events[..k]).reg.flights[i], Run(cfg, events[..m]).reg.flights[i]);
  }

  lemma EndedStays(cfg: Config, events: seq<Event>, n: nat, m: nat, i: nat)
    requires n < m < |events| && SucceedsAt(cfg, events, n, i)
    ensures !SucceedsAt(cfg, events, m, i)
  {
    PrefixStep(cfg, events, n);
    EndsNow(cfg, Run(cfg, events[..n]), events[n], i);
    EndedFrom(cfg, events, n + 1, m, i);
    if SucceedsAt(cfg, events, m, i) {
      EndsNow(cfg, Run(cfg, events[..m]), events[m], i);
    }
  }

  predicate Due(f: Flight, now: int) {
    f.expiresAt.Some? && now >= f.expiresAt.value
  }

  /** What a fetch finds registered is joined unless its grace has run out. */
  lemma JoinsUnlessDue(cfg: Config, s: Sys, c: nat, key: Key, reserve: nat, i: nat)
    requires Inv(cfg, s) && c !in s.callers && Find(s.reg.flights, s.reg.active, key) == Some(i)
    ensures c in Step(cfg, s, Call(c, key, reserve)).callers
    ensures Step(cfg, s, Call(c, key, reserve)).callers[c] == Waiting(i, key, reserve) <==> !Due(s.reg.flights[i], s.now)
  {
    if Due(s.reg.flights[i], s.now) {
      DueLeaves(s.reg, key, s.now, i, cfg.maxBytes);
      EnteredElsewhere(cfg, s, c, key, reserve, i);
    }
  }

  lemma EnteredElsewhere(cfg: Config, s: Sys, c: nat, key: Key, reserve: nat, i: nat)
    requires Wf(s.reg, cfg.maxBytes) && Wf(ExpireIfDue(s.reg, key, s.now), cfg.maxBytes)
    requires i !in ExpireIfDue(s.reg, key, s.now).active
    ensures c in Enter(cfg, s, c, key, reserve).callers
    ensures Enter(cfg, s, c, key, reserve).callers[c] != Waiting(i, key, reserve)
  {
    var r := ExpireIfDue(s.reg, key, s.now);
    var hit := Find(r.flights, r.active, key);
    assert hit != Some(i);
  }

  lemma DueLeaves(r: Registry, key: Key, now: int, i: nat, maxBytes: nat)
    requires Wf(r, maxBytes) && Find(r.flights, r.active, key) == Some(i) && Due(r.flights[i], now)
    ensures Wf(ExpireIfDue(r, key, now), maxBytes) && i !in ExpireIfDue(r, key, now).active
  {
    DueKeeps(r, key, now, maxBytes);
    assert FlightOk(r.flights[i], i in r.active, i in r.retired);
    assert ExpireIfDue(r, key, now) == ExpireGrace(r, i);
    GraceLeaves(r, i);
  }

  lemma GraceLeaves(r: Registry, i: nat)
    requires i < |r.flights| && r.flights[i].state == Grace && r.flights[i].layer == Active
    ensures i !in ExpireGrace(r, i).active
  {
    if r.flights[i].refs == 0 {
      ReapEffect(Registry(r.flights[i := r.flights[i].(timer := false, layer := Retired, state := Retained)], Without(r.active, i), r.retired + {i}, r.leased), i);
    }
  }

  /** The leader of flight `i` succeeded less than the grace ago. */
  ghost predicate WithinGrace(cfg: Config, events: seq<Event>, i: nat) {
    exists n: nat :: SucceedsAt(cfg, events, n, i) && Clock(events) < Clock(events[..n]) + cfg.grace
  }

  lemma WithinGraceIff(cfg: Config, events: seq<Event>, n: nat, i: nat, deadline: Option<int>)
    requires DeadlineSet(cfg, events, n, i, deadline)
    ensures WithinGrace(cfg, events, i) <==> Clock(events) < deadline.value
  {
    forall m: nat | SucceedsAt(cfg, events, m, i) ensures m == n {
      SucceedsOnce(cfg, events, m, n, i);
    }
  }

  /**
   * Over every run: a fetch whose key has flight `i` registered joins it if and only if the flight
   * is still running, or the time of the run has not yet reached the time of its leader's success
   * plus the grace.
   */
  lemma JoinsWithinGrace(cfg: Config, events: seq<Event>, s: Sys, c: nat, key: Key, reserve: nat, i: nat)
    requires s == Run(cfg, events)
    requires c !in s.callers && Find(s.reg.flights, s.reg.active, key) == Some(i)
    ensures c in Step(cfg, s, Call(c, key, reserve)).callers
    ensures Step(cfg, s, Call(c, key, reserve)).callers[c] == Waiting(i, key, reserve) <==>
              s.reg.flights[i].future.Pending? || WithinGrace(cfg, events, i)
  {
    JoinsUnlessDue(cfg, s, c, key, reserve, i);
    ClockIsNow(cfg, events);
    assert FlightOk(s.reg.flights[i], i in s.reg.active, i in s.reg.retired);
    if !s.reg.flights[i].future.Pending? {
      assert events[..|events|] == events;
      var n := GraceDeadline(cfg, events, |events|, s, i);
      WithinGraceIff(cfg, events, n, i, s.reg.flights[i].expiresAt);
    }
  }
}
