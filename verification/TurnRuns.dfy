/** The fence across lifetimes: incarnations go up, and turns go up until a session is evicted. */
module TurnRuns {
  import opened Prelude
  import opened TurnModel
  import opened OrderedDict

  // ---- recency --------------------------------------------------------------------------

  /** The counters after a series of bumps in one process. */
  ghost function Turns(bumps: seq<string>, cap: nat): Counters {
    if bumps == [] then [] else Bump(Turns(bumps[..|bumps| - 1], cap), bumps[|bumps| - 1], cap)
  }

  /** The distinct sessions bumped, least recently bumped first, without any cap. */
  ghost function Recent(bumps: seq<string>): seq<string> {
    if bumps == [] then [] else Without(Recent(bumps[..|bumps| - 1]), bumps[|bumps| - 1]) + [bumps[|bumps| - 1]]
  }

  function Sids(turns: Counters): seq<string> {
    seq(|turns|, k requires 0 <= k < |turns| => turns[k].key)
  }

  ghost function Suffix(s: seq<string>, cap: nat): seq<string> {
    if |s| <= cap then s else s[|s| - cap..]
  }

  lemma {:induction false} RecentDistinct(bumps: seq<string>)
    ensures Distinct(Recent(bumps))
    ensures forall sid :: sid in Recent(bumps) <==> sid in bumps
  {
    if bumps != [] {
      var n := |bumps| - 1;
      RecentDistinct(bumps[..n]);
      var w := Without(Recent(bumps[..n]), bumps[n]);
      assert bumps == bumps[..n] + [bumps[n]];
      DistinctAppend(w, bumps[n]);
    }
  }

  lemma DistinctAppend(s: seq<string>, x: string)
    requires Distinct(s) && x !in s
    ensures Distinct(s + [x])
  {
  }

  lemma {:induction false} SidsRemove(turns: Counters, sid: string)
    requires Distinct(Sids(turns))
    ensures Sids(Remove(turns, sid)) == Without(Sids(turns), sid)
  {
    var s := Sids(turns);
    if turns != [] {
      assert s[1..] == Sids(turns[1..]);
      if turns[0].key == sid {
        assert s[0] == sid;
        WithoutHead(s);
      } else {
        SidsRemove(turns[1..], sid);
        assert Sids([turns[0]] + Remove(turns[1..], sid)) == [turns[0].key] + Sids(Remove(turns[1..], sid));
      }
    } else {
      assert s == [];
    }
  }

  lemma {:induction false} TrimIsSuffix(turns: Counters, cap: nat)
    ensures Trim(turns, cap) == if |turns| <= cap then turns else turns[|turns| - cap..]
  {
    if |turns| > cap {
      TrimIsSuffix(turns[1..], cap);
      var k := |turns| - cap;
      assert turns[1..][k - 1..] == turns[k..];
    }
  }

  lemma SidsTrim(turns: Counters, cap: nat)
    ensures Sids(Trim(turns, cap)) == Suffix(Sids(turns), cap)
  {
    TrimIsSuffix(turns, cap);
    if |turns| > cap {
      var k := |turns| - cap;
      assert Sids(turns[k..]) == Sids(turns)[k..];
    }
  }

  lemma {:induction false} WithoutConcat(a: seq<string>, b: seq<string>, x: string)
    ensures Without(a + b, x) == Without(a, x) + Without(b, x)
  {
    if a == [] {
      assert a + b == b;
    } else {
      assert (a + b)[1..] == a[1..] + b;
      WithoutConcat(a[1..], b, x);
    }
  }

  lemma {:induction false} WithoutLength(s: seq<string>, x: string)
    requires Distinct(s)
    ensures |Without(s, x)| == if x in s then |s| - 1 else |s|
  {
    if s != [] {
      WithoutLength(s[1..], x);
      assert s == [s[0]] + s[1..];
      if s[0] == x { assert x !in s[1..]; }
    }
  }

  /** Capping before a bump and after it is the same as capping after it. */
  lemma SuffixStep(r: seq<string>, x: string, cap: nat)
    requires Distinct(r) && cap >= 1
    ensures Suffix(Without(Suffix(r, cap), x) + [x], cap) == Suffix(Without(r, x) + [x], cap)
  {
    if |r| > cap {
      var a, b := r[..|r| - cap], r[|r| - cap..];
      assert r == a + b;
      WithoutConcat(a, b, x);
      assert Distinct(b);
      WithoutLength(b, x);
      WithoutLength(r, x);
      var wa, wb := Without(a, x), Without(b, x);
      assert Without(r, x) + [x] == wa + (wb + [x]);
      if x in b {
        assert |wb + [x]| == cap;
        SuffixOfConcat(wa, wb + [x], cap);
      } else {
        assert |wb| == cap;
        SuffixOfConcat(wa, wb + [x], cap);
      }
    }
  }

  lemma SuffixOfConcat(a: seq<string>, b: seq<string>, cap: nat)
    requires |b| >= cap
    ensures Suffix(a + b, cap) == Suffix(b, cap)
  {
    var s := a + b;
    assert s[|s| - cap..] == b[|b| - cap..];
  }

  lemma SuffixDistinct(s: seq<string>, cap: nat)
    requires Distinct(s)
    ensures Distinct(Suffix(s, cap))
  {
  }

  lemma BumpKeepsSuffix(turns: Counters, r: seq<string>, x: string, cap: nat)
    requires Distinct(r) && Sids(turns) == Suffix(r, cap) && cap >= 1
    ensures Sids(Bump(turns, x, cap)) == Suffix(Without(r, x) + [x], cap)
  {
    SuffixDistinct(r, cap);
    SidsRemove(turns, x);
    var rest, one: Slot<string, nat> := Remove(turns, x), Slot(x, TurnOf(turns, x) + 1);
    SidsConcat(rest, [one]);
    assert Sids([one]) == [x];
    SidsTrim(rest + [one], cap);
    SuffixStep(r, x, cap);
  }

  /** The counters kept are those of the most recently bumped sessions: exactly the capped recency list. */
  lemma {:induction false} KeepsMostRecent(bumps: seq<string>, cap: nat)
    requires cap >= 1
    ensures Sids(Turns(bumps, cap)) == Suffix(Recent(bumps), cap)
  {
    if bumps == [] {
      assert Sids([]) == [];
    } else {
      var n := |bumps| - 1;
      KeepsMostRecent(bumps[..n], cap);
      RecentDistinct(bumps[..n]);
      BumpKeepsSuffix(Turns(bumps[..n], cap), Recent(bumps[..n]), bumps[n], cap);
    }
  }

  /** The sessions bumped since the last bump of `sid`. */
  ghost function Since(bumps: seq<string>, sid: string): set<string> {
    if bumps == [] || bumps[|bumps| - 1] == sid then {} else Since(bumps[..|bumps| - 1], sid) + {bumps[|bumps| - 1]}
  }

  /** Those are the ones behind it in the recency list. */
  lemma {:induction false} SinceIsBehind(bumps: seq<string>, sid: string) returns (k: nat)
    requires sid in bumps
    ensures k < |Recent(bumps)| && Recent(bumps)[k] == sid
    ensures Since(bumps, sid) == Elements(Recent(bumps)[k + 1..])
  {
    var n := |bumps| - 1;
    var x, r := bumps[n], Recent(bumps);
    if x == sid {
      k := |r| - 1;
      assert r[k + 1..] == [];
    } else {
      assert bumps == bumps[..n] + [x];
      var j := SinceIsBehind(bumps[..n], sid);
      var p := Recent(bumps[..n]);
      assert p == p[..j] + ([sid] + p[j + 1..]);
      k := BehindAfterBump(p[..j], sid, p[j + 1..], x);
    }
  }

  lemma BehindAfterBump(front: seq<string>, sid: string, back: seq<string>, x: string) returns (k: nat)
    requires x != sid
    ensures var r := Without(front + ([sid] + back), x) + [x];
            k < |r| && r[k] == sid && Elements(r[k + 1..]) == Elements(back) + {x}
  {
    var a, b := Without(front, x), Without(back, x);
    WithoutConcat(front, [sid] + back, x);
    assert ([sid] + back)[1..] == back;
    assert Without(front + ([sid] + back), x) == a + ([sid] + b);
    k := |a|;
    MarkedBetween(a, sid, b, x);
    assert Elements(b + [x]) == Elements(back) + {x};
  }

  lemma MarkedBetween(a: seq<string>, sid: string, b: seq<string>, x: string)
    ensures var r := a + ([sid] + b) + [x]; r[|a|] == sid && r[|a| + 1..] == b + [x]
  {
  }

  ghost function Elements(s: seq<string>): set<string> {
    set y | y in s
  }

  lemma {:induction false} SetOfDistinct(s: seq<string>)
    requires Distinct(s)
    ensures |Elements(s)| == |s|
  {
    if s != [] {
      SetOfDistinct(s[1..]);
      assert s == [s[0]] + s[1..];
      assert Elements(s) == Elements(s[1..]) + {s[0]};
      assert s[0] !in s[1..];
    }
  }

  /** A session is still counted exactly when it was bumped and fewer than `cap` other sessions have been bumped since. */
  lemma ResidentIff(bumps: seq<string>, sid: string, cap: nat)
    requires cap >= 1
    ensures sid in Sids(Turns(bumps, cap)) <==> sid in bumps && |Since(bumps, sid)| < cap
  {
    KeepsMostRecent(bumps, cap);
    RecentDistinct(bumps);
    var r := Recent(bumps);
    if sid in bumps {
      var k := SinceIsBehind(bumps, sid);
      SetOfDistinct(r[k + 1..]);
      var s := Suffix(r, cap);
      if |r| > cap {
        if k >= |r| - cap {
          assert s[k - (|r| - cap)] == sid;
        } else {
          assert forall i :: 0 <= i < |s| ==> s[i] == r[i + (|r| - cap)];
        }
      }
    }
  }

  /** So losing a session's counter takes at least 10000 other sessions bumped since its last bump. */
  lemma EvictionNeedsManyOthers(bumps: seq<string>, sid: string)
    requires sid in bumps && sid !in Sids(Turns(bumps, TURNS_MAX))
    ensures |Since(bumps, sid)| >= TURNS_MAX && sid !in Since(bumps, sid)
  {
    ResidentIff(bumps, sid, TURNS_MAX);
    SinceExcludes(bumps, sid);
  }

  lemma {:induction false} SinceExcludes(bumps: seq<string>, sid: string)
    ensures sid !in Since(bumps, sid)
  {
    if bumps != [] { SinceExcludes(bumps[..|bumps| - 1], sid); }
  }

  // ---- turns go up ------------------------------------------------------------------------

  lemma FoundIff(turns: Counters, sid: string)
    ensures Find(turns, sid).Some? <==> sid in Sids(turns)
  {
    NoneFoundIff(turns, sid);
    assert forall k :: 0 <= k < |turns| ==> Sids(turns)[k] == turns[k].key;
  }

  lemma SidsConcat(a: Counters, b: Counters)
    ensures Sids(a + b) == Sids(a) + Sids(b)
  {
  }

  /** Trimming changes no turn that it keeps. */
  lemma TurnOfTrim(turns: Counters, cap: nat, sid: string)
    requires Distinct(Sids(turns)) && sid in Sids(Trim(turns, cap))
    ensures TurnOf(Trim(turns, cap), sid) == TurnOf(turns, sid)
  {
    TrimIsSuffix(turns, cap);
    if |turns| > cap {
      assert forall k :: 0 <= k < |turns| ==> Sids(turns)[k] == turns[k].key;
      FoundIff(Trim(turns, cap), sid);
      FindSuffix(turns, |turns| - cap, sid);
    }
  }

  ghost function Current(bumps: seq<string>): Counters {
    Turns(bumps, TURNS_MAX)
  }

  /** The sessions a bump pushes out. */
  ghost predicate Evicts(bumps: seq<string>, x: string, sid: string) {
    sid in Sids(Current(bumps)) && sid !in Sids(Current(bumps + [x]))
  }

  lemma CurrentDistinct(bumps: seq<string>)
    ensures Distinct(Sids(Current(bumps)))
  {
    KeepsMostRecent(bumps, TURNS_MAX);
    RecentDistinct(bumps);
    SuffixDistinct(Recent(bumps), TURNS_MAX);
  }

  /** The turns just before trimming. */
  lemma TurnBeforeTrim(turns: Counters, x: string, sid: string)
    requires Distinct(Sids(turns))
    ensures var more := Remove(turns, x) + [Slot(x, TurnOf(turns, x) + 1)];
            && Distinct(Sids(more)) && Sids(more) == Without(Sids(turns), x) + [x]
            && TurnOf(more, sid) == if sid == x then TurnOf(turns, x) + 1 else TurnOf(turns, sid)
  {
    var rest, one: Slot<string, nat> := Remove(turns, x), Slot(x, TurnOf(turns, x) + 1);
    SidsRemove(turns, x);
    SidsConcat(rest, [one]);
    assert Sids([one]) == [x];
    DistinctAppend(Sids(rest), x);
    FindConcat(rest, [one], sid);
    FindOne(one, sid);
    FoundIff(rest, x);
    if sid != x { RemoveOthers(turns, x, sid); }
  }

  /** A bump raises its own session's turn by one and lowers no turn except that of a session it evicts. */
  lemma TurnAfterBump(bumps: seq<string>, x: string, sid: string)
    ensures sid == x ==> TurnOf(Current(bumps + [x]), sid) == TurnOf(Current(bumps), sid) + 1
    ensures sid != x && !Evicts(bumps, x, sid) ==> TurnOf(Current(bumps + [x]), sid) == TurnOf(Current(bumps), sid)
  {
    var turns := Current(bumps);
    assert (bumps + [x])[..|bumps|] == bumps;
    var more := Remove(turns, x) + [Slot(x, TurnOf(turns, x) + 1)];
    assert Current(bumps + [x]) == Trim(more, TURNS_MAX);
    CurrentDistinct(bumps);
    TurnBeforeTrim(turns, x, sid);
    LastStays(more);
    if sid in Sids(Trim(more, TURNS_MAX)) {
      TurnOfTrim(more, TURNS_MAX, sid);
    } else {
      FoundIff(Trim(more, TURNS_MAX), sid);
      FoundIff(turns, sid);
    }
  }

  /** How often a session was bumped since it was last forgotten; never bumped or forgotten is zero. */
  ghost function Streak(bumps: seq<string>, sid: string): nat {
    if bumps == [] then 0
    else
      var rest := bumps[..|bumps| - 1];
      if bumps[|bumps| - 1] == sid then Streak(rest, sid) + 1
      else if |Since(bumps, sid)| >= TURNS_MAX then 0
      else Streak(rest, sid)
  }

  /** The turn of a session is the number of its bumps since 10000 other sessions last came in between, from zero. */
  lemma {:induction false} TurnCountsBumps(bumps: seq<string>, sid: string)
    ensures TurnOf(Current(bumps), sid) == Streak(bumps, sid)
  {
    if bumps != [] {
      var n := |bumps| - 1;
      assert bumps == bumps[..n] + [bumps[n]];
      TurnCountsBumps(bumps[..n], sid);
      TurnAfterBump(bumps[..n], bumps[n], sid);
      ResidentIff(bumps, sid, TURNS_MAX);
      ResidentIff(bumps[..n], sid, TURNS_MAX);
      FoundIff(Current(bumps), sid);
      FoundIff(Current(bumps[..n]), sid);
    }
  }

  lemma LastStays(turns: Counters)
    requires turns != []
    ensures turns[|turns| - 1].key in Sids(Trim(turns, TURNS_MAX))
  {
    TrimIsSuffix(turns, TURNS_MAX);
    var t := Trim(turns, TURNS_MAX);
    assert t[|t| - 1] == turns[|turns| - 1];
    assert Sids(t)[|t| - 1] == t[|t| - 1].key;
  }

  // ---- lifetimes ------------------------------------------------------------------------------

  /** A running process: its incarnation and the bumps it has made. */
  datatype Process = Process(incarnation: Incarnation, bumps: seq<string>)

  /**
   * `top` is the last confirmed incarnation, `last` the last pair published for each session, and
   * `lapsed` the sessions this process has evicted since it last published them.
   */
  datatype World = World(disk: Disk, process: Option<Process>, top: int, last: map<string, (int, nat)>, lapsed: set<string>)

  datatype Event =
    | Start(weather: Weather)
    | CrashInStart(weather: Weather, landed: bool)
    | Stop
    | BumpTurn(sid: string)
    | Publish(sid: string)

  ghost predicate Enabled(w: World, e: Event) {
    if e.Start? || e.CrashInStart? then w.process.None? else w.process.Some?
  }

  ghost function Published(w: World, sid: string): (int, nat)
    requires w.process.Some?
  {
    (w.process.value.incarnation.value, TurnOf(Current(w.process.value.bumps), sid))
  }

  /** An event that does not apply changes nothing. */
  ghost function Step(w: World, e: Event): World {
    if !Enabled(w, e) then w else Happen(w, e)
  }

  ghost function Happen(w: World, e: Event): World
    requires Enabled(w, e)
  {
    match e
    case Start(weather) =>
      var (disk, start) := LoadOrBump(w.disk, weather);
      if start.None? then w
      else
        var inc := start.value;
        World(disk, Some(Process(inc, [])), if inc.durable then inc.value else w.top, w.last, {})
    case CrashInStart(weather, landed) => w.(disk := CrashingStart(w.disk, weather, landed))
    case Stop => w.(process := None)
    case BumpTurn(x) =>
      var p := w.process.value;
      w.(process := Some(p.(bumps := p.bumps + [x])),
         lapsed := w.lapsed + set sid | sid in Sids(Current(p.bumps)) && Evicts(p.bumps, x, sid))
    case Publish(sid) =>
      if w.process.value.incarnation.durable then w.(last := w.last[sid := Published(w, sid)], lapsed := w.lapsed - {sid}) else w
  }

  predicate LexLeq(a: (int, nat), b: (int, nat)) {
    a.0 < b.0 || (a.0 == b.0 && a.1 <= b.1)
  }

  ghost predicate SidOk(w: World, sid: string)
    requires sid in w.last
  {
    && w.last[sid].0 <= w.top
    && (w.process.Some? && w.process.value.incarnation.durable && sid !in w.lapsed ==> LexLeq(w.last[sid], Published(w, sid)))
  }

  ghost predicate Inv(w: World) {
    && w.top >= 0
    && (w.top > 0 ==> w.disk.primary.Holds? && w.disk.primary.n >= w.top)
    && (w.process.Some? && w.process.value.incarnation.durable ==> w.process.value.incarnation.value == w.top)
    && forall sid :: sid in w.last ==> SidOk(w, sid)
  }

  // ---- exactly when the fence holds -------------------------------------------------------------

  /** Some file that can be read holds at least `n`. */
  predicate Reads(d: Disk, weather: Weather, n: int) {
    || (d.primary.Holds? && !weather.primaryFault && d.primary.n >= n)
    || (d.legacy.Some? && d.legacy.value.Holds? && !weather.legacyFault && d.legacy.value.n >= n)
  }

  /** Nothing was confirmed yet, or a readable file holds at least the last confirmed incarnation. */
  predicate SeesThePast(w: World, weather: Weather) {
    w.top == 0 || Reads(w.disk, weather, w.top)
  }

  /** From any state at all: the value a start would write beats every confirmed one if and only if the start sees the past. */
  lemma StartRisesIff(w: World, weather: Weather)
    requires w.top >= 0
    ensures Base(w.disk, weather) + 1 > w.top <==> SeesThePast(w, weather)
  {
  }

  /** The start gets as far as writing, and what it writes is confirmed. */
  predicate Confirms(w: World, e: Event) {
    e.Start? && w.process.None? && !Chokes(w.disk, e.weather) && Confirmed(e.weather, WRITE_ATTEMPTS)
  }

  /**
   * A write over a past that was not seen: a confirmed start that cannot read the last confirmed
   * value, or a start that dies after its write has landed although it could not even read the
   * value before that one. A start that writes nothing is never blind, however little it can read.
   */
  predicate Blind(w: World, e: Event) {
    || (Confirms(w, e) && !SeesThePast(w, e.weather))
    || (e.CrashInStart? && w.process.None? && e.landed && !Chokes(w.disk, e.weather)
        && w.top > 1 && !Reads(w.disk, e.weather, w.top - 1))
  }

  /** The disk holds at least the last confirmed incarnation. */
  predicate Remembers(w: World) {
    w.top > 0 ==> w.disk.primary.Holds? && w.disk.primary.n >= w.top
  }

  /** A start confirmed by this event beats every earlier one. */
  ghost predicate Rises(w: World, e: Event) {
    Confirms(w, e) ==> Step(w, e).process.Some? && Step(w, e).process.value.incarnation.value > w.top
  }

  /** One event keeps the fence, rising now and remembered for the next start, if and only if it is not blind. */
  lemma StepKeepsFenceIff(w: World, e: Event)
    requires Inv(w)
    ensures Remembers(Step(w, e)) && Rises(w, e) <==> !Blind(w, e)
  {
    if e.Start? || e.CrashInStart? {
      StartRisesIff(w, e.weather);
    }
  }

  lemma StepKeeps(w: World, e: Event)
    requires Inv(w) && !Blind(w, e)
    ensures Inv(Step(w, e)) && Step(w, e).top >= w.top
  {
    StepKeepsFenceIff(w, e);
    var w' := Step(w, e);
    forall sid | sid in w'.last ensures SidOk(w', sid) {
      if sid in w.last { assert SidOk(w, sid); }
      if e.BumpTurn? && Enabled(w, e) {
        TurnAfterBump(w.process.value.bumps, e.sid, sid);
      }
    }
  }

  /** The state after any list of events. */
  ghost function After(w: World, events: seq<Event>): World {
    if events == [] then w else Step(After(w, events[..|events| - 1]), events[|events| - 1])
  }

  lemma AfterNext(w: World, events: seq<Event>, n: nat)
    requires n < |events|
    ensures After(w, events[..n + 1]) == Step(After(w, events[..n]), events[n])
  {
    assert events[..n + 1][..n] == events[..n];
  }

  /** Whatever the files hold at first. */
  ghost predicate Initial(w: World) {
    w.process.None? && w.top == 0 && w.last == map[] && w.lapsed == {}
  }

  /** No event among the first `n` is blind. */
  ghost predicate Sighted(w: World, events: seq<Event>, n: nat)
    requires n <= |events|
  {
    forall k :: 0 <= k < n ==> !Blind(After(w, events[..k]), events[k])
  }

  lemma {:induction false} SightedKeeps(w: World, events: seq<Event>, n: nat)
    requires Initial(w) && n <= |events| && Sighted(w, events, n)
    ensures Inv(After(w, events[..n]))
  {
    if n > 0 {
      SightedKeeps(w, events, n - 1);
      AfterNext(w, events, n - 1);
      StepKeeps(After(w, events[..n - 1]), events[n - 1]);
    }
  }

  /** At event `k` of the run the fence is kept. */
  ghost predicate KeptAt(w: World, events: seq<Event>, k: nat)
    requires k < |events|
  {
    Remembers(After(w, events[..k + 1])) && Rises(After(w, events[..k]), events[k])
  }

  lemma {:induction false} KeptIsSighted(w: World, events: seq<Event>, n: nat)
    requires Initial(w) && n <= |events| && forall k :: 0 <= k < n ==> KeptAt(w, events, k)
    ensures Sighted(w, events, n)
  {
    if n > 0 {
      KeptIsSighted(w, events, n - 1);
      SightedKeeps(w, events, n - 1);
      AfterNext(w, events, n - 1);
      assert KeptAt(w, events, n - 1);
      StepKeepsFenceIff(After(w, events[..n - 1]), events[n - 1]);
    }
  }

  /**
   * Over every sequence of lifetimes, with read faults, failed writes and crashes: each confirmed
   * start beats every earlier one and the disk always remembers it, if and only if no event of
   * the run is blind.
   */
  lemma RunKeepsFenceIff(w: World, events: seq<Event>)
    requires Initial(w)
    ensures (forall k :: 0 <= k < |events| ==> KeptAt(w, events, k)) <==> Sighted(w, events, |events|)
  {
    if forall k :: 0 <= k < |events| ==> KeptAt(w, events, k) {
      KeptIsSighted(w, events, |events|);
    }
    if Sighted(w, events, |events|) {
      forall k | 0 <= k < |events| ensures KeptAt(w, events, k) {
        SightedKeeps(w, events, k);
        AfterNext(w, events, k);
        StepKeepsFenceIff(After(w, events[..k]), events[k]);
      }
    }
  }

  lemma {:induction false} TopNeverNegative(w: World, events: seq<Event>)
    requires Initial(w)
    ensures After(w, events).top >= 0
  {
    if events != [] { TopNeverNegative(w, events[..|events| - 1]); }
  }

  /** The rising alone, disk aside: every confirmed start of a run beats the last one if and only if each of them sees the past. */
  lemma RunRisesIff(w: World, events: seq<Event>)
    requires Initial(w)
    ensures (forall k :: 0 <= k < |events| ==> Rises(After(w, events[..k]), events[k]))
       <==> (forall k :: 0 <= k < |events| && Confirms(After(w, events[..k]), events[k]) ==>
               SeesThePast(After(w, events[..k]), events[k].weather))
  {
    forall k | 0 <= k < |events|
      ensures Rises(After(w, events[..k]), events[k])
         <==> (Confirms(After(w, events[..k]), events[k]) ==> SeesThePast(After(w, events[..k]), events[k].weather))
    {
      TopNeverNegative(w, events[..k]);
      if events[k].Start? {
        StartRisesIff(After(w, events[..k]), events[k].weather);
      }
    }
  }

  /** Over any lifetimes without a blind event: a start that is confirmed on disk beats every earlier one, published or not. */
  lemma IncarnationsRise(w: World, events: seq<Event>, weather: Weather)
    requires Initial(w) && Sighted(w, events, |events|)
    requires var v := After(w, events); v.process.None? && !Blind(v, Start(weather))
    ensures var v := After(w, events);
            var inc := LoadOrBump(v.disk, weather).1;
            inc.Some? && inc.value.durable ==>
              inc.value.value > v.top && forall sid :: sid in v.last ==> v.last[sid].0 < inc.value.value
  {
    SightedKeeps(w, events, |events|);
    assert events[..|events|] == events;
    var v := After(w, events);
    StartRisesIff(v, weather);
    forall sid | sid in v.last ensures v.last[sid].0 <= v.top {
      assert SidOk(v, sid);
    }
  }

  /** Over any lifetimes without a blind event: the pair published for a session never goes down, unless it was evicted since it was last published. */
  lemma FenceNeverFalls(w: World, events: seq<Event>, sid: string)
    requires Initial(w) && Sighted(w, events, |events|)
    requires var v := After(w, events); v.process.Some? && v.process.value.incarnation.durable
    requires var v := After(w, events); sid in v.last && sid !in v.lapsed
    ensures var v := After(w, events); LexLeq(v.last[sid], Published(v, sid))
  {
    SightedKeeps(w, events, |events|);
    assert events[..|events|] == events;
    assert SidOk(After(w, events), sid);
  }

  // ---- what is published, read off the events -----------------------------------------------------

  /** The bumps since the last start that did not raise. */
  ghost function BumpsSince(w: World, events: seq<Event>): seq<string> {
    if events == [] then []
    else
      var rest, e := events[..|events| - 1], events[|events| - 1];
      var v := After(w, rest);
      if e.Start? && v.process.None? && LoadOrBump(v.disk, e.weather).1.Some? then []
      else if e.BumpTurn? && v.process.Some? then BumpsSince(w, rest) + [e.sid]
      else BumpsSince(w, rest)
  }

  /** The process runs: a start that did not raise is the last of starts and stops. */
  ghost predicate Runs(w: World, events: seq<Event>) {
    if events == [] then false
    else
      var rest, e := events[..|events| - 1], events[|events| - 1];
      match e
      case Start(weather) => Runs(w, rest) || LoadOrBump(After(w, rest).disk, weather).1.Some?
      case Stop => false
      case _ => Runs(w, rest)
  }

  /** Some session's counter was evicted since this process last published it. */
  ghost predicate Forgotten(w: World, events: seq<Event>, sid: string) {
    if events == [] then false
    else
      var rest, e := events[..|events| - 1], events[|events| - 1];
      var v := After(w, rest);
      match e
      case Start(weather) => Forgotten(w, rest, sid) && !(v.process.None? && LoadOrBump(v.disk, weather).1.Some?)
      case Publish(s) => Forgotten(w, rest, sid) && !(s == sid && v.process.Some? && v.process.value.incarnation.durable)
      case BumpTurn(x) => Forgotten(w, rest, sid) || (v.process.Some? && Evicts(BumpsSince(w, rest), x, sid))
      case _ => Forgotten(w, rest, sid)
  }

  /**
   * After any run: a process runs if and only if the last of the starts and stops is a start that
   * did not raise; what it publishes for a session counts the session's bumps since that start; and
   * the sessions whose fence may fall are those evicted since they were last published.
   */
  lemma {:induction false} PublishedCountsBumps(w: World, events: seq<Event>, sid: string)
    requires Initial(w)
    ensures var v := After(w, events);
            && (v.process.Some? <==> Runs(w, events))
            && (v.process.Some? ==> v.process.value.bumps == BumpsSince(w, events)
                                    && Published(v, sid).1 == Streak(BumpsSince(w, events), sid))
            && (sid in v.lapsed <==> Forgotten(w, events, sid))
  {
    if events != [] {
      PublishedCountsBumps(w, events[..|events| - 1], sid);
    }
    TurnCountsBumps(BumpsSince(w, events), sid);
  }

  // ---- where it fails ------------------------------------------------------------------------------

  lemma FirstTry(weather: Weather)
    requires weather.writes == [true]
    ensures Confirmed(weather, WRITE_ATTEMPTS)
  {
    assert Confirmed(weather, 1);
    assert Confirmed(weather, 2);
  }

  /** A single read fault is enough to send the fence back to one. */
  lemma ReadFaultLowersFence()
    ensures var calm, fault := Weather(false, false, [true], 0), Weather(true, false, [true], 0);
            var (disk, first) := LoadOrBump(Disk(Holds(4), None), calm);
            first == Some(Incarnation(5, true)) && LoadOrBump(disk, fault).1 == Some(Incarnation(1, true))
  {
    FirstTry(Weather(false, false, [true], 0));
    FirstTry(Weather(true, false, [true], 0));
  }

  /** A blind crash sets the trap for a later start: it reads everything there is to read, and still publishes 2 after 5. */
  lemma BlindCrashLowersFence()
    ensures var calm, fault := Weather(false, false, [true], 0), Weather(true, false, [true], 0);
            var (disk, first) := LoadOrBump(Disk(Holds(4), None), calm);
            first == Some(Incarnation(5, true))
            && LoadOrBump(CrashingStart(disk, fault, true), calm).1 == Some(Incarnation(2, true))
  {
    FirstTry(Weather(false, false, [true], 0));
  }

  /** An outage, with nothing readable and nothing writable, is not blind: nothing is published and the disk stays as it was. */
  lemma OutageIsHarmless(w: World, weather: Weather)
    requires w.process.None? && !Confirmed(weather, WRITE_ATTEMPTS)
    ensures !Blind(w, Start(weather)) && Step(w, Start(weather)).disk == w.disk && Step(w, Start(weather)).last == w.last
    ensures Step(w, Start(weather)).process.Some? ==> !Step(w, Start(weather)).process.value.incarnation.durable
  {
  }

  /** The value kept in memory when nothing can be confirmed: the least above the clock and everything that could be read. */
  lemma UnconfirmedValue(d: Disk, weather: Weather)
    requires !Chokes(d, weather) && !Confirmed(weather, WRITE_ATTEMPTS)
    ensures LoadOrBump(d, weather).1.Some?
    ensures var v := LoadOrBump(d, weather).1.value.value;
            && v > weather.clock && v > 0 && !Reads(d, weather, v)
            && (v == weather.clock + 1 || v == 1 || Reads(d, weather, v - 1))
  {
  }

  lemma {:induction false} ConfirmedIff(weather: Weather, attempts: nat)
    ensures Confirmed(weather, attempts) <==> exists k :: 0 <= k < attempts && k < |weather.writes| && weather.writes[k]
  {
    if attempts > 0 { ConfirmedIff(weather, attempts - 1); }
  }

  /**
   * A start that does not raise is confirmed if and only if one of the first three writes
   * succeeds; then, and only then, the primary file changes, and it holds the new incarnation.
   */
  lemma StartConfirmsIff(d: Disk, weather: Weather)
    requires LoadOrBump(d, weather).1.Some?
    ensures var (disk, start) := LoadOrBump(d, weather);
            && (start.value.durable <==> exists k :: 0 <= k < 3 && k < |weather.writes| && weather.writes[k])
            && disk.legacy == d.legacy
            && (if start.value.durable then disk.primary.Holds? && disk.primary.n == start.value.value else disk == d)
  {
    ConfirmedIff(weather, WRITE_ATTEMPTS);
  }

  /** A start raises if and only if a file it can read is no text; and once the store has written the primary file, that can only be the legacy one. */
  lemma StartRaisesIff(w: World, weather: Weather)
    requires Inv(w)
    ensures LoadOrBump(w.disk, weather).1.None? <==>
              || (w.disk.primary == NotText && !weather.primaryFault)
              || (w.disk.legacy == Some(NotText) && !weather.legacyFault)
    ensures w.top > 0 && Chokes(w.disk, weather) ==> w.disk.legacy == Some(NotText) && !weather.legacyFault
    ensures LoadOrBump(w.disk, weather).1.None? ==> LoadOrBump(w.disk, weather).0 == w.disk
  {
  }

  /** A legacy file that is no UTF-8 keeps the process from ever starting, whatever the primary file holds and however often it tries. */
  lemma {:induction false} BadLegacyNeverStarts(w: World, events: seq<Event>)
    requires w.process.None? && w.disk.legacy == Some(NotText)
    requires forall k :: 0 <= k < |events| ==> events[k].Start? && !events[k].weather.legacyFault
    ensures After(w, events) == w
  {
    if events != [] { BadLegacyNeverStarts(w, events[..|events| - 1]); }
  }
}
