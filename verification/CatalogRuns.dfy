/** The generation fence over every interleaving, and what eviction leaves. */
module CatalogRuns {
  import opened Prelude
  import opened CatalogModel
  import opened OrderedDict

  // ---- accounting and eviction -----------------------------------------------------------

  ghost predicate Counted(c: Cache) {
    KeysDistinct(c.entries) && c.retained == Sum(c.entries, Size)
  }

  ghost predicate FitsIn(entries: seq<Slot<Key, Entry>>, l: Limits) {
    Fits(entries, CapsOf(l), Size)
  }

  lemma DropKeeps(c: Cache, key: Key)
    requires Counted(c)
    ensures Counted(Drop(c, key)) && |Drop(c, key).entries| <= |c.entries| && Drop(c, key).retained <= c.retained
    ensures HasNo(Drop(c, key).entries, key)
    ensures forall k :: 0 <= k < |Drop(c, key).entries| ==> Drop(c, key).entries[k] in c.entries
  {
    RemoveKeys(c.entries, key);
    RemoveSum(c.entries, key, Size);
    NoneFoundIff(c.entries, key);
  }

  lemma AppendedCounted(c: Cache, key: Key, e: Entry)
    requires Counted(c)
    ensures Counted(Appended(Drop(c, key), key, e))
  {
    DropKeeps(c, key);
    AppendDistinct(Drop(c, key).entries, Slot(key, e));
    SumAppend(Drop(c, key).entries, Slot(key, e), Size);
  }

  /**
   * After a store under the configuration guards: the survivors are the longest newest-first
   * suffix, of the other entries and the new one, that fits both caps; and the new body is the
   * last of them.
   */
  lemma StoreSurvivors(c: Cache, key: Key, body: Body, now: real) returns (k: nat)
    requires Counted(c) && Guarded(c.limits) && |body| <= c.limits.maxEntryBytes
    ensures var all := Drop(c, key).entries + [Slot(key, Entry(body, now))];
            && k < |all| && Store(c, key, body, now).entries == all[k..]
            && FitsIn(all[k..], c.limits) && (forall i :: 0 <= i < k ==> !FitsIn(all[i..], c.limits))
    ensures Counted(Store(c, key, body, now))
  {
    var e := Entry(body, now);
    var a := Appended(Drop(c, key), key, e);
    AppendedCounted(c, key, e);
    k := EvictKeepsLongestSuffix(a.entries, a.retained, CapsOf(c.limits), Size);
    assert k > |a.entries| - 1 ==> !Fits(a.entries[|a.entries| - 1..], CapsOf(c.limits), Size);
    LastFits(a, Slot(key, e));
  }

  lemma LastFits(a: Cache, s: Slot<Key, Entry>)
    requires Guarded(a.limits) && Size(s.value) <= a.limits.maxEntryBytes
    requires a.entries != [] && a.entries[|a.entries| - 1] == s
    ensures FitsIn(a.entries[|a.entries| - 1..], a.limits)
  {
    assert a.entries[|a.entries| - 1..] == [s];
    SumAppend([], s, Size);
    assert [] + [s] == [s];
  }

  // ---- the fence -----------------------------------------------------------------------------

  /** What a refresh brought back, and when. */
  datatype Landing = Landing(fetched: Fetched, now: real)

  /** A refresh: its key, the generation its leader captured, when it began, and its landing, once it has landed. */
  datatype Refresh = Refresh(key: Key, captured: nat, begun: nat, landed: Option<Landing>)

  /** `moment` counts the steps; `cleared` is that of the last invalidation; `source` the refresh each entry came from. */
  datatype World = World(cache: Cache, refreshes: seq<Refresh>, moment: nat, cleared: nat, source: map<Key, nat>)

  datatype Event =
    | Begin(key: Key)
    | Finish(refresh: nat, fetched: Fetched, now: real)
    | Seek(key: Key, now: real)
    | Lost            // the upstream epoch is lost: invalidate
    | ShutDown

  /** A disabled cache never begins a refresh of its own, and a refresh lands once. */
  ghost predicate Enabled(w: World, e: Event) {
    (e.Begin? ==> w.cache.limits.ttl > 0.0) && (e.Finish? ==> e.refresh < |w.refreshes| && w.refreshes[e.refresh].landed.None?)
  }

  ghost function Step(w: World, e: Event): World
    requires Enabled(w, e)
  {
    var next := w.(moment := w.moment + 1);
    match e
    case Begin(key) => next.(refreshes := w.refreshes + [Refresh(key, w.cache.generation, w.moment, None)])
    case Finish(r, fetched, now) =>
      var key, captured := w.refreshes[r].key, w.refreshes[r].captured;
      next.(cache := Land(w.cache, key, captured, fetched, now),
            refreshes := w.refreshes[r := w.refreshes[r].(landed := Some(Landing(fetched, now)))],
            source := if Keeps(w.cache, captured, fetched) then w.source[key := r] else w.source)
    case Seek(key, now) => next.(cache := Lookup(w.cache, key, now).0)
    case Lost => next.(cache := Invalidate(w.cache), cleared := next.moment)
    case ShutDown => next.(cache := Shutdown(w.cache))
  }

  /** The entry holds what a refresh of its key, begun after the last invalidation, brought back: that list, at that time. */
  ghost predicate Recent(w: World, e: Slot<Key, Entry>) {
    && e.key in w.source && w.source[e.key] < |w.refreshes|
    && var r := w.refreshes[w.source[e.key]];
    && r.key == e.key && r.begun >= w.cleared
    && r.landed == Some(Landing(SomeBody(e.value.body, true), e.value.fetchedAt))
  }

  /** A refresh holds the current generation exactly when it began after the last invalidation. */
  ghost predicate RefreshOk(w: World, r: Refresh) {
    r.captured <= w.cache.generation && r.begun < w.moment && (r.captured == w.cache.generation <==> r.begun >= w.cleared)
  }

  ghost predicate Inv(w: World) {
    && Counted(w.cache) && w.cleared <= w.moment
    && (w.cache.entries != [] ==> FitsIn(w.cache.entries, w.cache.limits))
    && (forall r :: 0 <= r < |w.refreshes| ==> RefreshOk(w, w.refreshes[r]))
    && (forall k :: 0 <= k < |w.cache.entries| ==> Recent(w, w.cache.entries[k]))
  }

  lemma FinishKeeps(w: World, e: Event)
    requires Inv(w) && e.Finish? && Enabled(w, e)
    ensures Inv(Step(w, e))
  {
    var w' := Step(w, e);
    var r := w.refreshes[e.refresh];
    assert RefreshOk(w, r);
    if Keeps(w.cache, r.captured, e.fetched) {
      StoreOutcome(w.cache, r.key, e.fetched.body, e.now);
      forall i | 0 <= i < |w'.cache.entries| ensures Recent(w', w'.cache.entries[i]) {
        FinishRecent(w, w', e, w'.cache.entries[i]);
      }
    }
    forall i | 0 <= i < |w'.cache.entries| && !Keeps(w.cache, r.captured, e.fetched)
      ensures Recent(w', w'.cache.entries[i])
    {
      assert Recent(w, w.cache.entries[i]);
    }
    forall i | 0 <= i < |w'.refreshes| ensures RefreshOk(w', w'.refreshes[i]) {
      assert RefreshOk(w, w.refreshes[i]);
    }
  }

  lemma StoreOutcome(c: Cache, key: Key, body: Body, now: real)
    requires Counted(c)
    ensures var s := Store(c, key, body, now);
            && Counted(s) && s.generation == c.generation && s.limits == c.limits
            && (s.entries != [] ==> FitsIn(s.entries, s.limits))
            && (forall i :: 0 <= i < |s.entries| ==>
                  s.entries[i] == Slot(key, Entry(body, now)) || (s.entries[i] in c.entries && s.entries[i].key != key))
  {
    DropKeeps(c, key);
    AppendedCounted(c, key, Entry(body, now));
    var a := Appended(Drop(c, key), key, Entry(body, now));
    var k := EvictKeepsLongestSuffix(a.entries, a.retained, CapsOf(c.limits), Size);
    forall i | 0 <= i < |a.entries| - k
      ensures a.entries[k..][i] == Slot(key, Entry(body, now)) || (a.entries[k..][i] in c.entries && a.entries[k..][i].key != key)
    {
      assert a.entries[k..][i] == a.entries[k + i];
    }
  }

  lemma FinishRecent(w: World, w': World, e: Event, x: Slot<Key, Entry>)
    requires Inv(w) && e.Finish? && Enabled(w, e) && w' == Step(w, e)
    requires Keeps(w.cache, w.refreshes[e.refresh].captured, e.fetched)
    requires x == Slot(w.refreshes[e.refresh].key, Entry(e.fetched.body, e.now))
          || (x in w.cache.entries && x.key != w.refreshes[e.refresh].key)
    ensures Recent(w', x)
  {
    assert RefreshOk(w, w.refreshes[e.refresh]);
    if x.key != w.refreshes[e.refresh].key {
      var k :| 0 <= k < |w.cache.entries| && w.cache.entries[k] == x;
      assert Recent(w, x);
    }
  }

  lemma SeekKeeps(w: World, e: Event)
    requires Inv(w) && e.Seek? && Enabled(w, e)
    ensures Inv(Step(w, e))
  {
    var w' := Step(w, e);
    DropKeeps(w.cache, e.key);
    forall i | 0 <= i < |w'.cache.entries| ensures Recent(w', w'.cache.entries[i]) {
      var x := w'.cache.entries[i];
      assert x in w.cache.entries;
      var k :| 0 <= k < |w.cache.entries| && w.cache.entries[k] == x;
      assert Recent(w, x);
    }
    forall i | 0 <= i < |w'.refreshes| ensures RefreshOk(w', w'.refreshes[i]) {
      assert RefreshOk(w, w.refreshes[i]);
    }
  }

  lemma OthersKeep(w: World, e: Event)
    requires Inv(w) && !e.Finish? && !e.Seek? && Enabled(w, e)
    ensures Inv(Step(w, e))
  {
    var w' := Step(w, e);
    forall i | 0 <= i < |w'.refreshes| ensures RefreshOk(w', w'.refreshes[i]) {
      if i < |w.refreshes| { assert RefreshOk(w, w.refreshes[i]) && w'.refreshes[i] == w.refreshes[i]; }
    }
    forall k | 0 <= k < |w'.cache.entries| ensures Recent(w', w'.cache.entries[k]) {
      assert Recent(w, w.cache.entries[k]);
    }
  }

  ghost function Empty(l: Limits): World {
    World(Cache(l, [], 0, 0), [], 0, 0, map[])
  }

  /** The world after any list of events; an event that cannot happen changes nothing. */
  ghost function After(l: Limits, events: seq<Event>): (w: World)
    ensures Inv(w) && w.cache.limits == l
    decreases |events|
  {
    if events == [] then Empty(l)
    else
      var w, e := After(l, events[..|events| - 1]), events[|events| - 1];
      HappenKeeps(w, e);
      Happen(w, e)
  }

  ghost function Happen(w: World, e: Event): World {
    if Enabled(w, e) then Step(w, e) else w
  }

  lemma HappenKeeps(w: World, e: Event)
    requires Inv(w)
    ensures Inv(Happen(w, e)) && Happen(w, e).cache.limits == w.cache.limits
  {
    if Enabled(w, e) {
      if e.Finish? { FinishKeeps(w, e); } else if e.Seek? { SeekKeeps(w, e); } else { OthersKeep(w, e); }
      LimitsStay(w, e);
    }
  }

  lemma LimitsStay(w: World, e: Event)
    requires Inv(w) && Enabled(w, e)
    ensures Step(w, e).cache.limits == w.cache.limits
  {
    if e.Finish? {
      var r := w.refreshes[e.refresh];
      if Keeps(w.cache, r.captured, e.fetched) {
        StoreOutcome(w.cache, r.key, e.fetched.body, e.now);
      }
    }
  }

  /** In every interleaving, each cached body is the list a refresh of its key, begun after the last invalidation, brought back; and the total is exact. */
  lemma CachedIsAfterLastInvalidation(l: Limits, events: seq<Event>, k: nat)
    requires k < |After(l, events).cache.entries|
    ensures var w := After(l, events);
            && Recent(w, w.cache.entries[k])
            && w.cache.retained == Sum(w.cache.entries, Size) && FitsIn(w.cache.entries, w.cache.limits)
  {
    var w := After(l, events);
    assert Recent(w, w.cache.entries[k]);
  }

  // ---- exactly what one event does to the entries -------------------------------------------------

  /** A refresh lands with a list of allowed size, and it began after the last invalidation. */
  ghost predicate Stores(w: World, e: Event) {
    && e.Finish? && Enabled(w, e) && e.fetched.SomeBody? && e.fetched.isList
    && |e.fetched.body| <= w.cache.limits.maxEntryBytes && w.refreshes[e.refresh].begun >= w.cleared
  }

  ghost function Stored(w: World, e: Event): Slot<Key, Entry>
    requires Stores(w, e)
  {
    Slot(w.refreshes[e.refresh].key, Entry(e.fetched.body, e.now))
  }

  /** The slots of the other keys, in order. */
  ghost function Others(entries: seq<Slot<Key, Entry>>, key: Key): seq<Slot<Key, Entry>> {
    if entries == [] then []
    else Others(entries[..|entries| - 1], key) + (if entries[|entries| - 1].key == key then [] else [entries[|entries| - 1]])
  }

  /** The cache fits with the new slot at the end when entry `k` is the oldest one left. */
  ghost predicate Roomy(entries: seq<Slot<Key, Entry>>, k: nat, x: Slot<Key, Entry>, l: Limits)
    requires k <= |entries|
  {
    FitsIn(Others(entries[k..], x.key) + [x], l)
  }

  /** Entry `k` goes: everything is cleared, it is looked up too old, it is replaced, or it does not fit beside the new body. */
  ghost predicate Leaves(w: World, e: Event, k: nat)
    requires k < |w.cache.entries|
  {
    var x := w.cache.entries[k];
    match e
    case Begin(_) => false
    case Lost => true
    case ShutDown => true
    case Seek(key, now) => x.key == key && TooOld(w.cache, x, now)
    case Finish(_, _, _) =>
      Stores(w, e) && (x.key == Stored(w, e).key || !Roomy(w.cache.entries, k, Stored(w, e), w.cache.limits))
  }

  ghost function Leaving(w: World, e: Event): set<nat> {
    set k: nat | k < |w.cache.entries| && Leaves(w, e, k)
  }

  /** The entries at other places than `gone`, in order. */
  ghost function Remaining(entries: seq<Slot<Key, Entry>>, gone: set<nat>): seq<Slot<Key, Entry>> {
    if entries == [] then []
    else
      var n := |entries| - 1;
      Remaining(entries[..n], gone) + (if n in gone then [] else [entries[n]])
  }

  lemma {:induction false} AllStay(entries: seq<Slot<Key, Entry>>, gone: set<nat>)
    requires forall k: nat :: k < |entries| ==> k !in gone
    ensures Remaining(entries, gone) == entries
  {
    if entries != [] { AllStay(entries[..|entries| - 1], gone); }
  }

  lemma {:induction false} NoneStays(entries: seq<Slot<Key, Entry>>, gone: set<nat>)
    requires forall k: nat :: k < |entries| ==> k in gone
    ensures Remaining(entries, gone) == []
  {
    if entries != [] { NoneStays(entries[..|entries| - 1], gone); }
  }

  /** If the first `j` go and after them only the given key, the others from `j` on remain. */
  lemma {:induction false} OthersRemain(entries: seq<Slot<Key, Entry>>, gone: set<nat>, j: nat, key: Key)
    requires j <= |entries| && forall k: nat :: k < |entries| ==> (k in gone <==> k < j || entries[k].key == key)
    ensures Remaining(entries, gone) == Others(entries[j..], key)
  {
    if |entries| == j {
      NoneStays(entries, gone);
    } else {
      var n := |entries| - 1;
      OthersRemain(entries[..n], gone, j, key);
      assert entries[j..][..n - j] == entries[..n][j..];
    }
  }

  lemma {:induction false} OthersConcat(a: seq<Slot<Key, Entry>>, b: seq<Slot<Key, Entry>>, key: Key)
    ensures Others(a + b, key) == Others(a, key) + Others(b, key)
  {
    if b == [] {
      assert a + b == a;
    } else {
      var n := |b| - 1;
      assert (a + b)[..|a| + n] == a + b[..n];
      OthersConcat(a, b[..n], key);
    }
  }

  lemma OthersOne(x: Slot<Key, Entry>, key: Key)
    ensures Others([x], key) == if x.key == key then [] else [x]
  {
    assert [x][..0] == [];
  }

  lemma {:induction false} OthersAbsent(entries: seq<Slot<Key, Entry>>, key: Key)
    requires HasNo(entries, key)
    ensures Others(entries, key) == entries
  {
    if entries != [] { OthersAbsent(entries[..|entries| - 1], key); }
  }

  lemma {:induction false} RemoveIsOthers(entries: seq<Slot<Key, Entry>>, key: Key)
    requires KeysDistinct(entries)
    ensures Remove(entries, key) == Others(entries, key)
  {
    if entries != [] {
      var x, rest := entries[0], entries[1..];
      assert entries == [x] + rest;
      OthersConcat([x], rest, key);
      OthersOne(x, key);
      if x.key == key { OthersAbsent(rest, key); } else { RemoveIsOthers(rest, key); }
    }
  }

  lemma DropIsOthers(c: Cache, key: Key)
    requires Counted(c)
    ensures Drop(c, key).entries == Others(c.entries, key)
  {
    RemoveIsOthers(c.entries, key);
    NoneFoundIff(c.entries, key);
  }

  lemma {:induction false} SumConcat(a: seq<Slot<Key, Entry>>, b: seq<Slot<Key, Entry>>)
    ensures Sum(a + b, Size) == Sum(a, Size) + Sum(b, Size)
  {
    if a == [] {
      assert a + b == b;
    } else {
      assert (a + b)[1..] == a[1..] + b;
      SumConcat(a[1..], b);
    }
  }

  lemma SuffixFits(entries: seq<Slot<Key, Entry>>, i: nat, j: nat, l: Limits)
    requires i <= j <= |entries| && FitsIn(entries[i..], l)
    ensures FitsIn(entries[j..], l)
  {
    assert entries[i..] == entries[i..j] + entries[j..];
    SumConcat(entries[i..j], entries[j..]);
  }

  /** From entry `i` on, the others with the new slot are a suffix of all of them. */
  lemma RoomySuffix(entries: seq<Slot<Key, Entry>>, i: nat, x: Slot<Key, Entry>)
    requires i <= |entries|
    ensures var all, m := Others(entries, x.key) + [x], |Others(entries[..i], x.key)|;
            m < |all| && all[m..] == Others(entries[i..], x.key) + [x]
  {
    assert entries == entries[..i] + entries[i..];
    OthersConcat(entries[..i], entries[i..], x.key);
  }

  lemma OthersGrow(entries: seq<Slot<Key, Entry>>, i: nat, j: nat, key: Key)
    requires i <= j <= |entries|
    ensures |Others(entries[..i], key)| <= |Others(entries[..j], key)|
    ensures j == i + 1 ==> |Others(entries[..j], key)| == |Others(entries[..i], key)| + (if entries[i].key == key then 0 else 1)
  {
    assert entries[..j] == entries[..i] + entries[i..j];
    OthersConcat(entries[..i], entries[i..j], key);
    if j == i + 1 {
      assert entries[i..j] == [entries[i]];
      OthersOne(entries[i], key);
    }
  }

  lemma RoomyStays(entries: seq<Slot<Key, Entry>>, i: nat, j: nat, x: Slot<Key, Entry>, l: Limits)
    requires i <= j <= |entries| && Roomy(entries, i, x, l)
    ensures Roomy(entries, j, x, l)
  {
    RoomySuffix(entries, i, x);
    RoomySuffix(entries, j, x);
    OthersGrow(entries, i, j, x.key);
    SuffixFits(Others(entries, x.key) + [x], |Others(entries[..i], x.key)|, |Others(entries[..j], x.key)|, l);
  }

  /** The first entry from which on there is room. */
  lemma {:induction false} FirstRoomy(entries: seq<Slot<Key, Entry>>, n: nat, x: Slot<Key, Entry>, l: Limits) returns (j: nat)
    requires n <= |entries| && Roomy(entries, n, x, l)
    ensures j <= n && Roomy(entries, j, x, l) && (j > 0 ==> !Roomy(entries, j - 1, x, l))
  {
    if n == 0 || !Roomy(entries, n - 1, x, l) { j := n; } else { j := FirstRoomy(entries, n - 1, x, l); }
  }

  /** The longest suffix that fits starts at the first entry from which on there is room. */
  lemma LongestIsFirstRoomy(entries: seq<Slot<Key, Entry>>, all: seq<Slot<Key, Entry>>, k: nat, j: nat, x: Slot<Key, Entry>, l: Limits)
    requires all == Others(entries, x.key) + [x]
    requires k < |all| && FitsIn(all[k..], l) && forall i :: 0 <= i < k ==> !FitsIn(all[i..], l)
    requires j <= |entries| && Roomy(entries, j, x, l) && (j > 0 ==> !Roomy(entries, j - 1, x, l))
    ensures all[k..] == Others(entries[j..], x.key) + [x]
  {
    var m := TightAt(entries, all, j, x, l);
    LongestAt(all, k, m, l);
  }

  lemma TightAt(entries: seq<Slot<Key, Entry>>, all: seq<Slot<Key, Entry>>, j: nat, x: Slot<Key, Entry>, l: Limits) returns (m: nat)
    requires all == Others(entries, x.key) + [x]
    requires j <= |entries| && Roomy(entries, j, x, l) && (j > 0 ==> !Roomy(entries, j - 1, x, l))
    ensures m < |all| && FitsIn(all[m..], l) && (m > 0 ==> !FitsIn(all[m - 1..], l))
    ensures all[m..] == Others(entries[j..], x.key) + [x]
  {
    m := |Others(entries[..j], x.key)|;
    RoomySuffix(entries, j, x);
    if j == 0 {
      assert entries[..0] == [];
    } else {
      RoomySuffix(entries, j - 1, x);
      OthersGrow(entries, j - 1, j, x.key);
    }
  }

  lemma LongestAt(all: seq<Slot<Key, Entry>>, k: nat, m: nat, l: Limits)
    requires k < |all| && FitsIn(all[k..], l) && forall i :: 0 <= i < k ==> !FitsIn(all[i..], l)
    requires m < |all| && FitsIn(all[m..], l) && (m > 0 ==> !FitsIn(all[m - 1..], l))
    ensures k == m
  {
    if k < m { SuffixFits(all, k, m - 1, l); }
  }

  /** There is room from `j` on. */
  lemma RoomyFrom(entries: seq<Slot<Key, Entry>>, x: Slot<Key, Entry>, l: Limits) returns (j: nat)
    requires Guarded(l) && Size(x.value) <= l.maxEntryBytes
    ensures j <= |entries| && Roomy(entries, j, x, l) && (j > 0 ==> !Roomy(entries, j - 1, x, l))
    ensures forall i: nat :: i < |entries| ==> (Roomy(entries, i, x, l) <==> i >= j)
  {
    assert entries[|entries|..] == [] && [] + [x] == [x];
    LastFits(Cache(l, [x], 0, 0), x);
    assert [x][0..] == [x];
    j := FirstRoomy(entries, |entries|, x, l);
    forall i: nat | i < |entries| ensures Roomy(entries, i, x, l) <==> i >= j {
      if i >= j { RoomyStays(entries, j, i, x, l); }
      if i < j && Roomy(entries, i, x, l) { RoomyStays(entries, i, j - 1, x, l); }
    }
  }

  lemma StoreLeaves(c: Cache, x: Slot<Key, Entry>, gone: set<nat>)
    requires Counted(c) && Guarded(c.limits) && Size(x.value) <= c.limits.maxEntryBytes
    requires forall k: nat :: k < |c.entries| ==>
               (k in gone <==> c.entries[k].key == x.key || !Roomy(c.entries, k, x, c.limits))
    ensures Store(c, x.key, x.value.body, x.value.fetchedAt).entries == Remaining(c.entries, gone) + [x]
  {
    DropIsOthers(c, x.key);
    var k := StoreSurvivors(c, x.key, x.value.body, x.value.fetchedAt);
    var j := RoomyFrom(c.entries, x, c.limits);
    LongestIsFirstRoomy(c.entries, Others(c.entries, x.key) + [x], k, j, x, c.limits);
    OthersRemain(c.entries, gone, j, x.key);
  }

  lemma StoreStays(w: World, e: Event)
    requires Inv(w) && Guarded(w.cache.limits) && Stores(w, e)
    ensures Step(w, e).cache.entries == Remaining(w.cache.entries, Leaving(w, e)) + [Stored(w, e)]
  {
    assert RefreshOk(w, w.refreshes[e.refresh]);
    StoreLeaves(w.cache, Stored(w, e), Leaving(w, e));
  }

  predicate TooOld(c: Cache, x: Slot<Key, Entry>, now: real) {
    c.limits.ttl > 0.0 && now - x.value.fetchedAt >= c.limits.ttl
  }

  lemma SeekLeaves(c: Cache, key: Key, now: real, gone: set<nat>)
    requires Counted(c)
    requires forall k: nat :: k < |c.entries| ==> (k in gone <==> c.entries[k].key == key && TooOld(c, c.entries[k], now))
    ensures Lookup(c, key, now).0.entries == Remaining(c.entries, gone)
  {
    NoneFoundIff(c.entries, key);
    if Find(c.entries, key).None? {
      AllStay(c.entries, gone);
    } else {
      FoundAt(c.entries, key);
      FoundLeaves(c, key, now, gone);
    }
  }

  lemma FoundLeaves(c: Cache, key: Key, now: real, gone: set<nat>)
    requires Counted(c) && Find(c.entries, key).Some?
    requires forall k: nat :: k < |c.entries| && c.entries[k].key == key ==> c.entries[k].value == Find(c.entries, key).value
    requires forall k: nat :: k < |c.entries| ==> (k in gone <==> c.entries[k].key == key && TooOld(c, c.entries[k], now))
    ensures Lookup(c, key, now).0.entries == Remaining(c.entries, gone)
  {
    if TooOld(c, Slot(key, Find(c.entries, key).value), now) {
      DropIsOthers(c, key);
      OthersRemain(c.entries, gone, 0, key);
      assert c.entries[0..] == c.entries;
    } else {
      AllStay(c.entries, gone);
    }
  }

  lemma {:induction false} FoundAt(entries: seq<Slot<Key, Entry>>, key: Key)
    requires KeysDistinct(entries) && Find(entries, key).Some?
    ensures forall k :: 0 <= k < |entries| && entries[k].key == key ==> entries[k].value == Find(entries, key).value
    ensures Slot(key, Find(entries, key).value) in entries
  {
    if entries[0].key != key {
      FoundAt(entries[1..], key);
      assert forall k :: 0 < k < |entries| ==> entries[k] == entries[1..][k - 1];
    }
  }

  /**
   * One event, exactly: the entries that do not leave stay in their order, and a landing refresh that
   * stores puts its body behind them.
   */
  lemma EntriesAfter(w: World, e: Event)
    requires Inv(w) && Guarded(w.cache.limits) && Enabled(w, e)
    ensures Step(w, e).cache.entries
         == Remaining(w.cache.entries, Leaving(w, e)) + (if Stores(w, e) then [Stored(w, e)] else [])
  {
    if Stores(w, e) {
      StoreStays(w, e);
    } else if e.Seek? {
      SeekLeaves(w.cache, e.key, e.now, Leaving(w, e));
    } else if e.Lost? || e.ShutDown? {
      NoneStays(w.cache.entries, Leaving(w, e));
    } else {
      AllStay(w.cache.entries, Leaving(w, e));
      if e.Finish? { assert RefreshOk(w, w.refreshes[e.refresh]); }
    }
  }

  // ---- what a lookup is answered, over every run -------------------------------------------------------

  lemma {:induction false} RemainingHas(entries: seq<Slot<Key, Entry>>, gone: set<nat>, x: Slot<Key, Entry>)
    ensures x in Remaining(entries, gone) <==> exists k: nat :: k < |entries| && entries[k] == x && k !in gone
  {
    if entries != [] {
      var n := |entries| - 1;
      RemainingHas(entries[..n], gone, x);
      if k: nat :| k < |entries| && entries[k] == x && k !in gone {
        assert k < n ==> entries[..n][k] == x;
      }
    }
  }

  /** The event takes this slot out of the cache. */
  ghost predicate Loses(w: World, e: Event, x: Slot<Key, Entry>) {
    Enabled(w, e) && exists k: nat :: k < |w.cache.entries| && w.cache.entries[k] == x && Leaves(w, e, k)
  }

  ghost predicate StoresIt(w: World, e: Event, x: Slot<Key, Entry>) {
    Stores(w, e) && Stored(w, e) == x
  }

  lemma HappenHas(w: World, e: Event, x: Slot<Key, Entry>)
    requires Inv(w) && Guarded(w.cache.limits)
    ensures x in Happen(w, e).cache.entries <==> StoresIt(w, e, x) || (x in w.cache.entries && !Loses(w, e, x))
  {
    if Enabled(w, e) {
      EntriesAfter(w, e);
      RemainingHas(w.cache.entries, Leaving(w, e), x);
      if x in w.cache.entries {
        var k: nat :| k < |w.cache.entries| && w.cache.entries[k] == x;
        assert forall j: nat :: j < |w.cache.entries| && w.cache.entries[j] == x ==> j == k;
      }
    }
  }

  ghost predicate StoredAt(l: Limits, events: seq<Event>, n: nat, x: Slot<Key, Entry>) {
    n < |events| && StoresIt(After(l, events[..n]), events[n], x)
  }

  ghost predicate LostAt(l: Limits, events: seq<Event>, n: nat, x: Slot<Key, Entry>) {
    n < |events| && Loses(After(l, events[..n]), events[n], x)
  }

  /** The refresh landing at event `n` stored this slot, and no event after it, up to `k`, took it out. */
  ghost predicate HeldSince(l: Limits, events: seq<Event>, n: nat, k: nat, x: Slot<Key, Entry>) {
    n < k && StoredAt(l, events, n, x) && forall m: nat :: n < m < k ==> !LostAt(l, events, m, x)
  }

  ghost predicate Held(l: Limits, events: seq<Event>, k: nat, x: Slot<Key, Entry>) {
    exists n: nat :: HeldSince(l, events, n, k, x)
  }

  lemma HeldOn(l: Limits, events: seq<Event>, n: nat, k: nat, x: Slot<Key, Entry>)
    requires n < k
    ensures HeldSince(l, events, n, k + 1, x) <==> HeldSince(l, events, n, k, x) && !LostAt(l, events, k, x)
  {
  }

  lemma HeldFirst(l: Limits, events: seq<Event>, k: nat, x: Slot<Key, Entry>)
    ensures HeldSince(l, events, k, k + 1, x) <==> StoredAt(l, events, k, x)
  {
  }

  lemma HeldStep(l: Limits, events: seq<Event>, k: nat, x: Slot<Key, Entry>)
    ensures Held(l, events, k + 1, x) <==> StoredAt(l, events, k, x) || (Held(l, events, k, x) && !LostAt(l, events, k, x))
  {
    HeldFirst(l, events, k, x);
    forall n: nat | n < k
      ensures HeldSince(l, events, n, k + 1, x) <==> HeldSince(l, events, n, k, x) && !LostAt(l, events, k, x)
    {
      HeldOn(l, events, n, k, x);
    }
    if n: nat :| HeldSince(l, events, n, k, x) {
      assert HeldSince(l, events, n, k + 1, x) || LostAt(l, events, k, x);
    }
    var next := k + 1;
    if n: nat :| HeldSince(l, events, n, next, x) {
      assert n == k || HeldSince(l, events, n, k, x);
    }
  }

  lemma PrefixHappens(l: Limits, events: seq<Event>, n: nat)
    requires n < |events|
    ensures After(l, events[..n + 1]) == Happen(After(l, events[..n]), events[n])
  {
    assert events[..n + 1][..n] == events[..n];
  }

  lemma CachedNext(l: Limits, events: seq<Event>, n: nat, x: Slot<Key, Entry>)
    requires Guarded(l) && n < |events|
    ensures x in After(l, events[..n + 1]).cache.entries <==>
              StoredAt(l, events, n, x) || (x in After(l, events[..n]).cache.entries && !LostAt(l, events, n, x))
  {
    PrefixHappens(l, events, n);
    HappenHas(After(l, events[..n]), events[n], x);
  }

  /** In every interleaving the cache holds exactly what was stored and not taken out since. */
  lemma {:induction false} CachedIff(l: Limits, events: seq<Event>, k: nat, x: Slot<Key, Entry>)
    requires Guarded(l) && k <= |events|
    ensures x in After(l, events[..k]).cache.entries <==> Held(l, events, k, x)
  {
    if k == 0 {
      assert events[..0] == [];
    } else {
      CachedIff(l, events, k - 1, x);
      CachedNext(l, events, k - 1, x);
      HeldStep(l, events, k - 1, x);
    }
  }

  lemma AnsweredIff(c: Cache, key: Key, now: real, body: Body)
    requires Counted(c)
    ensures Lookup(c, key, now).1 == Some(body) <==>
              exists at: real :: Slot(key, Entry(body, at)) in c.entries && c.limits.ttl > 0.0 && now - at < c.limits.ttl
  {
    NoneFoundIff(c.entries, key);
    if Find(c.entries, key).Some? {
      FoundAt(c.entries, key);
      var v := Find(c.entries, key).value;
      assert v == Entry(v.body, v.fetchedAt);
    }
  }

  /**
   * In every interleaving a lookup is answered with `body` if and only if some refresh of that key,
   * begun after the last invalidation, landed with it less than the ttl ago and it has not been
   * replaced, evicted, dropped as too old or cleared since.
   */
  lemma ServedIff(l: Limits, events: seq<Event>, key: Key, now: real, body: Body)
    requires Guarded(l)
    ensures Lookup(After(l, events).cache, key, now).1 == Some(body) <==>
              exists at: real :: Held(l, events, |events|, Slot(key, Entry(body, at))) && l.ttl > 0.0 && now - at < l.ttl
  {
    assert events[..|events|] == events;
    AnsweredIff(After(l, events).cache, key, now, body);
    forall at: real
      ensures Slot(key, Entry(body, at)) in After(l, events).cache.entries <==> Held(l, events, |events|, Slot(key, Entry(body, at)))
    {
      CachedIff(l, events, |events|, Slot(key, Entry(body, at)));
    }
  }

  /** After any run: a refresh that begins, and lands with a list of allowed size before anything else happens, is served for the ttl. */
  lemma RefreshIsServed(l: Limits, events: seq<Event>, key: Key, body: Body, now: real, later: real)
    requires Guarded(l) && l.ttl > 0.0 && |body| <= l.maxEntryBytes && later - now < l.ttl
    ensures var w := After(l, events);
            var landed := Happen(Happen(w, Begin(key)), Finish(|w.refreshes|, SomeBody(body, true), now));
            Lookup(landed.cache, key, later).1 == Some(body)
  {
    var w := After(l, events);
    var w1 := Happen(w, Begin(key));
    var e := Finish(|w.refreshes|, SomeBody(body, true), now);
    HappenKeeps(w, Begin(key));
    HappenKeeps(w1, e);
    assert w1.refreshes[|w.refreshes|] == Refresh(key, w.cache.generation, w.moment, None);
    var x := Slot(key, Entry(body, now));
    assert StoresIt(w1, e, x);
    HappenHas(w1, e, x);
    AnsweredIff(Happen(w1, e).cache, key, later, body);
  }

  lemma LandsIff(w: World, r: nat, fetched: Fetched, now: real)
    requires Inv(w) && Guarded(w.cache.limits) && Enabled(w, Finish(r, fetched, now))
    ensures var refresh, c := w.refreshes[r], Step(w, Finish(r, fetched, now)).cache;
            if fetched.SomeBody? && fetched.isList && |fetched.body| <= w.cache.limits.maxEntryBytes && refresh.begun >= w.cleared
            then c.entries != [] && c.entries[|c.entries| - 1] == Slot(refresh.key, Entry(fetched.body, now))
            else c == w.cache
  {
    assert RefreshOk(w, w.refreshes[r]);
    if Keeps(w.cache, w.refreshes[r].captured, fetched) {
      var k := StoreSurvivors(w.cache, w.refreshes[r].key, fetched.body, now);
    }
  }

  /** In every interleaving under the guards: a landing refresh stores its body exactly when it is a list of allowed size begun after the last invalidation. */
  lemma StoredIffBegunAfterInvalidation(l: Limits, events: seq<Event>, r: nat, fetched: Fetched, now: real)
    requires Guarded(l) && Enabled(After(l, events), Finish(r, fetched, now))
    ensures var w := After(l, events);
            var refresh, w' := w.refreshes[r], Step(w, Finish(r, fetched, now));
            if fetched.SomeBody? && fetched.isList && |fetched.body| <= l.maxEntryBytes && refresh.begun >= w.cleared
            then w'.cache.entries != [] && w'.cache.entries[|w'.cache.entries| - 1] == Slot(refresh.key, Entry(fetched.body, now))
            else w'.cache == w.cache
  {
    LandsIff(After(l, events), r, fetched, now);
  }
}
