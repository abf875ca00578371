/** Histories of observe and commit over all the caches of one process: no generation ever names two entries. */
module SinceRuns {
  import opened Prelude
  import opened Base64Url
  import opened SinceModel
  import opened OrderedDict
  import Utf8

  // ---- one cache ------------------------------------------------------------------------

  /** Everything `Sound` asks for except the caps. */
  ghost predicate Counted(c: Cache) {
    && KeysDistinct(c.slots)
    && c.bytes == Sum(c.slots, Retained)
    && (!c.limits.enabled ==> c.slots == [])
    && forall key :: Find(c.slots, key).Some? ==> Retained(Find(c.slots, key).value) <= c.limits.maxEntryBytes
  }

  /** Exact accounting, within both caps (an empty cache has nothing left to give up), and only small entries. */
  ghost predicate Sound(c: Cache) {
    Counted(c) && (c.slots != [] ==> Fits(c.slots, CapsOf(c.limits), Retained))
  }

  /** Nothing is invented or changed: what `d` finds, `c` finds. */
  ghost predicate Within(d: Cache, c: Cache) {
    forall key :: Find(d.slots, key).Some? ==> Find(d.slots, key) == Find(c.slots, key)
  }

  /** Moving an entry to the recently used end loses and changes nothing. */
  lemma TouchFacts(c: Cache, key: Key, other: Key)
    requires KeysDistinct(c.slots)
    ensures var d := Touch(c, key);
            && KeysDistinct(d.slots) && Sum(d.slots, Retained) == Sum(c.slots, Retained) && |d.slots| == |c.slots|
            && Find(d.slots, other) == Find(c.slots, other)
  {
    var found := Find(c.slots, key);
    if found.Some? {
      var rest, slot := Remove(c.slots, key), Slot(key, found.value);
      RemoveKeys(c.slots, key);
      RemoveSum(c.slots, key, Retained);
      AppendDistinct(rest, slot);
      SumAppend(rest, slot, Retained);
      FindConcat(rest, [slot], other);
      FindOne(slot, other);
      NoneFoundIff(rest, key);
      if other != key { RemoveOthers(c.slots, key, other); }
    }
  }

  lemma TouchSound(c: Cache, key: Key)
    requires Sound(c)
    ensures Sound(Touch(c, key)) && Within(Touch(c, key), c)
  {
    TouchFacts(c, key, key);
    var d := Touch(c, key);
    forall k ensures Find(d.slots, k) == Find(c.slots, k) {
      TouchFacts(c, key, k);
    }
  }

  lemma DropSound(c: Cache, key: Key)
    requires Sound(c)
    ensures Sound(Drop(c, key)) && HasNo(Drop(c, key).slots, key) && Find(Drop(c, key).slots, key).None?
    ensures forall other :: other != key ==> Find(Drop(c, key).slots, other) == Find(c.slots, other)
  {
    RemoveKeys(c.slots, key);
    RemoveSum(c.slots, key, Retained);
    NoneFoundIff(c.slots, key);
    NoneFoundIff(Drop(c, key).slots, key);
    forall other | other != key ensures Find(Drop(c, key).slots, other) == Find(c.slots, other) {
      RemoveOthers(c.slots, key, other);
    }
  }

  lemma EvictSound(c: Cache)
    requires Counted(c)
    ensures Sound(EvictOver(c)) && Within(EvictOver(c), c)
  {
    var k := EvictKeepsLongestSuffix(c.slots, c.bytes, CapsOf(c.limits), Retained);
    forall key | Find(c.slots[k..], key).Some? ensures Find(c.slots[k..], key) == Find(c.slots, key) {
      FindSuffix(c.slots, k, key);
    }
  }

  lemma StoreSound(c: Cache, key: Key, entry: Entry)
    requires Sound(c) && c.limits.enabled && Retained(entry) <= c.limits.maxEntryBytes
    ensures Sound(Store(c, key, entry)) && Store(c, key, entry).limits == c.limits
    ensures forall k :: Find(Store(c, key, entry).slots, k).Some? ==>
              Find(Store(c, key, entry).slots, k) == if k == key then Some(entry) else Find(c.slots, k)
  {
    DropSound(c, key);
    var d, slot := Drop(c, key), Slot(key, entry);
    var e := d.(slots := d.slots + [slot], bytes := d.bytes + Retained(entry));
    forall k ensures Find(e.slots, k) == if k == key then Some(entry) else Find(c.slots, k) {
      FindConcat(d.slots, [slot], k);
      FindOne(slot, k);
    }
    AppendDistinct(d.slots, slot);
    SumAppend(d.slots, slot, Retained);
    EvictSound(e);
  }

  // ---- a process with several caches ----------------------------------------------------------

  /** An entry as it was published: by which cache, under which key. */
  datatype Record = Record(cache: nat, key: Key, entry: Entry)

  /** What a request saw before it went upstream. */
  datatype Snapshot = Snapshot(cache: nat, key: Key, entry: Option<Entry>)

  /** `published` and `held` are history: every entry ever stored, every observation ever made. */
  datatype World = World(caches: seq<Cache>, next: nat, published: seq<Record>, held: seq<Snapshot>)

  datatype Event =
    | Look(cache: nat, key: Key)
    | Read(cache: nat, key: Key)
    | Publish(holder: nat, items: seq<Byte>, prints: seq<(string, string)>, cacheable: bool)

  ghost predicate Enabled(w: World, e: Event) {
    match e
    case Look(i, _) => i < |w.caches|
    case Read(i, _) => i < |w.caches|
    case Publish(h, _, _, _) => h < |w.held| && w.held[h].cache < |w.caches|
  }

  ghost function CommitOf(w: World, e: Event): Committed
    requires e.Publish? && Enabled(w, e)
  {
    var s := w.held[e.holder];
    Commit(w.caches[s.cache], w.next, s.key, s.entry, e.items, e.prints, e.cacheable)
  }

  /** An event that does not apply changes nothing. */
  ghost function Step(w: World, e: Event): World {
    if Enabled(w, e) then Happen(w, e) else w
  }

  ghost function Happen(w: World, e: Event): World
    requires Enabled(w, e)
  {
    match e
    case Look(i, key) =>
      var (c, seen) := Observe(w.caches[i], key);
      w.(caches := w.caches[i := c], held := w.held + [Snapshot(i, key, seen)])
    case Read(i, key) => w.(caches := w.caches[i := Observe(w.caches[i], key).0])
    case Publish(h, items, prints, _) =>
      var s, r := w.held[h], CommitOf(w, e);
      World(
        w.caches[s.cache := r.cache], r.next,
        if r.next == w.next then w.published else w.published + [Record(s.cache, s.key, Entry(items, prints, r.next))],
        w.held)
  }

  ghost function After(w: World, events: seq<Event>): World {
    if events == [] then w else Step(After(w, events[..|events| - 1]), events[|events| - 1])
  }

  /** All caches of the process are new. */
  ghost predicate Start(w: World) {
    && w.next == 0 && w.published == [] && w.held == []
    && forall i :: 0 <= i < |w.caches| ==> w.caches[i].slots == [] && w.caches[i].bytes == 0
  }

  /** The generation of `e` names `e`, published by that cache under that key, and nothing else. */
  ghost predicate Named(w: World, i: nat, key: Key, e: Entry) {
    1 <= e.generation <= |w.published| && w.published[e.generation - 1] == Record(i, key, e)
  }

  ghost predicate CacheNamed(w: World, i: nat)
    requires i < |w.caches|
  {
    forall key :: Find(w.caches[i].slots, key).Some? ==> Named(w, i, key, Find(w.caches[i].slots, key).value)
  }

  ghost predicate HeldNamed(w: World, h: nat)
    requires h < |w.held|
  {
    var s := w.held[h];
    s.cache < |w.caches| && (s.entry.Some? ==> Named(w, s.cache, s.key, s.entry.value))
  }

  ghost predicate Inv(w: World) {
    && |w.published| == w.next
    && (forall g :: 0 <= g < |w.published| ==> w.published[g].entry.generation == g + 1)
    && (forall i :: 0 <= i < |w.caches| ==> Sound(w.caches[i]) && CacheNamed(w, i))
    && (forall h :: 0 <= h < |w.held| ==> HeldNamed(w, h))
  }

  lemma StartHolds(w: World)
    requires Start(w)
    ensures Inv(w)
  {
  }

  /** Publishing one more entry does not change what earlier generations name. */
  lemma NamesGrow(w: World, v: World, i: nat, key: Key, e: Entry)
    requires Named(w, i, key, e) && |w.published| <= |v.published| && v.published[..|w.published|] == w.published
    ensures Named(v, i, key, e)
  {
    assert v.published[e.generation - 1] == v.published[..|w.published|][e.generation - 1];
  }

  lemma CommitFacts(c: Cache, next: nat, key: Key, observed: Option<Entry>, items: seq<Byte>, prints: seq<(string, string)>, cacheable: bool)
    requires Sound(c)
    ensures var r := Commit(c, next, key, observed, items, prints, cacheable);
            && Sound(r.cache) && r.cache.limits == c.limits
            && (r.next == next || r.next == next + 1)
            && (r.next == next ==> Within(r.cache, c))
            && (r.next > next ==> forall k :: Find(r.cache.slots, k).Some? ==>
                  Find(r.cache.slots, k) == if k == key then Some(Entry(items, prints, next + 1)) else Find(c.slots, k))
  {
    TouchSound(c, key);
    DropSound(c, key);
    if c.limits.enabled && RetainedBy(items, prints) <= c.limits.maxEntryBytes {
      StoreSound(c, key, Entry(items, prints, next + 1));
    }
  }

  /** `v` extends the history of `w`, and cache `j` found nothing new except possibly the entry just published. */
  lemma CarryCache(w: World, v: World, j: nat)
    requires |w.caches| == |v.caches| && j < |w.caches| && CacheNamed(w, j)
    requires |w.published| <= |v.published| && v.published[..|w.published|] == w.published
    requires forall k :: Find(v.caches[j].slots, k).Some? ==>
               Find(v.caches[j].slots, k) == Find(w.caches[j].slots, k) || Named(v, j, k, Find(v.caches[j].slots, k).value)
    ensures CacheNamed(v, j)
  {
    forall key | Find(v.caches[j].slots, key).Some? ensures Named(v, j, key, Find(v.caches[j].slots, key).value) {
      if Find(v.caches[j].slots, key) == Find(w.caches[j].slots, key) {
        NamesGrow(w, v, j, key, Find(w.caches[j].slots, key).value);
      }
    }
  }

  lemma LookKeeps(w: World, e: Event)
    requires Inv(w) && Enabled(w, e) && !e.Publish?
    ensures Inv(Happen(w, e))
  {
    var v := Happen(w, e);
    var c := w.caches[e.cache];
    TouchSound(c, e.key);
    assert v.published[..|w.published|] == w.published;
    forall j | 0 <= j < |v.caches| ensures Sound(v.caches[j]) && CacheNamed(v, j) {
      CarryCache(w, v, j);
    }
    forall h | 0 <= h < |v.held| ensures HeldNamed(v, h) {
      if h < |w.held| { assert HeldNamed(w, h) && v.held[h] == w.held[h]; }
    }
  }

  lemma PublishKeeps(w: World, e: Event)
    requires Inv(w) && Enabled(w, e) && e.Publish?
    ensures Inv(Happen(w, e))
  {
    var v, s, r := Happen(w, e), w.held[e.holder], CommitOf(w, e);
    CommitFacts(w.caches[s.cache], w.next, s.key, s.entry, e.items, e.prints, e.cacheable);
    assert v.published[..|w.published|] == w.published;
    forall j | 0 <= j < |v.caches| ensures Sound(v.caches[j]) && CacheNamed(v, j) {
      CarryCache(w, v, j);
    }
    forall h | 0 <= h < |v.held| ensures HeldNamed(v, h) {
      assert HeldNamed(w, h);
      if w.held[h].entry.Some? { NamesGrow(w, v, w.held[h].cache, w.held[h].key, w.held[h].entry.value); }
    }
  }

  lemma StepKeeps(w: World, e: Event)
    requires Inv(w)
    ensures Inv(Step(w, e))
  {
    if Enabled(w, e) {
      if e.Publish? { PublishKeeps(w, e); } else { LookKeeps(w, e); }
    }
  }

  lemma {:induction false} RunKeeps(w: World, events: seq<Event>)
    requires Start(w)
    ensures Inv(After(w, events)) && |After(w, events).caches| == |w.caches|
  {
    if events == [] {
      StartHolds(w);
    } else {
      RunKeeps(w, events[..|events| - 1]);
      StepKeeps(After(w, events[..|events| - 1]), events[|events| - 1]);
    }
  }

  // ---- what every history guarantees ---------------------------------------------------------------

  /** In every history the byte total is exact, both caps hold and every retained entry is within the entry cap. */
  lemma Accounting(w: World, events: seq<Event>, i: nat)
    requires Start(w) && i < |After(w, events).caches|
    ensures Sound(After(w, events).caches[i])
  {
    RunKeeps(w, events);
  }

  /**
   * No ABA: comparing generations compares entries. After any history, a commit that finds the
   * generation it observed finds the very entry it observed.
   */
  lemma NoAba(w: World, events: seq<Event>, h: nat)
    requires Start(w) && h < |After(w, events).held|
    ensures var v := After(w, events);
            var s := v.held[h];
            && s.cache < |v.caches|
            && (SameObservation(Find(v.caches[s.cache].slots, s.key), s.entry)
                <==> Find(v.caches[s.cache].slots, s.key) == s.entry)
  {
    RunKeeps(w, events);
    var v := After(w, events);
    assert HeldNamed(v, h) && CacheNamed(v, v.held[h].cache);
  }

  /** A commit takes an entry away from its own key only if its caller observed exactly that entry. */
  lemma ReplacesOnlyObserved(w: World, events: seq<Event>, e: Event, before: Entry)
    requires Start(w) && e.Publish? && Enabled(After(w, events), e)
    requires var v := After(w, events); var s := v.held[e.holder]; Find(v.caches[s.cache].slots, s.key) == Some(before)
    ensures var v := After(w, events); var s := v.held[e.holder];
            Find(Step(v, e).caches[s.cache].slots, s.key) != Some(before) ==> s.entry == Some(before)
  {
    RunKeeps(w, events);
    NoAba(w, events, e.holder);
    var v := After(w, events);
    var s := v.held[e.holder];
    TouchFacts(v.caches[s.cache], s.key, s.key);
  }

  /** Two entries anywhere in the process, now or observed earlier, with the same generation are the same publication. */
  lemma GenerationNamesOneEntry(w: World, events: seq<Event>, i: nat, key: Key, h: nat)
    requires Start(w)
    requires var v := After(w, events); i < |v.caches| && h < |v.held|
    requires var v := After(w, events); Find(v.caches[i].slots, key).Some? && v.held[h].entry.Some?
    requires var v := After(w, events); Find(v.caches[i].slots, key).value.generation == v.held[h].entry.value.generation
    ensures var v := After(w, events);
            v.held[h] == Snapshot(i, key, Find(v.caches[i].slots, key))
  {
    RunKeeps(w, events);
    var v := After(w, events);
    assert HeldNamed(v, h) && CacheNamed(v, i);
  }

  // ---- what an observation sees ---------------------------------------------------------------------

  /** Event `e` is a commit to cache `i`. */
  ghost predicate CommitsTo(v: World, e: Event, i: nat) {
    e.Publish? && Enabled(v, e) && v.held[e.holder].cache == i
  }

  /**
   * Read off the history: the entry of the last commit stored under this cache and key, unless a
   * commit since then, its own or another key's, left the cache without that key.
   */
  ghost function Standing(w: World, events: seq<Event>, i: nat, key: Key): Option<Entry> {
    if events == [] then None
    else
      var before, e := events[..|events| - 1], events[|events| - 1];
      var v := After(w, before);
      if !CommitsTo(v, e, i) then Standing(w, before, i, key)
      else
        var r := CommitOf(v, e);
        if HasNo(r.cache.slots, key) then None
        else if v.held[e.holder].key == key && r.next > v.next then Some(Entry(e.items, e.prints, r.next))
        else Standing(w, before, i, key)
  }

  lemma CommitKeepsOthers(v: World, e: Event, key: Key)
    requires Inv(v) && e.Publish? && Enabled(v, e)
    ensures var s, r := v.held[e.holder], CommitOf(v, e);
            var found := Find(r.cache.slots, key);
            && (HasNo(r.cache.slots, key) <==> found.None?)
            && (found.Some? ==> found == if s.key == key && r.next > v.next then Some(Entry(e.items, e.prints, r.next))
                                         else Find(v.caches[s.cache].slots, key))
  {
    var s := v.held[e.holder];
    CommitFacts(v.caches[s.cache], v.next, s.key, s.entry, e.items, e.prints, e.cacheable);
    NoneFoundIff(CommitOf(v, e).cache.slots, key);
  }

  lemma ObserveKeeps(c: Cache, key: Key, other: Key)
    requires Sound(c)
    ensures Find(Observe(c, key).0.slots, other) == Find(c.slots, other)
  {
    TouchFacts(c, key, other);
  }

  /** After every history each cache holds, under each key, exactly what the history left standing. */
  lemma {:induction false} CacheIsStanding(w: World, events: seq<Event>, i: nat, key: Key)
    requires Start(w) && i < |w.caches|
    ensures i < |After(w, events).caches| && Find(After(w, events).caches[i].slots, key) == Standing(w, events, i, key)
  {
    RunKeeps(w, events);
    if events != [] {
      var before, e := events[..|events| - 1], events[|events| - 1];
      var v := After(w, before);
      CacheIsStanding(w, before, i, key);
      RunKeeps(w, before);
      if CommitsTo(v, e, i) {
        CommitKeepsOthers(v, e, key);
      } else if Enabled(v, e) && !e.Publish? && e.cache == i {
        ObserveKeeps(v.caches[i], e.key, key);
      }
    }
  }

  /** An observation records exactly what stands; a disabled cache shows nothing. */
  lemma LookSees(w: World, events: seq<Event>, i: nat, key: Key)
    requires Start(w) && i < |w.caches|
    ensures var v := After(w, events);
            && i < |v.caches|
            && Step(v, Look(i, key)).held
               == v.held + [Snapshot(i, key, if v.caches[i].limits.enabled then Standing(w, events, i, key) else None)]
  {
    CacheIsStanding(w, events, i, key);
  }

  // ---- what a commit does -----------------------------------------------------------------------------

  /** What stands under the key a commit is for. */
  ghost function StandingFor(w: World, events: seq<Event>, e: Event): Option<Entry>
    requires e.Publish? && Enabled(After(w, events), e)
  {
    var s := After(w, events).held[e.holder];
    Standing(w, events, s.cache, s.key)
  }

  /**
   * After any history, in an enabled cache: content that already stands is reported and kept; other
   * content, if something else stands than was observed, loses and changes nothing; if exactly that
   * stands, it takes the key, unless it may not be cached or is too large, and then the key is left
   * empty. `casLoser` says whether something else stands than was observed.
   */
  lemma CommitLaw(w: World, events: seq<Event>, e: Event)
    requires Start(w) && e.Publish? && Enabled(After(w, events), e)
    requires After(w, events).caches[After(w, events).held[e.holder].cache].limits.enabled
    ensures var v := After(w, events);
            var s, r, stands := v.held[e.holder], CommitOf(v, e), StandingFor(w, events, e);
            var c := v.caches[s.cache];
            var stored := Entry(e.items, e.prints, v.next + 1);
            if stands.Some? && stands.value.items == e.items then
              r.outcome == Outcome(stands, stands != s.entry, false, false) && r.next == v.next && Find(r.cache.slots, s.key) == stands
            else if stands != s.entry then
              r.outcome == Outcome(stands, true, true, false) && r.next == v.next && r.cache == c
            else if !e.cacheable || RetainedBy(e.items, e.prints) > c.limits.maxEntryBytes then
              r.outcome == Outcome(None, false, true, true) && r.next == v.next && Find(r.cache.slots, s.key).None?
            else
              && r.next == v.next + 1
              && (if Find(r.cache.slots, s.key).Some?
                  then r.outcome == Outcome(Some(stored), false, false, false) && Find(r.cache.slots, s.key) == Some(stored)
                  else r.outcome == Outcome(None, false, true, true))
  {
    var v := After(w, events);
    var s := v.held[e.holder];
    RunKeeps(w, events);
    CacheIsStanding(w, events, s.cache, s.key);
    NoAba(w, events, e.holder);
    CommitKeepsOthers(v, e, s.key);
    TouchFacts(v.caches[s.cache], s.key, s.key);
    DropSound(v.caches[s.cache], s.key);
  }

  /** A disabled cache never holds anything and every commit to it is bypassed. */
  lemma DisabledLaw(w: World, events: seq<Event>, e: Event)
    requires Start(w) && e.Publish? && Enabled(After(w, events), e)
    requires !After(w, events).caches[After(w, events).held[e.holder].cache].limits.enabled
    ensures CommitOf(After(w, events), e).cache.slots == [] && CommitOf(After(w, events), e).outcome == Outcome(None, false, true, true)
  {
    RunKeeps(w, events);
  }

  lemma LastFound(slots: seq<Slot<Key, Entry>>, slot: Slot<Key, Entry>)
    requires slots != [] && slots[|slots| - 1] == slot && KeysDistinct(slots)
    ensures Find(slots, slot.key) == Some(slot.value)
  {
    var n := |slots| - 1;
    assert slots == slots[..n] + [slot];
    FindConcat(slots[..n], [slot], slot.key);
    FindOne(slot, slot.key);
    NoneFoundIff(slots[..n], slot.key);
  }

  /** A store puts the slot at the recent end and then gives up `k` from the other end, as few as the caps allow. */
  lemma StoreSlots(c: Cache, key: Key, entry: Entry, all: seq<Slot<Key, Entry>>) returns (k: nat)
    requires Sound(c) && all == Remove(c.slots, key) + [Slot(key, entry)]
    ensures k <= |all| && Store(c, key, entry).slots == all[k..] && KeysDistinct(all)
    ensures forall i :: 0 <= i < k ==> !Fits(all[i..], CapsOf(c.limits), Retained)
  {
    var d := DroppedSlots(c, key);
    k := AppendedSlots(d, Slot(key, entry), all);
  }

  lemma DroppedSlots(c: Cache, key: Key) returns (d: Cache)
    requires Sound(c)
    ensures d == Drop(c, key) && d.slots == Remove(c.slots, key) && d.limits == c.limits
    ensures KeysDistinct(d.slots) && HasNo(d.slots, key) && d.bytes == Sum(d.slots, Retained)
  {
    d := Drop(c, key);
    DropSound(c, key);
    NoneFoundIff(c.slots, key);
  }

  lemma AppendedSlots(d: Cache, slot: Slot<Key, Entry>, all: seq<Slot<Key, Entry>>) returns (k: nat)
    requires KeysDistinct(d.slots) && HasNo(d.slots, slot.key) && d.bytes == Sum(d.slots, Retained) && all == d.slots + [slot]
    ensures k <= |all| && KeysDistinct(all)
    ensures EvictOver(d.(slots := all, bytes := d.bytes + Retained(slot.value))).slots == all[k..]
    ensures forall i :: 0 <= i < k ==> !Fits(all[i..], CapsOf(d.limits), Retained)
  {
    SumAppend(d.slots, slot, Retained);
    AppendDistinct(d.slots, slot);
    k := EvictKeepsLongestSuffix(all, d.bytes + Retained(slot.value), CapsOf(d.limits), Retained);
  }

  lemma StoredFound(c: Cache, key: Key, entry: Entry, k: nat)
    requires Sound(c)
    requires var all := Remove(c.slots, key) + [Slot(key, entry)];
             k <= |all| && Store(c, key, entry).slots == all[k..] && KeysDistinct(all)
    ensures Find(Store(c, key, entry).slots, key) == if k <= |Remove(c.slots, key)| then Some(entry) else None
  {
    var all := Remove(c.slots, key) + [Slot(key, entry)];
    if k < |all| { LastFound(all[k..], Slot(key, entry)); }
  }

  /** If it fits at all on its own, what a winning commit stores stays. */
  lemma StoredStays(c: Cache, key: Key, entry: Entry)
    requires Sound(c) && c.limits.maxEntries >= 1 && Retained(entry) <= c.limits.maxBytes
    ensures Find(Store(c, key, entry).slots, key) == Some(entry)
  {
    var rest, slot := Remove(c.slots, key), Slot(key, entry);
    var k := StoreSlots(c, key, entry, rest + [slot]);
    OneFits(rest, slot, CapsOf(c.limits));
    StoredFound(c, key, entry, k);
  }

  lemma OneFits(rest: seq<Slot<Key, Entry>>, slot: Slot<Key, Entry>, caps: Caps)
    requires caps.entries >= 1 && Retained(slot.value) <= caps.bytes
    ensures Fits((rest + [slot])[|rest|..], caps, Retained)
  {
    assert (rest + [slot])[|rest|..] == [slot];
    SumAppend([], slot, Retained);
    assert [] + [slot] == [slot];
  }

  // ---- least recently used ----------------------------------------------------------------------------

  /** The event uses this key of cache `i`: it finds the entry, or a commit reports or stores it. */
  ghost predicate Uses(v: World, e: Event, i: nat, key: Key) {
    if CommitsTo(v, e, i) then
      v.held[e.holder].key == key && CommitOf(v, e).outcome.entry.Some? && !CommitOf(v, e).outcome.omitted
    else
      !e.Publish? && Enabled(v, e) && e.cache == i && e.key == key
      && v.caches[i].limits.enabled && Find(v.caches[i].slots, key).Some?
  }

  ghost function LastUse(w: World, events: seq<Event>, i: nat, key: Key): int {
    if events == [] then -1
    else
      var n := |events| - 1;
      if Uses(After(w, events[..n]), events[n], i, key) then n else LastUse(w, events[..n], i, key)
  }

  lemma {:induction false} LastUseBound(w: World, events: seq<Event>, i: nat, key: Key)
    ensures LastUse(w, events, i, key) < |events|
  {
    if events != [] { LastUseBound(w, events[..|events| - 1], i, key); }
  }

  /** In slot order the keys were last used earlier and earlier towards the front. */
  ghost predicate ByRecency(w: World, events: seq<Event>, i: nat, slots: seq<Slot<Key, Entry>>) {
    SortedBy(slots, (key: Key) => LastUse(w, events, i, key))
  }

  /** What happens to the slots of a cache at one event, as a list; `gone` of them leave from the front. */
  datatype Change = Same | Dropped(key: Key) | Moved(key: Key) | Added(key: Key, entry: Entry, gone: nat)

  ghost predicate Changes(before: seq<Slot<Key, Entry>>, after: seq<Slot<Key, Entry>>, ch: Change) {
    match ch
    case Same => after == before
    case Dropped(key) => after == Remove(before, key)
    case Moved(key) => Find(before, key).Some? && after == Remove(before, key) + [Slot(key, Find(before, key).value)]
    case Added(key, entry, gone) =>
      var all := Remove(before, key) + [Slot(key, entry)];
      gone <= |all| && after == all[gone..]
  }

  /** The change makes `key` the most recently used. */
  ghost predicate Freshens(before: seq<Slot<Key, Entry>>, ch: Change, key: Key) {
    (ch.Moved? && key == ch.key) || (ch.Added? && key == ch.key && ch.gone <= |Remove(before, ch.key)|)
  }

  lemma CommitChange(c: Cache, next: nat, key: Key, observed: Option<Entry>, items: seq<Byte>, prints: seq<(string, string)>, cacheable: bool)
    returns (ch: Change)
    requires Sound(c)
    ensures var r := Commit(c, next, key, observed, items, prints, cacheable);
            && Changes(c.slots, r.cache.slots, ch) && (!ch.Same? ==> ch.key == key)
            && (Freshens(c.slots, ch, key) <==> r.outcome.entry.Some? && !r.outcome.omitted)
  {
    var current := Find(c.slots, key);
    var same := current.Some? && current.value.items == items;
    if !c.limits.enabled || (!SameObservation(current, observed) && !same) {
      ch := Same;
    } else if same {
      ch := Moved(key);
    } else if !cacheable || RetainedBy(items, prints) > c.limits.maxEntryBytes {
      NoneFoundIff(c.slots, key);
      ch := Dropped(key);
    } else {
      var k := StoreSlots(c, key, Entry(items, prints, next + 1), Remove(c.slots, key) + [Slot(key, Entry(items, prints, next + 1))]);
      StoredFound(c, key, Entry(items, prints, next + 1), k);
      ch := Added(key, Entry(items, prints, next + 1), k);
    }
  }

  lemma ObserveChange(c: Cache, key: Key) returns (ch: Change)
    ensures Changes(c.slots, Observe(c, key).0.slots, ch)
    ensures ch == if c.limits.enabled && Find(c.slots, key).Some? then Moved(key) else Same
  {
    ch := if c.limits.enabled && Find(c.slots, key).Some? then Moved(key) else Same;
  }

  /** If the order said when each key was last used before the change, it does so after it. */
  lemma ChangeSorted(before: seq<Slot<Key, Entry>>, after: seq<Slot<Key, Entry>>, ch: Change, f: Key -> int, g: Key -> int, now: int)
    requires KeysDistinct(before) && Changes(before, after, ch) && SortedBy(before, f)
    requires forall key :: f(key) < now && g(key) == if Freshens(before, ch, key) then now else f(key)
    ensures SortedBy(after, g)
  {
    match ch
    case Same =>
    case Dropped(key) => RemoveSorted(before, key, f);
    case Moved(key) =>
      RemoveSorted(before, key, f);
      RemoveKeys(before, key);
      AppendSorted(Remove(before, key), Slot(key, Find(before, key).value), f, g);
    case Added(key, entry, gone) =>
      RemoveSorted(before, key, f);
      RemoveKeys(before, key);
      if gone <= |Remove(before, key)| {
        AppendSorted(Remove(before, key), Slot(key, entry), f, g);
        SuffixSorted(Remove(before, key) + [Slot(key, entry)], gone, g);
      }
  }

  lemma ChangeByRecency(w: World, events: seq<Event>, i: nat, before: seq<Slot<Key, Entry>>, after: seq<Slot<Key, Entry>>, ch: Change)
    requires events != [] && KeysDistinct(before) && Changes(before, after, ch)
    requires ByRecency(w, events[..|events| - 1], i, before)
    requires var v, e := After(w, events[..|events| - 1]), events[|events| - 1];
             forall key :: Uses(v, e, i, key) <==> Freshens(before, ch, key)
    ensures ByRecency(w, events, i, after)
  {
    var f, g := (key: Key) => LastUse(w, events[..|events| - 1], i, key), (key: Key) => LastUse(w, events, i, key);
    forall key ensures f(key) < |events| - 1 && g(key) == if Freshens(before, ch, key) then |events| - 1 else f(key) {
      LastUseBound(w, events[..|events| - 1], i, key);
    }
    ChangeSorted(before, after, ch, f, g, |events| - 1);
  }

  /** In every history the slots of every cache stand in the order of their last use: the front, where eviction takes, is the least recently used. */
  lemma {:induction false} OldestInFront(w: World, events: seq<Event>, i: nat)
    requires Start(w) && i < |w.caches|
    ensures i < |After(w, events).caches| && ByRecency(w, events, i, After(w, events).caches[i].slots)
  {
    RunKeeps(w, events);
    if events != [] {
      var before, e := events[..|events| - 1], events[|events| - 1];
      var v := After(w, before);
      OldestInFront(w, before, i);
      RunKeeps(w, before);
      var c := v.caches[i];
      var ch := Same;
      if CommitsTo(v, e, i) {
        var s := v.held[e.holder];
        ch := CommitChange(c, v.next, s.key, s.entry, e.items, e.prints, e.cacheable);
      } else if !e.Publish? && Enabled(v, e) && e.cache == i {
        ch := ObserveChange(c, e.key);
      }
      ChangeByRecency(w, events, i, c.slots, After(w, events).caches[i].slots, ch);
    }
  }

  // ---- what an entry weighs ---------------------------------------------------------------------------

  function Ids(prints: seq<(string, string)>): string {
    if prints == [] then "" else prints[0].0 + Ids(prints[1..])
  }

  lemma {:induction false} EncodeConcat(a: string, b: string)
    ensures Utf8.Encode(a + b) == Utf8.Encode(a) + Utf8.Encode(b)
  {
    if a == "" {
      assert a + b == b;
    } else {
      EncodeConcat(a[1..], b);
      assert (a + b)[1..] == a[1..] + b;
      var x, y, z := Utf8.EncodeChar(a[0]), Utf8.Encode(a[1..]), Utf8.Encode(b);
      assert Utf8.Encode(a + b) == x + (y + z);
      assert x + (y + z) == x + y + z;
    }
  }

  /** An entry is charged its bytes, the bytes of all its message ids, and 96 for each of them. */
  lemma {:induction false} Charge(items: seq<Byte>, prints: seq<(string, string)>)
    ensures RetainedBy(items, prints) == |items| + |Utf8.Encode(Ids(prints))| + 96 * |prints|
  {
    if prints != [] {
      Charge(items, prints[1..]);
      EncodeConcat(prints[0].0, Ids(prints[1..]));
    }
  }
}
