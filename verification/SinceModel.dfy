/** The message-snapshot cache on values: an LRU with compare-and-swap commits and byte caps. */
module SinceModel {
  import opened Prelude
  import opened Base64Url
  import opened OrderedDict
  import Utf8

  datatype Key = Key(sid: string, cqHash: string)

  /** `prints` is the fingerprint dictionary, in insertion order. */
  datatype Entry = Entry(items: seq<Byte>, prints: seq<(string, string)>, generation: nat)

  function PrintBytes(prints: seq<(string, string)>): nat {
    if prints == [] then 0 else |Utf8.Encode(prints[0].0)| + 32 + 64 + PrintBytes(prints[1..])
  }

  function RetainedBy(items: seq<Byte>, prints: seq<(string, string)>): nat {
    |items| + PrintBytes(prints)
  }

  function Retained(e: Entry): nat {
    RetainedBy(e.items, e.prints)
  }

  datatype Limits = Limits(enabled: bool, maxEntries: int, maxBytes: int, maxEntryBytes: int, epoch: string)

  /** `slots` is the ordered dictionary, least recently used first. */
  datatype Cache = Cache(limits: Limits, slots: seq<Slot<Key, Entry>>, bytes: int)

  function Drop(c: Cache, key: Key): Cache {
    var found := Find(c.slots, key);
    if found.None? then c else c.(slots := Remove(c.slots, key), bytes := c.bytes - Retained(found.value))
  }

  /** Move to the recently used end. */
  function Touch(c: Cache, key: Key): Cache {
    var found := Find(c.slots, key);
    if found.None? then c else c.(slots := Remove(c.slots, key) + [Slot(key, found.value)])
  }

  function CapsOf(l: Limits): Caps {
    Caps(l.maxEntries, l.maxBytes)
  }

  function EvictOver(c: Cache): Cache {
    var (slots, bytes) := Evict(c.slots, c.bytes, CapsOf(c.limits), Retained);
    c.(slots := slots, bytes := bytes)
  }

  datatype Outcome = Outcome(entry: Option<Entry>, casLoser: bool, omitted: bool, bypassed: bool)

  datatype Committed = Committed(cache: Cache, next: nat, outcome: Outcome)

  predicate SameObservation(current: Option<Entry>, observed: Option<Entry>) {
    match observed
    case None => current.None?
    case Some(e) => current.Some? && current.value.generation == e.generation
  }

  function Store(c: Cache, key: Key, entry: Entry): Cache {
    var d := Drop(c, key);
    EvictOver(d.(slots := d.slots + [Slot(key, entry)], bytes := d.bytes + Retained(entry)))
  }

  /** Publish a snapshot; `next` is the last generation handed out in this process. */
  function Commit(
    c: Cache, next: nat, key: Key, observed: Option<Entry>, items: seq<Byte>, prints: seq<(string, string)>, cacheable: bool)
    : Committed
  {
    var current := Find(c.slots, key);
    var same := current.Some? && current.value.items == items;
    if !c.limits.enabled then Committed(c, next, Outcome(None, false, true, true))
    else if !SameObservation(current, observed) then
      if same then Committed(Touch(c, key), next, Outcome(current, true, false, false))
      else Committed(c, next, Outcome(current, true, true, false))
    else if same then Committed(Touch(c, key), next, Outcome(current, false, false, false))
    else if !cacheable || RetainedBy(items, prints) > c.limits.maxEntryBytes then
      Committed(Drop(c, key), next, Outcome(None, false, true, true))
    else
      var entry := Entry(items, prints, next + 1);
      var c' := Store(c, key, entry);
      Committed(c', next + 1,
        if Find(c'.slots, key).None? then Outcome(None, false, true, true) else Outcome(Some(entry), false, false, false))
  }

  function Observe(c: Cache, key: Key): (Cache, Option<Entry>) {
    if !c.limits.enabled then (c, None) else (Touch(c, key), Find(c.slots, key))
  }
}
