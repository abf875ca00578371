/** The catalog body cache on values: insertion-ordered entries, a byte total, a generation. */
module CatalogModel {
  import opened Prelude
  import opened Base64Url
  import opened OrderedDict

  type Key = string
  type Body = seq<Byte>

  datatype Entry = Entry(body: Body, fetchedAt: real)

  datatype Limits = Limits(ttl: real, maxEntries: int, maxBytes: int, maxEntryBytes: int)

  /** What the configuration guards enforce (entry budget within total budget, room for one entry). */
  predicate Guarded(l: Limits) {
    l.ttl >= 0.0 && l.maxEntries >= 1 && l.maxBytes >= 1024 * 1024 && 1 <= l.maxEntryBytes <= l.maxBytes
  }

  /** `entries` oldest first. */
  datatype Cache = Cache(limits: Limits, entries: seq<Slot<Key, Entry>>, retained: int, generation: nat)

  function Drop(c: Cache, key: Key): Cache {
    var found := Find(c.entries, key);
    if found.None? then c else c.(entries := Remove(c.entries, key), retained := c.retained - |found.value.body|)
  }

  function Size(e: Entry): nat {
    |e.body|
  }

  function CapsOf(l: Limits): Caps {
    Caps(l.maxEntries, l.maxBytes)
  }

  function EvictOver(c: Cache): Cache {
    var (entries, retained) := Evict(c.entries, c.retained, CapsOf(c.limits), Size);
    c.(entries := entries, retained := retained)
  }

  function Appended(c: Cache, key: Key, e: Entry): Cache {
    c.(entries := c.entries + [Slot(key, e)], retained := c.retained + Size(e))
  }

  function Store(c: Cache, key: Key, body: Body, now: real): Cache {
    EvictOver(Appended(Drop(c, key), key, Entry(body, now)))
  }

  /** What the factory brought back: nothing (cap exceeded), or a body that is a JSON list or is not. */
  datatype Fetched = NoBody | SomeBody(body: Body, isList: bool)

  predicate Keeps(c: Cache, captured: nat, f: Fetched) {
    f.SomeBody? && |f.body| <= c.limits.maxEntryBytes && f.isList && captured == c.generation
  }

  /** The end of a refresh whose leader captured `captured` on entry. */
  function Land(c: Cache, key: Key, captured: nat, f: Fetched, now: real): Cache {
    if Keeps(c, captured, f) then Store(c, key, f.body, now) else c
  }

  function Lookup(c: Cache, key: Key, now: real): (Cache, Option<Body>) {
    var found := Find(c.entries, key);
    if c.limits.ttl <= 0.0 || found.None? then (c, None)
    else if now - found.value.fetchedAt >= c.limits.ttl then (Drop(c, key), None)
    else (c, Some(found.value.body))
  }

  function Invalidate(c: Cache): Cache {
    c.(entries := [], retained := 0, generation := c.generation + 1)
  }

  function Shutdown(c: Cache): Cache {
    c.(entries := [], retained := 0)
  }
}
