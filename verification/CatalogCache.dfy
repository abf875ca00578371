/** The catalog cache as a mutable object. */
module CatalogCache {
  import opened Prelude
  import M = CatalogModel
  import D = OrderedDict

  class CatalogCache {
    const limits: M.Limits
    var entries: seq<D.Slot<M.Key, M.Entry>>
    var retained: int
    var generation: nat

    constructor (limits: M.Limits)
      ensures Model() == M.Cache(limits, [], 0, 0)
    {
      this.limits := limits;
      entries, retained, generation := [], 0, 0;
    }

    function Model(): M.Cache
      reads this
    {
      M.Cache(limits, entries, retained, generation)
    }

    method Drop(key: M.Key)
      modifies this
      ensures Model() == M.Drop(old(Model()), key)
    {
      var item := D.Find(entries, key);
      if item.Some? {
        entries := D.Remove(entries, key);
        retained := retained - |item.value.body|;
      }
    }

    method EvictOverBudget()
      modifies this
      ensures Model() == M.EvictOver(old(Model()))
    {
      while |entries| > limits.maxEntries || retained > limits.maxBytes
        invariant M.EvictOver(Model()) == M.EvictOver(old(Model()))
        decreases |entries|
      {
        if entries == [] {
          break;
        }
        Drop(entries[0].key);
      }
    }

    method Store(key: M.Key, body: M.Body, now: real)
      modifies this
      ensures Model() == M.Store(old(Model()), key, body, now)
    {
      Drop(key);
      entries := entries + [D.Slot(key, M.Entry(body, now))];
      retained := retained + |body|;
      EvictOverBudget();
    }

    method Land(key: M.Key, captured: nat, f: M.Fetched, now: real)
      modifies this
      ensures Model() == M.Land(old(Model()), key, captured, f, now)
    {
      if f.NoBody? || |f.body| > limits.maxEntryBytes || !f.isList || captured != generation {
        return;
      }
      Store(key, f.body, now);
    }

    method Lookup(key: M.Key, now: real) returns (body: Option<M.Body>)
      modifies this
      ensures (Model(), body) == M.Lookup(old(Model()), key, now)
    {
      if limits.ttl <= 0.0 {
        return None;
      }
      var item := D.Find(entries, key);
      if item.None? {
        return None;
      }
      if now - item.value.fetchedAt >= limits.ttl {
        Drop(key);
        return None;
      }
      return Some(item.value.body);
    }

    method Invalidate()
      modifies this
      ensures Model() == M.Invalidate(old(Model()))
    {
      entries, retained := [], 0;
      generation := generation + 1;
    }

    method Shutdown()
      modifies this
      ensures Model() == M.Shutdown(old(Model()))
    {
      entries, retained := [], 0;
    }
  }
}
