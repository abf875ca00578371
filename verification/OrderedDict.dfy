/** Python's insertion-ordered dictionary as a list of slots, oldest first, with weighted eviction from the front. */
module OrderedDict {
  import opened Prelude

  datatype Slot<+K, +V> = Slot(key: K, value: V)

  function Find<K(==), V>(slots: seq<Slot<K, V>>, key: K): Option<V> {
    if slots == [] then None else if slots[0].key == key then Some(slots[0].value) else Find(slots[1..], key)
  }

  function Remove<K(==), V>(slots: seq<Slot<K, V>>, key: K): seq<Slot<K, V>> {
    if slots == [] then []
    else if slots[0].key == key then slots[1..]
    else [slots[0]] + Remove(slots[1..], key)
  }

  function Sum<K, V>(slots: seq<Slot<K, V>>, weight: V -> nat): nat {
    if slots == [] then 0 else weight(slots[0].value) + Sum(slots[1..], weight)
  }

  datatype Caps = Caps(entries: int, bytes: int)

  /** Drop from the front while a cap is exceeded; `total` is the running byte count. */
  function Evict<K, V>(slots: seq<Slot<K, V>>, total: int, caps: Caps, weight: V -> nat): (seq<Slot<K, V>>, int) {
    if (|slots| > caps.entries || total > caps.bytes) && slots != []
    then Evict(slots[1..], total - weight(slots[0].value), caps, weight) else (slots, total)
  }

  ghost predicate KeysDistinct<K, V>(slots: seq<Slot<K, V>>) {
    forall i, j :: 0 <= i < j < |slots| ==> slots[i].key != slots[j].key
  }

  ghost predicate HasNo<K, V>(slots: seq<Slot<K, V>>, key: K) {
    forall k :: 0 <= k < |slots| ==> slots[k].key != key
  }

  lemma {:induction false} NoneFoundIff<K, V>(slots: seq<Slot<K, V>>, key: K)
    ensures Find(slots, key).None? <==> HasNo(slots, key)
    ensures Find(slots, key).None? ==> Remove(slots, key) == slots
  {
    if slots != [] {
      NoneFoundIff(slots[1..], key);
      assert forall k :: 0 < k < |slots| ==> slots[k] == slots[1..][k - 1];
      assert HasNo(slots, key) ==> HasNo(slots[1..], key);
    }
  }

  lemma {:induction false} RemoveKeys<K, V>(slots: seq<Slot<K, V>>, key: K)
    requires KeysDistinct(slots)
    ensures var r := Remove(slots, key);
            && KeysDistinct(r) && HasNo(r, key)
            && (forall k :: 0 <= k < |r| ==> r[k] in slots)
            && |r| == if Find(slots, key).Some? then |slots| - 1 else |slots|
  {
    if slots != [] {
      RemoveKeys(slots[1..], key);
    }
  }

  lemma {:induction false} RemoveSum<K, V>(slots: seq<Slot<K, V>>, key: K, weight: V -> nat)
    ensures Find(slots, key).Some? ==> Sum(slots, weight) == Sum(Remove(slots, key), weight) + weight(Find(slots, key).value)
  {
    if slots != [] && slots[0].key != key {
      RemoveSum(slots[1..], key, weight);
      var r := Remove(slots[1..], key);
      assert ([slots[0]] + r)[1..] == r;
    }
  }

  lemma {:induction false} RemoveOthers<K, V>(slots: seq<Slot<K, V>>, key: K, other: K)
    requires other != key
    ensures Find(Remove(slots, key), other) == Find(slots, other)
  {
    if slots != [] && slots[0].key != key {
      RemoveOthers(slots[1..], key, other);
      assert ([slots[0]] + Remove(slots[1..], key))[1..] == Remove(slots[1..], key);
    }
  }

  lemma {:induction false} FindConcat<K, V>(a: seq<Slot<K, V>>, b: seq<Slot<K, V>>, key: K)
    ensures Find(a + b, key) == if Find(a, key).Some? then Find(a, key) else Find(b, key)
  {
    if a == [] {
      assert a + b == b;
    } else {
      assert (a + b)[1..] == a[1..] + b;
      FindConcat(a[1..], b, key);
    }
  }

  lemma {:induction false} SumAppend<K, V>(slots: seq<Slot<K, V>>, s: Slot<K, V>, weight: V -> nat)
    ensures Sum(slots + [s], weight) == Sum(slots, weight) + weight(s.value)
  {
    if slots == [] {
      assert [] + [s] == [s] && [s][1..] == [];
    } else {
      assert (slots + [s])[1..] == slots[1..] + [s];
      SumAppend(slots[1..], s, weight);
    }
  }

  lemma AppendDistinct<K, V>(slots: seq<Slot<K, V>>, s: Slot<K, V>)
    requires KeysDistinct(slots) && HasNo(slots, s.key)
    ensures KeysDistinct(slots + [s])
  {
  }

  lemma FindOne<K, V>(s: Slot<K, V>, key: K)
    ensures Find([s], key) == if key == s.key then Some(s.value) else None
  {
  }

  /** A key found in a suffix has the same value in the whole. */
  lemma FindSuffix<K, V>(slots: seq<Slot<K, V>>, k: nat, key: K)
    requires KeysDistinct(slots) && k <= |slots| && Find(slots[k..], key).Some?
    ensures Find(slots, key) == Find(slots[k..], key)
  {
    var a, b := slots[..k], slots[k..];
    assert slots == a + b;
    FindConcat(a, b, key);
    NoneFoundIff(a, key);
    NoneFoundIff(b, key);
    var j :| 0 <= j < |b| && b[j].key == key;
    forall i | 0 <= i < |a| ensures a[i].key != key {
      assert slots[i] == a[i] && slots[k + j] == b[j];
    }
  }

  ghost predicate Fits<K, V>(slots: seq<Slot<K, V>>, caps: Caps, weight: V -> nat) {
    |slots| <= caps.entries && Sum(slots, weight) <= caps.bytes
  }

  /** Eviction keeps the longest newest-first suffix that fits both caps: with any fewer gone it would not fit. */
  lemma {:induction false} EvictKeepsLongestSuffix<K, V>(slots: seq<Slot<K, V>>, total: int, caps: Caps, weight: V -> nat)
    returns (k: nat)
    requires total == Sum(slots, weight)
    ensures k <= |slots| && Evict(slots, total, caps, weight) == (slots[k..], Sum(slots[k..], weight))
    ensures k < |slots| ==> Fits(slots[k..], caps, weight)
    ensures forall i :: 0 <= i < k ==> !Fits(slots[i..], caps, weight)
  {
    assert slots[0..] == slots;
    if (|slots| > caps.entries || total > caps.bytes) && slots != [] {
      var m := EvictKeepsLongestSuffix(slots[1..], total - weight(slots[0].value), caps, weight);
      k := m + 1;
      assert slots[1..][m..] == slots[k..];
      forall i | 0 <= i < k ensures !Fits(slots[i..], caps, weight) {
        if i > 0 {
          assert !Fits(slots[1..][i - 1..], caps, weight);
          assert slots[1..][i - 1..] == slots[i..];
        }
      }
    } else {
      k := 0;
    }
  }

  // ---- slots in some order of their keys -------------------------------------------------------

  ghost predicate SortedBy<K(!new), V(!new)>(slots: seq<Slot<K, V>>, f: K -> int) {
    forall a, b :: 0 <= a < b < |slots| ==> f(slots[a].key) < f(slots[b].key)
  }

  /** Removing a key keeps the others in order. */
  lemma {:induction false} RemoveSorted<K(!new), V(!new)>(slots: seq<Slot<K, V>>, key: K, f: K -> int)
    requires SortedBy(slots, f)
    ensures SortedBy(Remove(slots, key), f)
    ensures forall k :: 0 <= k < |Remove(slots, key)| ==> Remove(slots, key)[k] in slots
  {
    if slots != [] && slots[0].key != key {
      RemoveSorted(slots[1..], key, f);
      var r := Remove(slots[1..], key);
      forall k | 0 <= k < |r| ensures f(slots[0].key) < f(r[k].key) {
        var j :| 0 <= j < |slots[1..]| && slots[1..][j] == r[k];
        assert slots[j + 1] == r[k];
      }
    }
  }

  lemma SuffixSorted<K(!new), V(!new)>(slots: seq<Slot<K, V>>, k: nat, f: K -> int)
    requires SortedBy(slots, f) && k <= |slots|
    ensures SortedBy(slots[k..], f)
  {
  }

  /** A key that has just become the greatest goes to the end. */
  lemma AppendSorted<K(!new), V(!new)>(rest: seq<Slot<K, V>>, s: Slot<K, V>, f: K -> int, g: K -> int)
    requires SortedBy(rest, f) && HasNo(rest, s.key)
    requires forall k :: k != s.key ==> g(k) == f(k) && g(k) < g(s.key)
    ensures SortedBy(rest + [s], g)
  {
  }
}
