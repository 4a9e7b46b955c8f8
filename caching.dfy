/**
 * The fuzzy LFU response cache of caching.py.
 *
 * The cache is a Python dict from 64-bit Simhash values to `[value, hit_count]`
 * pairs. A dict keeps insertion order, and that order decides every tie in the
 * source, so the model keeps the entries as a sequence in insertion order.
 * The functions below specify each operation on that sequence; the classes at
 * the end update it in place as the source does and are proved against them.
 */
module Caching {
  import opened Wrappers
  import opened Hamming

  /** One cached response: the hash it is filed under, the response, its hit count. */
  datatype Entry<V> = Entry(key: bv64, value: V, hits: nat)

  /** Capacity used when none is given (`size=100`). */
  const DefaultSize: int := 100

  /**
   * Largest Hamming distance that counts as a hit. The source accepts when
   * `1 - d / 64.0 >= 0.8`; for an integer d in 0..64 that holds exactly for
   * d <= 12 (1 - 12/64 = 0.8125, 1 - 13/64 = 0.796875).
   */
  const MaxHitDistance: nat := 12

  /** A dict has each key at most once. */
  ghost predicate DistinctKeys<V>(es: seq<Entry<V>>)
  {
    forall i, j :: 0 <= i < j < |es| ==> es[i].key != es[j].key
  }

  // ---------------------------------------------------------------------------
  // First minimum, as both Python's `min` and a scan with a strict `<` find it.

  /** `j` holds the least score of `s`, and no earlier position holds it. */
  ghost predicate IsFirstMin(s: seq<nat>, j: int)
  {
    && 0 <= j < |s|
    && (forall k :: 0 <= k < |s| ==> s[j] <= s[k])
    && (forall k :: 0 <= k < j ==> s[j] < s[k])
  }

  function ArgMin(s: seq<nat>): (j: nat)
    requires |s| > 0
    ensures IsFirstMin(s, j)
  {
    if |s| == 1 then 0
    else
      var j := ArgMin(s[..|s| - 1]);
      if s[|s| - 1] < s[j] then |s| - 1 else j
  }

  function Hits<V>(es: seq<Entry<V>>): seq<nat>
  {
    seq(|es|, k requires 0 <= k < |es| => es[k].hits)
  }

  function Distances<V>(es: seq<Entry<V>>, key: bv64): seq<nat>
  {
    seq(|es|, k requires 0 <= k < |es| => Distance(es[k].key, key))
  }

  // ---------------------------------------------------------------------------
  // Dict access: lookup and assignment `cache[key] = [value, 0]`.

  /** Position of `key` in the dict, if it is there. */
  function IndexOf<V>(es: seq<Entry<V>>, key: bv64): (r: Option<nat>)
    ensures r.Some? ==> r.value < |es| && es[r.value].key == key
    ensures r.Some? ==> forall k :: 0 <= k < r.value ==> es[k].key != key
    ensures r.None? <==> forall k :: 0 <= k < |es| ==> es[k].key != key
  {
    if |es| == 0 then None
    else if es[0].key == key then Some(0)
    else
      match IndexOf(es[1..], key)
      case None => None
      case Some(i) => Some(i + 1)
  }

  /** `cache.get(key)`: the entry filed under `key`. */
  function Lookup<V>(es: seq<Entry<V>>, key: bv64): Option<Entry<V>>
  {
    match IndexOf(es, key)
    case None => None
    case Some(i) => Some(es[i])
  }

  /** `cache[key] = [value, 0]`: overwrite in place when present, else append. */
  function Put<V>(es: seq<Entry<V>>, key: bv64, value: V): seq<Entry<V>>
  {
    if |es| == 0 then [Entry(key, value, 0)]
    else if es[0].key == key then [Entry(key, value, 0)] + es[1..]
    else [es[0]] + Put(es[1..], key, value)
  }

  /** In a dict, the entry at position `i` is the one its key finds. */
  lemma IndexOfDistinct<V>(es: seq<Entry<V>>, i: int)
    requires DistinctKeys(es) && 0 <= i < |es|
    ensures IndexOf(es, es[i].key) == Some(i)
  {
  }

  /**
   * Assignment keeps the order of the dict: an existing key is overwritten at
   * its own position, a new key goes to the end.
   */
  lemma {:induction false} PutShape<V>(es: seq<Entry<V>>, key: bv64, value: V)
    ensures Put(es, key, value) == match IndexOf(es, key)
      case None => es + [Entry(key, value, 0)]
      case Some(i) => es[i := Entry(key, value, 0)]
  {
    if |es| > 0 && es[0].key != key {
      PutShape(es[1..], key, value);
      match IndexOf(es[1..], key)
      case None =>
        assert [es[0]] + (es[1..] + [Entry(key, value, 0)]) == es + [Entry(key, value, 0)];
      case Some(i) =>
        assert [es[0]] + es[1..][i := Entry(key, value, 0)] == es[i + 1 := Entry(key, value, 0)];
    }
  }

  /** After the assignment the key holds the new value with a hit count of 0. */
  lemma PutStores<V>(es: seq<Entry<V>>, key: bv64, value: V)
    ensures Lookup(Put(es, key, value), key) == Some(Entry(key, value, 0))
    ensures |Put(es, key, value)| == if IndexOf(es, key).Some? then |es| else |es| + 1
  {
    PutShape(es, key, value);
    var r := Put(es, key, value);
    match IndexOf(es, key)
    case None =>
      assert r[|es|].key == key;
    case Some(i) =>
      assert r[i].key == key;
  }

  /** The assignment keeps the dict a dict. */
  lemma PutKeepsDistinct<V>(es: seq<Entry<V>>, key: bv64, value: V)
    requires DistinctKeys(es)
    ensures DistinctKeys(Put(es, key, value))
  {
    PutShape(es, key, value);
  }

  /** The assignment leaves the entry of every other key alone. */
  lemma PutLookupOther<V>(es: seq<Entry<V>>, key: bv64, value: V, other: bv64)
    requires DistinctKeys(es) && other != key
    ensures Lookup(Put(es, key, value), other) == Lookup(es, other)
  {
    PutShape(es, key, value);
    PutKeepsDistinct(es, key, value);
    var r := Put(es, key, value);
    assert |r| >= |es|;
    match IndexOf(es, other)
    case None =>
      forall k | 0 <= k < |r| ensures r[k].key != other {
        if k < |es| {
          assert r[k] == es[k] || r[k].key == key;
        }
      }
    case Some(i) =>
      assert r[i] == es[i];
      IndexOfDistinct(r, i);
  }

  /** The assignment keeps the dict a dict and leaves every other key alone. */
  lemma PutFrame<V>(es: seq<Entry<V>>, key: bv64, value: V)
    requires DistinctKeys(es)
    ensures DistinctKeys(Put(es, key, value))
    ensures forall other :: other != key ==> Lookup(Put(es, key, value), other) == Lookup(es, other)
  {
    PutKeepsDistinct(es, key, value);
    forall other | other != key
      ensures Lookup(Put(es, key, value), other) == Lookup(es, other)
    {
      PutLookupOther(es, key, value, other);
    }
  }

  // ---------------------------------------------------------------------------
  // remove_lfu

  /** Position of the entry `remove_lfu` deletes: the first with the fewest hits. */
  function LfuIndex<V>(es: seq<Entry<V>>): (j: nat)
    requires |es| > 0
    ensures j < |es|
    ensures forall k :: 0 <= k < |es| ==> es[j].hits <= es[k].hits
    ensures forall k :: 0 <= k < j ==> es[j].hits < es[k].hits
  {
    var j := ArgMin(Hits(es));
    assert forall k :: 0 <= k < |es| ==> Hits(es)[k] == es[k].hits;
    j
  }

  /** The dict after `del cache[lfu_key]`. */
  function Evict<V>(es: seq<Entry<V>>): (r: seq<Entry<V>>)
    requires |es| > 0
  {
    var j := LfuIndex(es);
    es[..j] + es[j + 1..]
  }

  /** Deleting position `j` of a dict leaves a dict. */
  lemma DeleteKeepsDistinct<V>(es: seq<Entry<V>>, j: nat)
    requires DistinctKeys(es) && j < |es|
    ensures DistinctKeys(es[..j] + es[j + 1..])
  {
    var r := es[..j] + es[j + 1..];
    assert forall k :: 0 <= k < |r| ==> r[k] == es[if k < j then k else k + 1];
  }

  /** Deleting position `j` of a dict removes that key and no other. */
  lemma DeleteLookup<V>(es: seq<Entry<V>>, j: nat, other: bv64)
    requires DistinctKeys(es) && j < |es|
    ensures Lookup(es[..j] + es[j + 1..], other) == if other == es[j].key then None else Lookup(es, other)
  {
    var r := es[..j] + es[j + 1..];
    DeleteKeepsDistinct(es, j);
    match IndexOf(es, other)
    case None =>
      forall k | 0 <= k < |r| ensures r[k].key != other {
        assert r[k] == es[if k < j then k else k + 1];
      }
    case Some(i) =>
      if i == j {
        forall k | 0 <= k < |r| ensures r[k].key != other {
          var m := if k < j then k else k + 1;
          assert r[k] == es[m] && m != j;
        }
      } else {
        var i' := if i < j then i else i - 1;
        assert r[i'] == es[i];
        IndexOfDistinct(r, i');
      }
  }

  /** Deleting position `j` of a dict shrinks it by one and keeps every other key's entry. */
  lemma DeleteFrame<V>(es: seq<Entry<V>>, j: nat)
    requires DistinctKeys(es) && j < |es|
    ensures |es[..j] + es[j + 1..]| == |es| - 1
    ensures DistinctKeys(es[..j] + es[j + 1..])
    ensures Lookup(es[..j] + es[j + 1..], es[j].key) == None
    ensures forall other :: other != es[j].key ==> Lookup(es[..j] + es[j + 1..], other) == Lookup(es, other)
  {
    DeleteKeepsDistinct(es, j);
    DeleteLookup(es, j, es[j].key);
    forall other | other != es[j].key
      ensures Lookup(es[..j] + es[j + 1..], other) == Lookup(es, other)
    {
      DeleteLookup(es, j, other);
    }
  }

  /**
   * Eviction deletes exactly the least frequently used entry: one fewer entry,
   * every other one kept with its value, its hit count and its order.
   */
  lemma EvictFrame<V>(es: seq<Entry<V>>)
    requires |es| > 0 && DistinctKeys(es)
    ensures |Evict(es)| == |es| - 1
    ensures DistinctKeys(Evict(es))
    ensures Lookup(Evict(es), es[LfuIndex(es)].key) == None
    ensures forall other :: other != es[LfuIndex(es)].key ==> Lookup(Evict(es), other) == Lookup(es, other)
    ensures forall k :: 0 <= k < |Evict(es)| ==> Evict(es)[k] == es[if k < LfuIndex(es) then k else k + 1]
  {
    DeleteFrame(es, LfuIndex(es));
  }

  // ---------------------------------------------------------------------------
  // add_cache

  /**
   * The dict after `add_cache(key, value)`, or None where the source raises:
   * when the cache is at or above `size` it first evicts, and `min` over an
   * empty dict (only reachable with `size <= 0`) raises a ValueError.
   */
  function AddResult<V>(es: seq<Entry<V>>, size: int, key: bv64, value: V): (r: Option<seq<Entry<V>>>)
    ensures r.None? <==> |es| == 0 && size <= 0
  {
    if |es| >= size then
      if |es| == 0 then None else Some(Put(Evict(es), key, value))
    else
      Some(Put(es, key, value))
  }

  /** With a positive capacity, adding never takes the cache above it. */
  lemma AddWithinSize<V>(es: seq<Entry<V>>, size: int, key: bv64, value: V)
    requires 1 <= size && |es| <= size
    ensures AddResult(es, size, key, value).Some?
    ensures |AddResult(es, size, key, value).value| <= size
  {
    if |es| >= size {
      PutStores(Evict(es), key, value);
    } else {
      PutStores(es, key, value);
    }
  }

  /**
   * After a successful add the key holds `[value, 0]`, even when it was
   * cached before with other hits, and the cache is still a dict.
   */
  lemma AddStores<V>(es: seq<Entry<V>>, size: int, key: bv64, value: V)
    requires DistinctKeys(es)
    requires AddResult(es, size, key, value).Some?
    ensures Lookup(AddResult(es, size, key, value).value, key) == Some(Entry(key, value, 0))
    ensures DistinctKeys(AddResult(es, size, key, value).value)
  {
    var base := if |es| >= size then Evict(es) else es;
    if |es| >= size {
      EvictFrame(es);
    }
    PutStores(base, key, value);
    PutFrame(base, key, value);
  }

  /**
   * Eviction depends on the count alone: re-adding a key that is already
   * cached to a full cache still evicts, so when the evicted entry is another
   * one the cache shrinks by one, and when it is the key itself the key moves
   * to the end of the order.
   */
  lemma ReAddToFullCache<V>(es: seq<Entry<V>>, size: int, i: nat, value: V)
    requires DistinctKeys(es) && i < |es| && |es| >= size
    ensures LfuIndex(es) != i ==> |AddResult(es, size, es[i].key, value).value| == |es| - 1
    ensures LfuIndex(es) == i ==> AddResult(es, size, es[i].key, value).value == Evict(es) + [Entry(es[i].key, value, 0)]
  {
    var key := es[i].key;
    EvictFrame(es);
    PutShape(Evict(es), key, value);
    if LfuIndex(es) != i {
      IndexOfDistinct(es, i);
      assert es[LfuIndex(es)].key != key;
      assert Lookup(Evict(es), key).Some?;
      assert IndexOf(Evict(es), key).Some?;
    }
  }

  // ---------------------------------------------------------------------------
  // check_cache

  /** Position of the nearest cached key, the first one on a tie; None when empty. */
  function NearestIndex<V>(es: seq<Entry<V>>, key: bv64): (r: Option<nat>)
    ensures r.None? <==> |es| == 0
    ensures r.Some? ==> r.value < |es|
    ensures r.Some? ==> forall k :: 0 <= k < |es| ==>
      Distance(es[r.value].key, key) <= Distance(es[k].key, key)
    ensures r.Some? ==> forall k :: 0 <= k < r.value ==>
      Distance(es[r.value].key, key) < Distance(es[k].key, key)
  {
    if |es| == 0 then None
    else
      var j := ArgMin(Distances(es, key));
      assert forall k :: 0 <= k < |es| ==> Distances(es, key)[k] == Distance(es[k].key, key);
      Some(j)
  }

  /** The nearest entry is close enough to count as a hit. */
  predicate IsHit<V>(es: seq<Entry<V>>, key: bv64)
  {
    var n := NearestIndex(es, key);
    n.Some? && Distance(es[n.value].key, key) <= MaxHitDistance
  }

  /** What `check_cache(key)` returns. */
  function CheckResult<V>(es: seq<Entry<V>>, key: bv64): Option<V>
  {
    if IsHit(es, key) then Some(es[NearestIndex(es, key).value].value) else None
  }

  /** The dict after `check_cache(key)`: a hit bumps the matched entry's count. */
  function AfterCheck<V>(es: seq<Entry<V>>, key: bv64): seq<Entry<V>>
  {
    if IsHit(es, key) then
      var j := NearestIndex(es, key).value;
      es[j := es[j].(hits := es[j].hits + 1)]
    else es
  }

  /**
   * The position a left-to-right scan with a strict `<` settles on is the
   * nearest one, and it alone decides the outcome of the lookup.
   */
  lemma ScanFindsNearest<V>(es: seq<Entry<V>>, key: bv64, j: nat)
    requires DistinctKeys(es) && j < |es|
    requires forall k :: 0 <= k < |es| ==> Distance(es[j].key, key) <= Distance(es[k].key, key)
    requires forall k :: 0 <= k < j ==> Distance(es[j].key, key) < Distance(es[k].key, key)
    ensures NearestIndex(es, key) == Some(j)
    ensures CheckResult(es, key) ==
      if Distance(es[j].key, key) <= MaxHitDistance then Some(es[j].value) else None
    ensures AfterCheck(es, key) ==
      if Distance(es[j].key, key) <= MaxHitDistance then es[j := es[j].(hits := es[j].hits + 1)] else es
    ensures DistinctKeys(AfterCheck(es, key))
  {
    var n := NearestIndex(es, key).value;
    // Both hold the least distance, so neither can lie before the other.
    assert Distance(es[n].key, key) == Distance(es[j].key, key);
    CheckFrame(es, key);
  }

  /** An empty cache always misses and stays empty. */
  lemma CheckEmpty<V>(es: seq<Entry<V>>, key: bv64)
    requires |es| == 0
    ensures CheckResult(es, key) == None && AfterCheck(es, key) == es
  {
  }

  /** The lookup hits exactly when some cached key lies within the distance threshold. */
  lemma CheckHitIff<V>(es: seq<Entry<V>>, key: bv64)
    ensures CheckResult(es, key).Some? <==>
      exists k :: 0 <= k < |es| && Distance(es[k].key, key) <= MaxHitDistance
  {
  }

  /**
   * A lookup changes nothing but the matched entry's hit count, which grows
   * by exactly one on a hit; on a miss the dict is unchanged.
   */
  lemma CheckFrame<V>(es: seq<Entry<V>>, key: bv64)
    ensures |AfterCheck(es, key)| == |es|
    ensures forall k :: 0 <= k < |es| ==>
      AfterCheck(es, key)[k].key == es[k].key && AfterCheck(es, key)[k].value == es[k].value
    ensures !IsHit(es, key) ==> AfterCheck(es, key) == es
    ensures IsHit(es, key) ==> forall k :: 0 <= k < |es| ==>
      AfterCheck(es, key)[k].hits == es[k].hits + (if k == NearestIndex(es, key).value then 1 else 0)
    ensures DistinctKeys(es) ==> DistinctKeys(AfterCheck(es, key))
  {
  }

  /** A key that is cached exactly is always a hit, and it returns that key's own value. */
  lemma ExactMatchHits<V>(es: seq<Entry<V>>, i: nat)
    requires DistinctKeys(es) && i < |es|
    ensures NearestIndex(es, es[i].key) == Some(i)
    ensures CheckResult(es, es[i].key) == Some(es[i].value)
  {
  }

  /** A value stored under a hash is what the next lookup of that hash returns. */
  lemma AddThenCheck<V>(es: seq<Entry<V>>, size: int, key: bv64, value: V)
    requires DistinctKeys(es)
    requires AddResult(es, size, key, value).Some?
    ensures CheckResult(AddResult(es, size, key, value).value, key) == Some(value)
  {
    var r := AddResult(es, size, key, value).value;
    AddStores(es, size, key, value);
    var i := IndexOf(r, key).value;
    ExactMatchHits(r, i);
  }

  // ---------------------------------------------------------------------------
  // The classes

  /** `LFUCache`: a bounded dict of responses updated in place. */
  class LFUCache<V> {
    var size: int
    var entries: seq<Entry<V>>

    ghost predicate Valid()
      reads this
    {
      DistinctKeys(entries)
    }

    constructor (size: int := DefaultSize)
      ensures Valid()
      ensures this.size == size && entries == []
    {
      this.size := size;
      entries := [];
    }

    /** Deletes the least frequently used entry; false where `min` raises on an empty dict. */
    method RemoveLfu() returns (ok: bool)
      requires Valid()
      modifies this`entries
      ensures Valid()
      ensures ok <==> |old(entries)| > 0
      ensures entries == if ok then Evict(old(entries)) else old(entries)
    {
      if |entries| == 0 {
        return false;
      }
      EvictFrame(entries);
      var lfu := LfuIndex(entries);
      entries := entries[..lfu] + entries[lfu + 1..];
      return true;
    }

    /** Stores `value` under `key` with hit count 0, evicting first when full; false where the source raises. */
    method AddCache(key: bv64, value: V) returns (ok: bool)
      requires Valid()
      modifies this`entries
      ensures Valid()
      ensures ok <==> AddResult(old(entries), size, key, value).Some?
      ensures entries == if ok then AddResult(old(entries), size, key, value).value else old(entries)
    {
      ghost var before := entries;
      if |entries| >= size {
        ok := RemoveLfu();
        if !ok {
          return;
        }
      }
      PutFrame(entries, key, value);
      entries := Put(entries, key, value);
      ok := true;
      AddStores(before, size, key, value);
    }

    /** Returns the value of the nearest cached key when it is within the threshold, counting the hit. */
    method CheckCache(key: bv64) returns (r: Option<V>)
      requires Valid()
      modifies this`entries
      ensures Valid()
      ensures r == CheckResult(old(entries), key)
      ensures entries == AfterCheck(old(entries), key)
    {
      var es := entries;
      // 65 stands for float('inf'): every distance is at most 64.
      var lowest: nat := 65;
      var found: Option<nat> := None;
      var i := 0;
      while i < |es|
        invariant 0 <= i <= |es|
        invariant found.None? <==> i == 0
        invariant found.None? ==> lowest == 65
        invariant found.Some? ==> found.value < i && lowest == Distance(es[found.value].key, key)
        invariant found.Some? ==> forall k :: 0 <= k < i ==> lowest <= Distance(es[k].key, key)
        invariant found.Some? ==> forall k :: 0 <= k < found.value ==> lowest < Distance(es[k].key, key)
      {
        var distance := Distance(es[i].key, key);
        if distance < lowest {
          lowest := distance;
          found := Some(i);
        }
        i := i + 1;
      }
      if found.None? {
        return None;
      }
      var j := found.value;
      ScanFindsNearest(es, key, j);
      if lowest <= MaxHitDistance {
        entries := es[j := es[j].(hits := es[j].hits + 1)];
        return Some(es[j].value);
      }
      return None;
    }
  }

  /** `CacheManager`: files prompts under their Simhash and delegates to an LFUCache. */
  class CacheManager {
    /** The 64-bit Simhash of a prompt; the hashing algorithm is not part of this model. */
    const simhash: string -> bv64
    const cache: LFUCache<string>

    ghost predicate Valid()
      reads this, cache
    {
      cache.Valid()
    }

    constructor (simhash: string -> bv64, size: int := DefaultSize)
      ensures Valid() && fresh(cache)
      ensures this.simhash == simhash && cache.size == size && cache.entries == []
    {
      this.simhash := simhash;
      cache := new LFUCache(size);
    }

    /** The cached response for a prompt whose hash is near enough, if any. */
    method Get(prompt: string) returns (r: Option<string>)
      requires Valid()
      modifies cache`entries
      ensures Valid()
      ensures r == CheckResult(old(cache.entries), simhash(prompt))
      ensures cache.entries == AfterCheck(old(cache.entries), simhash(prompt))
    {
      r := cache.CheckCache(simhash(prompt));
    }

    /** Caches a response under the prompt's hash; false where the source raises. */
    method Set(prompt: string, response: string) returns (ok: bool)
      requires Valid()
      modifies cache`entries
      ensures Valid()
      ensures ok <==> AddResult(old(cache.entries), cache.size, simhash(prompt), response).Some?
      ensures ok ==> cache.entries == AddResult(old(cache.entries), cache.size, simhash(prompt), response).value
      ensures !ok ==> cache.entries == old(cache.entries)
    {
      ok := cache.AddCache(simhash(prompt), response);
    }
  }
}
