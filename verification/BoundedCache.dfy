// The caches of parsed transcripts and of imported sessions: bounded in
// entries and in bytes, oldest access evicted first.
module BoundedCache {
  import opened Options

  type Key = string
  type Time = int  // nanoseconds

  const MINUTE: Time := 60_000_000_000
  const MIB: nat := 1024 * 1024

  datatype Limits = Limits(maxItems: nat, maxBytes: nat, ttl: Time)

  const PARSER_LIMITS: Limits := Limits(16, 128 * MIB, 10 * MINUTE)
  const IMPORT_LIMITS: Limits := Limits(8, 96 * MIB, 10 * MINUTE)

  datatype Entry<F, V> = Entry(fingerprint: F, value: V, lastAccess: Time, bytes: nat)

  type Items<F, V> = map<Key, Entry<F, V>>

  ghost function TotalBytes<F, V>(items: Items<F, V>): nat {
    if items == map[] then 0
    else
      var k :| k in items;
      items[k].bytes + TotalBytes(items - {k})
  }

  lemma {:induction false} TotalWithout<F, V>(items: Items<F, V>, k: Key)
    requires k in items
    ensures TotalBytes(items) == items[k].bytes + TotalBytes(items - {k})
    decreases |items|
  {
    var j :| j in items && TotalBytes(items) == items[j].bytes + TotalBytes(items - {j});
    if j != k {
      SmallerMap(items, j);
      SmallerMap(items, k);
      TotalWithout(items - {j}, k);
      TotalWithout(items - {k}, j);
      assert items - {j} - {k} == items - {k} - {j};
    }
  }

  lemma {:induction false} SmallerMap<F, V>(items: Items<F, V>, k: Key)
    requires k in items
    ensures |items - {k}| == |items| - 1
  {
    assert (items - {k}).Keys == items.Keys - {k};
    assert |items| == |items.Keys|;
  }

  predicate Expired<F, V>(e: Entry<F, V>, now: Time, limits: Limits) {
    now - e.lastAccess > limits.ttl
  }

  ghost predicate WithinLimits<F, V>(items: Items<F, V>, limits: Limits) {
    |items| <= limits.maxItems && TotalBytes(items) <= limits.maxBytes
  }

  // The newest of the entries that had to go for want of room: what is left
  // would not have room for it.
  ghost predicate NoRoomFor<F, V>(left: Items<F, V>, e: Entry<F, V>, limits: Limits) {
    |left| + 1 > limits.maxItems || TotalBytes(left) + e.bytes > limits.maxBytes
  }

  // What eviction may do: expired entries go; of the others the oldest, and
  // only as many as there is no room for.
  ghost predicate Evicted<F, V>(before: Items<F, V>, after: Items<F, V>, now: Time, limits: Limits) {
    && (forall k :: k in after ==> k in before && after[k] == before[k] && !Expired(before[k], now, limits))
    && (forall k, s :: k in before && k !in after && !Expired(before[k], now, limits) && s in after ==>
                         before[k].lastAccess <= after[s].lastAccess)
    && ((exists k :: k in before && k !in after && !Expired(before[k], now, limits)) ==>
          exists k :: IsLastEvicted(before, after, k, now, limits))
  }

  ghost predicate IsLastEvicted<F, V>(before: Items<F, V>, after: Items<F, V>, k: Key, now: Time, limits: Limits) {
    && k in before && k !in after && !Expired(before[k], now, limits)
    && (forall j :: j in before && j !in after && !Expired(before[j], now, limits) ==>
                      before[j].lastAccess <= before[k].lastAccess)
    && NoRoomFor(after, before[k], limits)
  }

  // What the two loops do, one after the other.
  ghost predicate ExpiredGone<F, V>(before: Items<F, V>, after: Items<F, V>, now: Time, limits: Limits) {
    && (forall k :: k in after ==> k in before && after[k] == before[k] && !Expired(before[k], now, limits))
    && (forall k :: k in before && k !in after ==> Expired(before[k], now, limits))
  }

  ghost predicate LastOut<F, V>(before: Items<F, V>, after: Items<F, V>, last: Key, limits: Limits) {
    && last in before && last !in after
    && (forall j :: j in before && j !in after ==> before[j].lastAccess <= before[last].lastAccess)
    && NoRoomFor(after, before[last], limits)
  }

  ghost predicate CappedSoFar<F, V>(before: Items<F, V>, after: Items<F, V>, last: Key, limits: Limits) {
    && (forall k :: k in after ==> k in before && after[k] == before[k])
    && (forall k, s :: k in before && k !in after && s in after ==> before[k].lastAccess <= after[s].lastAccess)
    && if last == "" then after == before else LastOut(before, after, last, limits)
  }

  ghost predicate Capped<F, V>(before: Items<F, V>, after: Items<F, V>, limits: Limits) {
    exists last :: CappedSoFar(before, after, last, limits)
  }

  lemma {:induction false} CapOneMore<F, V>(before: Items<F, V>, after: Items<F, V>, last: Key, oldest: Key, limits: Limits)
    requires CappedSoFar(before, after, last, limits) && oldest in after && oldest != ""
    requires forall k :: k in after ==> after[oldest].lastAccess <= after[k].lastAccess
    requires |after| > limits.maxItems || TotalBytes(after) > limits.maxBytes
    ensures CappedSoFar(before, after - {oldest}, oldest, limits)
  {
    hide TotalBytes;
    TotalWithout(after, oldest);
    SmallerMap(after, oldest);
    var left := after - {oldest};
    assert NoRoomFor(left, before[oldest], limits);
    assert LastOut(before, left, oldest, limits);
  }

  lemma {:induction false} ExpiredThenCapped<F, V>(before: Items<F, V>, current: Items<F, V>, after: Items<F, V>,
                                                   now: Time, limits: Limits)
    requires ExpiredGone(before, current, now, limits) && Capped(current, after, limits)
    ensures Evicted(before, after, now, limits)
  {
    hide Expired, NoRoomFor;
    var last :| CappedSoFar(current, after, last, limits);
    if last != "" {
      assert IsLastEvicted(before, after, last, now, limits);
    }
  }

  class Cache<F(==), V> {
    const limits: Limits
    var items: Items<F, V>
    var bytes: int
    // What was last accepted for each key.
    ghost var stored: map<Key, (F, V)>

    ghost predicate Valid()
      reads this
    {
      && bytes == TotalBytes(items)
      && "" !in items
      && WithinLimits(items, limits)
      && forall k :: k in items ==> k in stored && stored[k] == (items[k].fingerprint, items[k].value)
    }

    // The cache of the parser.
    constructor Parser()
      ensures Valid() && items == map[] && limits == Limits(16, 134217728, 600000000000)
    {
      limits := PARSER_LIMITS;
      items := map[];
      bytes := 0;
      stored := map[];
    }

    // The cache of imported sessions.
    constructor Imports()
      ensures Valid() && items == map[] && limits == Limits(8, 100663296, 600000000000)
    {
      limits := IMPORT_LIMITS;
      items := map[];
      bytes := 0;
      stored := map[];
    }

    // removeParserCacheEntryLocked
    method RemoveLocked(key: Key)
      requires bytes == TotalBytes(items)
      modifies this`items, this`bytes
      ensures items == old(items) - {key}
      ensures bytes == TotalBytes(items)
    {
      if key in items {
        TotalWithout(items, key);
        var left := bytes - items[key].bytes;
        assert left >= 0;
        bytes := if left < 0 then 0 else left;
        items := items - {key};
      } else {
        assert items - {key} == items;
      }
    }

    // getParserCacheEntry
    method Get(key: Key, fingerprint: F, now: Time) returns (hit: Option<V>)
      requires Valid()
      modifies this`items, this`bytes
      ensures Valid()
      ensures var fresh' := key in old(items) && old(items)[key].fingerprint == fingerprint
                            && now - old(items)[key].lastAccess <= limits.ttl;
              if fresh' then
                && hit == Some(old(items)[key].value)
                && items == old(items)[key := old(items)[key].(lastAccess := now)]
              else hit == None && items == old(items) - {key}
      ensures hit.Some? ==> key in stored && stored[key] == (fingerprint, hit.value)
    {
      if key !in items || items[key].fingerprint != fingerprint {
        WithinWithout(items, key, limits);
        if key in items {
          RemoveLocked(key);
        } else {
          assert items - {key} == items;
        }
        return None;
      }
      if now - items[key].lastAccess > limits.ttl {
        WithinWithout(items, key, limits);
        RemoveLocked(key);
        return None;
      }
      Touched(items, key, now);
      hit := Some(items[key].value);
      items := items[key := items[key].(lastAccess := now)];
    }

    // setParserCacheEntry, setWorkspaceLegacyImportedSessionCache: `at` is
    // read before the lock is taken, `now` when eviction starts
    method Set(key: Key, fingerprint: F, value: V, size: nat, at: Time, now: Time)
      requires Valid()
      modifies this
      ensures Valid()
      ensures key == "" || size > limits.maxBytes / 2 ==> items == old(items) && stored == old(stored)
      ensures key != "" && size <= limits.maxBytes / 2 ==>
                && Evicted(old(items)[key := Entry(fingerprint, value, at, size)], items, now, limits)
                && stored == old(stored)[key := (fingerprint, value)]
    {
      hide Evicted, WithinLimits, TotalBytes;
      if key == "" || size > limits.maxBytes / 2 {
        return;
      }
      if key in items {
        RemoveLocked(key);
      }
      var entry := Entry(fingerprint, value, at, size);
      PutAfterRemove(old(items), items, key, entry);
      items := items[key := entry];
      TotalWithout(items, key);
      bytes := bytes + size;
      stored := stored[key := (fingerprint, value)];
      ghost var full := items;
      EvictLocked(now);
      EvictedIsPart(full, items, now, limits);
    }

    // evictParserCacheLocked
    method EvictLocked(now: Time)
      requires bytes == TotalBytes(items) && "" !in items
      modifies this`items, this`bytes
      ensures bytes == TotalBytes(items) && "" !in items
      ensures Evicted(old(items), items, now, limits)
      ensures WithinLimits(items, limits)
    {
      hide Expired, IsLastEvicted, Capped, TotalBytes;
      ghost var before := items;
      ExpireLocked(now);
      ghost var current := items;
      CapLocked();
      ExpiredThenCapped(before, current, items, now, limits);
    }

    // The first loop: what has not been used for too long.
    method ExpireLocked(now: Time)
      requires bytes == TotalBytes(items) && "" !in items
      modifies this`items, this`bytes
      ensures bytes == TotalBytes(items) && "" !in items
      ensures ExpiredGone(old(items), items, now, limits)
    {
      var keys := items.Keys;
      while keys != {}
        invariant bytes == TotalBytes(items) && "" !in items
        invariant keys <= items.Keys
        invariant forall k :: k in items ==> k in old(items) && items[k] == old(items)[k]
        invariant forall k :: k in old(items) && k !in items ==> Expired(old(items)[k], now, limits)
        invariant forall k :: k in items && k !in keys ==> !Expired(items[k], now, limits)
        decreases keys
      {
        var key :| key in keys;
        keys := keys - {key};
        if now - items[key].lastAccess > limits.ttl {
          RemoveLocked(key);
        }
      }
    }

    // The second loop: the oldest, while there are too many or too much.
    method CapLocked()
      requires bytes == TotalBytes(items) && "" !in items
      modifies this`items, this`bytes
      ensures bytes == TotalBytes(items) && "" !in items
      ensures Capped(old(items), items, limits)
      ensures WithinLimits(items, limits)
    {
      ghost var last := "";
      assert CappedSoFar(items, items, last, limits);
      while |items| > limits.maxItems || bytes > limits.maxBytes
        invariant bytes == TotalBytes(items) && "" !in items
        invariant CappedSoFar(old(items), items, last, limits)
        decreases |items|
      {
        EmptyTotal(items);
        var oldestKey := Oldest();
        SmallerMap(items, oldestKey);
        TotalWithout(items, oldestKey);
        CapOneMore(old(items), items, last, oldestKey, limits);
        RemoveLocked(oldestKey);
        last := oldestKey;
      }
    }

    // The scan for the oldest entry.
    method Oldest() returns (oldestKey: Key)
      requires items != map[] && "" !in items
      ensures oldestKey in items
      ensures forall k :: k in items ==> items[oldestKey].lastAccess <= items[k].lastAccess
    {
      oldestKey := "";
      var keys := items.Keys;
      while keys != {}
        invariant keys <= items.Keys
        invariant oldestKey == "" ==> keys == items.Keys
        invariant oldestKey != "" ==> oldestKey in items
        invariant oldestKey != "" ==> forall k :: k in items && k !in keys ==> items[oldestKey].lastAccess <= items[k].lastAccess
        decreases keys
      {
        var key :| key in keys;
        keys := keys - {key};
        if oldestKey == "" || items[key].lastAccess < items[oldestKey].lastAccess {
          oldestKey := key;
        }
      }
    }
  }

  lemma {:induction false} EmptyTotal<F, V>(items: Items<F, V>)
    ensures items == map[] ==> |items| == 0 && TotalBytes(items) == 0
  {
  }

  lemma {:induction false} WithinWithout<F, V>(items: Items<F, V>, key: Key, limits: Limits)
    requires WithinLimits(items, limits)
    ensures WithinLimits(items - {key}, limits)
  {
    if key in items {
      TotalWithout(items, key);
      SmallerMap(items, key);
    } else {
      assert items - {key} == items;
    }
  }

  lemma {:induction false} Touched<F, V>(items: Items<F, V>, key: Key, now: Time)
    requires key in items
    ensures var after := items[key := items[key].(lastAccess := now)];
            TotalBytes(after) == TotalBytes(items) && |after| == |items|
  {
    var after := items[key := items[key].(lastAccess := now)];
    TotalWithout(items, key);
    TotalWithout(after, key);
    assert after - {key} == items - {key};
    assert after.Keys == items.Keys;
  }

  lemma {:induction false} PutAfterRemove<F, V>(before: Items<F, V>, items: Items<F, V>, key: Key, entry: Entry<F, V>)
    requires items == before - {key}
    ensures before[key := entry] == items[key := entry]
    ensures items[key := entry] - {key} == items
  {
  }

  lemma {:induction false} EvictedIsPart<F, V>(before: Items<F, V>, after: Items<F, V>, now: Time, limits: Limits)
    requires Evicted(before, after, now, limits)
    ensures forall k :: k in after ==> k in before && after[k] == before[k]
  {
    hide IsLastEvicted;
  }

  // An entry stored later than every other was used survives its own
  // eviction, if the clock did not run out on it meanwhile.
  lemma {:induction false} NewestSurvives<F, V>(before: Items<F, V>, after: Items<F, V>, key: Key, now: Time, limits: Limits)
    requires Evicted(before, after, now, limits) && key in before
    requires before[key].bytes <= limits.maxBytes / 2 && limits.maxItems > 0
    requires !Expired(before[key], now, limits)
    requires forall k :: k in before && k != key ==> before[k].lastAccess < before[key].lastAccess
    ensures key in after
  {
    if key !in after {
      NothingSurvives(before, after, key, now, limits);
      EmptyTotal(after);
    }
  }

  lemma {:induction false} NothingSurvives<F, V>(before: Items<F, V>, after: Items<F, V>, key: Key, now: Time, limits: Limits)
    requires Evicted(before, after, now, limits) && key in before && key !in after
    requires !Expired(before[key], now, limits)
    requires forall k :: k in before && k != key ==> before[k].lastAccess < before[key].lastAccess
    ensures after == map[] && NoRoomFor(after, before[key], limits)
  {
    var last :| IsLastEvicted(before, after, last, now, limits);
    assert last == key;
    assert forall s :: s in after ==> s in before && s != key;
  }

  // The entries above some access time stay, those below it go.
  ghost predicate CutAt<F, V>(before: Items<F, V>, after: Items<F, V>, t: Time, now: Time, limits: Limits) {
    forall k :: k in before && !Expired(before[k], now, limits) ==>
                  && (before[k].lastAccess > t ==> k in after)
                  && (before[k].lastAccess < t ==> k !in after)
  }

  // When room has to be made, what survives is the newest part.
  lemma {:induction false} SurvivorsAreNewest<F, V>(before: Items<F, V>, after: Items<F, V>, now: Time, limits: Limits)
    requires Evicted(before, after, now, limits)
    requires exists k :: k in before && k !in after && !Expired(before[k], now, limits)
    ensures exists t :: CutAt(before, after, t, now, limits)
  {
    var last :| IsLastEvicted(before, after, last, now, limits);
    assert CutAt(before, after, before[last].lastAccess, now, limits);
  }
}
