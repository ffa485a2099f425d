// The cache of the newest pages of native transcripts.
module NativeHistoryCache {
  import opened Options
  import opened Text
  import opened TranscriptEntries
  import opened TranscriptPaging

  const MAX_ENTRIES: nat := 32

  // A transcript, and what its file looks like from outside: when it was last
  // modified and how large it is.
  datatype Source = Source(agent: string, sessionId: string, path: string)
  datatype Stamp = Stamp(modifiedAt: int, size: int)

  datatype Key = Key(source: Source, limit: nat)
  datatype Cached = Cached(stamp: Stamp, page: Page, lastAccess: int)

  type Items = map<Key, Cached>

  // What a transcript says while its file looks like this.
  type Contents = (Source, Stamp) -> seq<Message>

  // The page without a cache.
  function FreshPage(messages: seq<Message>, cursor: string, limit: int): Page {
    PageBefore(EntriesOf(messages), NativeEnd(messages, cursor), Effective(limit))
  }

  ghost predicate IsOldest(items: Items, key: Key) {
    key in items && forall k :: k in items ==> items[key].lastAccess <= items[k].lastAccess
  }

  // A full cache loses the page that was not asked for the longest, even where
  // the key is already there.
  function Stored(items: Items, key: Key, cached: Cached, oldest: Key): Items {
    (if |items| >= MAX_ENTRIES then items - {oldest} else items)[key := cached]
  }

  function Invalidated(items: Items, path: string): Items {
    map k | k in items && k.source.path != path :: items[k]
  }

  lemma {:induction false} StoredParts(items: Items, key: Key, cached: Cached, oldest: Key)
    ensures var after := Stored(items, key, cached, oldest);
            && key in after && after[key] == cached
            && forall k :: k in after && k != key ==> k in items && after[k] == items[k]
  {
  }

  lemma {:induction false} InvalidatedParts(items: Items, path: string)
    ensures forall k :: k in Invalidated(items, path) <==> k in items && k.source.path != path
    ensures forall k :: k in Invalidated(items, path) ==> Invalidated(items, path)[k] == items[k]
  {
  }

  // Every page kept is the one the transcript gives.
  ghost predicate AllRight(items: Items, contents: Contents) {
    && |items| <= MAX_ENTRIES
    && forall k :: k in items ==> IsRight(k, items[k], contents)
  }

  ghost predicate IsRight(key: Key, cached: Cached, contents: Contents) {
    key.limit > 0 && cached.page == FreshPage(contents(key.source, cached.stamp), "", key.limit)
  }

  class HistoryCache {
    var items: Items

    ghost predicate Valid(contents: Contents)
      reads this
    {
      AllRight(items, contents)
    }

    constructor ()
      ensures items == map[] && forall contents :: Valid(contents)
    {
      items := map[];
    }

    // workspaceLoadNativeChatHistory with its cache. The file has no stamp
    // when it cannot be looked at. Where a stamp tells what the transcript says,
    // the cache cannot be seen in the page.
    method Load(source: Source, stamp: Option<Stamp>, messages: seq<Message>, beforeCursor: string, limit: int,
                now: int, ghost contents: Contents)
      returns (page: Page)
      requires Valid(contents) && (stamp.Some? ==> messages == contents(source, stamp.value))
      modifies this
      ensures Valid(contents)
      ensures page == FreshPage(messages, beforeCursor, limit)
      ensures var key := Key(source, if limit <= 0 then 200 else limit);
              if Trim(beforeCursor) == "" && stamp.Some? && Trim(source.path) != ""
              then key in items && items[key] == Cached(stamp.value, page, now)
              else items == old(items)
    {
      hide FreshPage, Trim;
      var size := if limit <= 0 then DEFAULT_LIMIT else limit;
      var cursor := Trim(beforeCursor);
      var cacheable := cursor == "" && stamp.Some? && Trim(source.path) != "";
      var key := Key(source, size);
      if cacheable {
        NoCursorNoEnd(messages, beforeCursor, limit);
        var hit := Lookup(key, stamp.value, now, contents);
        if hit.Some? {
          return hit.value;
        }
      }
      page := LoadNative(messages, beforeCursor, limit);
      assert page == FreshPage(messages, beforeCursor, limit) by { FreshPageIs(messages, beforeCursor, limit); }
      if cacheable {
        Store(key, stamp.value, page, now, contents);
      }
    }

    // workspaceNativeHistoryCacheLookup
    method Lookup(key: Key, stamp: Stamp, now: int, ghost contents: Contents) returns (hit: Option<Page>)
      requires Valid(contents)
      modifies this
      ensures Valid(contents) && items.Keys == old(items).Keys
      ensures hit.Some? <==> key in old(items) && old(items)[key].stamp == stamp
      ensures items == if hit.Some? then old(items)[key := Cached(stamp, hit.value, now)] else old(items)
      ensures hit.Some? ==> key.limit > 0 && hit.value == old(items)[key].page && hit.value == FreshPage(contents(key.source, stamp), "", key.limit)
    {
      hide FreshPage;
      if key !in items || items[key].stamp != stamp {
        return None;
      }
      hit := Some(items[key].page);
      SameSize(items, key, items[key].(lastAccess := now));
      items := items[key := items[key].(lastAccess := now)];
    }

    // workspaceNativeHistoryCacheStore
    method Store(key: Key, stamp: Stamp, page: Page, now: int, ghost contents: Contents)
      requires Valid(contents) && key.limit > 0 && page == FreshPage(contents(key.source, stamp), "", key.limit)
      modifies this
      ensures Valid(contents)
      ensures exists oldest :: (|old(items)| >= MAX_ENTRIES ==> IsOldest(old(items), oldest))
                               && items == Stored(old(items), key, Cached(stamp, page, now), oldest)
      ensures |old(items)| < 32 ==> items == old(items)[key := Cached(stamp, page, now)]
      ensures |old(items)| >= 32 ==>
                exists oldest :: oldest in old(items)
                                 && (forall k :: k in old(items) ==> old(items)[oldest].lastAccess <= old(items)[k].lastAccess)
                                 && items == (old(items) - {oldest})[key := Cached(stamp, page, now)]
    {
      hide FreshPage, AllRight, IsOldest;
      ghost var before := items;
      var oldestKey := key;
      RightIs(before, contents);
      if |items| >= MAX_ENTRIES {
        oldestKey := Oldest();
        OneLess(items, oldestKey);
        items := items - {oldestKey};
      }
      StoredIsRight(before, items, key, Cached(stamp, page, now), contents);
      items := items[key := Cached(stamp, page, now)];
      assert items == Stored(before, key, Cached(stamp, page, now), oldestKey);
    }

    method Oldest() returns (oldestKey: Key)
      requires |items| > 0
      ensures IsOldest(items, oldestKey) && oldestKey in items
      ensures forall k :: k in items ==> items[oldestKey].lastAccess <= items[k].lastAccess
    {
      var keys := items.Keys;
      assert keys != {};
      oldestKey :| oldestKey in keys;
      keys := keys - {oldestKey};
      while keys != {}
        invariant keys <= items.Keys && oldestKey in items
        invariant forall k :: k in items && k !in keys ==> items[oldestKey].lastAccess <= items[k].lastAccess
        decreases keys
      {
        var key :| key in keys;
        keys := keys - {key};
        if items[key].lastAccess < items[oldestKey].lastAccess {
          oldestKey := key;
        }
      }
    }

    // workspaceInvalidateNativeHistoryCacheForChat: afterwards the cache is
    // right whatever the file at the path says now, even if its stamp is the
    // old one.
    method Invalidate(path: string, ghost contents: Contents, ghost changed: Contents)
      requires Valid(contents)
      requires forall source: Source, stamp: Stamp :: source.path != path ==> changed(source, stamp) == contents(source, stamp)
      modifies this
      ensures Valid(changed)
      ensures items == Invalidated(old(items), path)
    {
      hide FreshPage;
      var keys := items.Keys;
      while keys != {}
        invariant keys <= items.Keys
        invariant |items| <= MAX_ENTRIES
        invariant forall k :: k in items <==> k in old(items) && (k in keys || k.source.path != path)
        invariant forall k :: k in items ==> items[k] == old(items)[k]
        decreases keys
      {
        var key :| key in keys;
        keys := keys - {key};
        if key.source.path == path {
          OneLess(items, key);
          items := items - {key};
        }
      }
    }
  }

  lemma {:induction false} FreshPageIs(messages: seq<Message>, cursor: string, limit: int)
    ensures FreshPage(messages, cursor, limit) == PageBefore(EntriesOf(messages), NativeEnd(messages, cursor), Effective(limit))
  {
  }

  lemma {:induction false} NoCursorNoEnd(messages: seq<Message>, cursor: string, limit: int)
    requires Trim(cursor) == ""
    ensures FreshPage(messages, cursor, limit) == FreshPage(messages, "", Effective(limit))
  {
    hide Matches, Trim, PageBefore, NativeEnd, EntriesOf;
    NativeEndIsFirst(messages, cursor);
    NativeEndIsFirst(messages, "");
    MatchesTrimmed(cursor);
    MatchesTrimmed("");
  }

  lemma {:induction false} SameSize(items: Items, key: Key, cached: Cached)
    requires key in items
    ensures |items[key := cached]| == |items|
  {
    assert items[key := cached].Keys == items.Keys;
  }

  lemma {:induction false} OneLess(items: Items, key: Key)
    requires key in items
    ensures |items - {key}| == |items| - 1
  {
    assert (items - {key}).Keys == items.Keys - {key};
    assert |items| == |items.Keys|;
  }

  lemma {:induction false} RightIs(items: Items, contents: Contents)
    requires AllRight(items, contents)
    ensures |items| <= MAX_ENTRIES
  {
  }

  lemma {:induction false} StoredIsRight(before: Items, rest: Items, key: Key, cached: Cached, contents: Contents)
    requires AllRight(before, contents) && IsRight(key, cached, contents) && |rest| < MAX_ENTRIES
    requires forall k :: k in rest ==> k in before && rest[k] == before[k]
    ensures AllRight(rest[key := cached], contents)
  {
    hide IsRight;
    assert rest[key := cached].Keys == rest.Keys + {key};
  }
}
