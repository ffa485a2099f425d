// Paging through a transcript: the initial snapshot, the pager over stored
// entries, and the pager that streams a native transcript.
module TranscriptPaging {
  import opened Options
  import opened Text
  import opened TranscriptEntries

  const INITIAL_MAX_BYTES: int := 512 * 1024
  const DEFAULT_LIMIT: int := 200

  datatype Page = Page(messages: seq<Entry>, hasOlder: bool, olderCursor: Option<string>)

  // The first entry with this cursor; the number of entries if there is none.
  function IndexOf(entries: seq<Entry>, cursor: string): (n: nat)
    ensures n <= |entries|
    ensures n < |entries| ==> Cursor(entries[n]) == cursor
    ensures forall i :: 0 <= i < n ==> Cursor(entries[i]) != cursor
  {
    IndexFrom(entries, cursor, 0)
  }

  function IndexFrom(entries: seq<Entry>, cursor: string, from: nat): (n: nat)
    requires from <= |entries|
    ensures from <= n <= |entries|
    ensures n < |entries| ==> Cursor(entries[n]) == cursor
    ensures forall i :: from <= i < n ==> Cursor(entries[i]) != cursor
    decreases |entries| - from
  {
    if from == |entries| || Cursor(entries[from]) == cursor then from else IndexFrom(entries, cursor, from + 1)
  }

  // Up to `limit` entries before `end`; the cursor is exclusive.
  function PageBefore(entries: seq<Entry>, end: nat, limit: nat): Page
    requires end <= |entries|
  {
    var start := if end < limit then 0 else end - limit;
    Page(entries[start..end], start > 0,
         if start > 0 && start < end then Some(Cursor(entries[start])) else None)
  }

  // The page holds the last `limit` entries before `end`, or all there are. There
  // is more exactly if there are more than that, and then its cursor is that of
  // its first entry.
  ghost predicate IsPage(entries: seq<Entry>, end: nat, limit: nat, page: Page) {
    && end <= |entries|
    && |page.messages| == (if end < limit then end else limit)
    && page.messages == entries[end - |page.messages|..end]
    && (page.hasOlder <==> end > limit)
    && page.olderCursor == if end > limit > 0 then Some(Cursor(page.messages[0])) else None
  }

  lemma {:induction false} PageIs(entries: seq<Entry>, end: nat, limit: nat)
    requires end <= |entries|
    ensures IsPage(entries, end, limit, PageBefore(entries, end, limit))
  {
    hide Cursor;
  }

  // ----- stored entries -----

  // eventstore's replay: the last k entries, all of them for 0
  function Replay(all: seq<Entry>, k: nat): seq<Entry> {
    if k == 0 || k >= |all| then all else all[|all| - k..]
  }

  function StoredEnd(entries: seq<Entry>, before: string): (n: nat)
    ensures n <= |entries|
  {
    if before == "" then |entries| else IndexOf(entries, before)
  }

  // Where a page ends: before the first entry with the cursor, or at the end of
  // the list for no cursor or one that no entry has.
  lemma {:induction false} StoredEndMeans(entries: seq<Entry>, before: string)
    ensures var end := StoredEnd(entries, before);
            && (before == "" ==> end == |entries|)
            && (before != "" ==> (end < |entries| ==> Cursor(entries[end]) == before)
                                 && forall i :: 0 <= i < end ==> Cursor(entries[i]) != before)
  {
    hide Cursor, IndexOf;
  }

  lemma {:induction false} StoredEndIs(entries: seq<Entry>, before: string, end: nat)
    requires end <= |entries|
    requires before == "" ==> end == |entries|
    requires before != "" && end < |entries| ==> Cursor(entries[end]) == before
    requires before != "" ==> forall i :: 0 <= i < end ==> Cursor(entries[i]) != before
    ensures StoredEnd(entries, before) == end
  {
    hide Cursor, IndexOf;
  }

  ghost predicate EndsBefore(entries: seq<Entry>, before: string, end: nat) {
    && end <= |entries|
    && (before == "" ==> end == |entries|)
    && (before != "" ==> (end < |entries| ==> Cursor(entries[end]) == before)
                         && forall i :: 0 <= i < end ==> Cursor(entries[i]) != before)
  }

  lemma {:induction false} StoredPage(entries: seq<Entry>, before: string, limit: nat)
    ensures var end := StoredEnd(entries, before);
            EndsBefore(entries, before, end) && IsPage(entries, end, limit, PageBefore(entries, end, limit))
  {
    hide StoredEnd, Cursor, IsPage;
    StoredEndMeans(entries, before);
    PageIs(entries, StoredEnd(entries, before), limit);
  }

  // workspaceLoadStoredChatHistory, on the chat's entries
  method LoadStored(entries: seq<Entry>, beforeCursor: string, limit: nat) returns (page: Page)
    ensures page == PageBefore(entries, StoredEnd(entries, beforeCursor), limit)
    ensures exists end :: EndsBefore(entries, beforeCursor, end) && IsPage(entries, end, limit, page)
  {
    hide StoredEnd, Cursor, IsPage, EndsBefore;
    StoredPage(entries, beforeCursor, limit);
    var end := |entries|;
    if beforeCursor != "" {
      for index := 0 to |entries|
        invariant end == |entries|
        invariant forall i :: 0 <= i < index ==> Cursor(entries[i]) != beforeCursor
      {
        if Cursor(entries[index]) == beforeCursor {
          end := index;
          break;
        }
      }
    }
    StoredEndIs(entries, beforeCursor, end);
    var start := end - limit;
    if start < 0 {
      start := 0;
    }
    var messages := entries[start..end];
    var olderCursor := None;
    if start > 0 && |messages| > 0 {
      olderCursor := Some(Cursor(messages[0]));
    }
    return Page(messages, start > 0, olderCursor);
  }

  // The page shows the entries from `start` on, some without raw output, and
  // says how to go on to the older ones.
  ghost predicate Shows(all: seq<Entry>, page: Page, start: nat) {
    && start <= |all| && (all != [] ==> start < |all|)
    && AllSameButRaw(page.messages, all[start..])
    && (page.hasOlder <==> start > 0)
    && page.olderCursor == if start > 0 && Cursor(all[start]) != "" then Some(Cursor(all[start])) else None
  }

  lemma {:induction false} TrimmedTail(all: seq<Entry>, base: nat, omitted: nat)
    requires base <= |all| && omitted <= |all| - base
    ensures AllSameButRaw(WithoutRaw(all[base..])[omitted..], all[base + omitted..])
  {
    hide DropsRaw;
    var trimmed := WithoutRaw(all[base..]);
    assert forall i :: 0 <= i < |trimmed| - omitted ==> trimmed[omitted..][i] == trimmed[omitted + i];
    assert all[base + omitted..] == all[base..][omitted..];
  }

  function From(entries: seq<Entry>, start: nat): (tail: seq<Entry>)
    requires start <= |entries|
    ensures |tail| == |entries| - start
  {
    entries[start..]
  }

  // Where the newest `recentLimit` entries start; all of them for no limit.
  function WindowStart(n: nat, recentLimit: int): (start: nat)
    ensures start <= n
  {
    if recentLimit > 0 && n > recentLimit then n - recentLimit else 0
  }

  // The snapshot of a transcript is made from its window: raw output that is
  // not needed there goes, and then as many of the oldest entries as do not fit
  // the byte budget. It says how to go on to what is older.
  ghost predicate IsSnapshot(all: seq<Entry>, base: nat, omitted: nat, encode: Entry -> Encoded, page: Page)
    requires base <= |all|
  {
    var trimmed := WithoutRaw(all[base..]);
    && omitted <= |trimmed|
    && page.messages == trimmed[omitted..]
    && (if trimmed == [] then omitted == 0 else NewestThatFit(trimmed, 524288, encode, omitted))
    && Shows(all, page, base + omitted)
  }

  // There is one such snapshot only.
  lemma {:induction false} SnapshotIsUnique(all: seq<Entry>, base: nat, encode: Entry -> Encoded,
                                            a: nat, p: Page, b: nat, q: Page)
    requires base <= |all| && IsSnapshot(all, base, a, encode, p) && IsSnapshot(all, base, b, encode, q)
    ensures a == b && p == q
  {
    hide NewestThatFit, DropsRaw, AllSameButRaw;
    var trimmed := WithoutRaw(all[base..]);
    if trimmed != [] {
      FitIsUnique(trimmed, INITIAL_MAX_BYTES, encode, a, b);
    }
  }

  lemma {:induction false} SnapshotOf(all: seq<Entry>, base: nat, window: seq<Entry>, omitted: nat,
                                      encode: Entry -> Encoded, page: Page)
    requires base <= |all| && window == From(all, base) && (window == [] ==> all == [])
    requires omitted <= |window| && page.messages == WithoutRaw(window)[omitted..]
    requires if window == [] then omitted == 0 else NewestThatFit(WithoutRaw(window), INITIAL_MAX_BYTES, encode, omitted)
    requires page.hasOlder <==> base + omitted > 0
    requires window == [] ==> page.olderCursor == None
    requires omitted < |window| ==>
               page.olderCursor == if page.hasOlder && Cursor(window[omitted]) != "" then Some(Cursor(window[omitted])) else None
    ensures IsSnapshot(all, base, omitted, encode, page)
  {
    hide DropsRaw, Cursor, AllSameButRaw, NewestThatFit;
    FitsSome(WithoutRaw(window), omitted, encode);
    TrimmedTail(all, base, omitted);
  }

  // One entry more than the limit is enough to know the window and whether
  // there is anything before it.
  lemma {:induction false} WindowIs(all: seq<Entry>, recentLimit: int)
    ensures var entries := Replay(all, if recentLimit > 0 then recentLimit + 1 else 0);
            var start, base := if recentLimit > 0 && |entries| > recentLimit then |entries| - recentLimit else 0,
                               WindowStart(|all|, recentLimit);
            && From(entries, start) == From(all, base)
            && (start > 0 <==> base > 0)
            && (base == |all| ==> all == [])
            && (forall i :: start <= i < |entries| ==> entries[i] == From(all, base)[i - start])
  {
  }

  // workspaceChatTranscriptSnapshot
  method ChatSnapshot(all: seq<Entry>, recentLimit: int, encode: Entry -> Encoded) returns (page: Page, omitted: nat)
    ensures IsSnapshot(all, WindowStart(|all|, recentLimit), omitted, encode, page)
    ensures |page.messages| + omitted == if 0 < recentLimit < |all| then recentLimit else |all|
  {
    hide WithoutRaw, Cursor, NewestThatFit, Shows, IsSnapshot, From, Replay;
    var tailLimit := if recentLimit > 0 then recentLimit + 1 else 0;
    var entries := Replay(all, tailLimit);
    var start := 0;
    if recentLimit > 0 && |entries| > recentLimit {
      start := |entries| - recentLimit;
    }
    ghost var base := WindowStart(|all|, recentLimit);
    var window := From(entries, start);
    WindowIs(all, recentLimit);
    var trimmed := TrimPayload(window);
    var kept;
    kept, omitted := BoundPayload(trimmed, INITIAL_MAX_BYTES, encode);
    FitsSome(trimmed, omitted, encode);
    start := start + omitted;
    var hasOlder := start > 0;
    var olderCursor := None;
    if hasOlder && start < |entries| {
      var cursor := Cursor(entries[start]);
      if cursor != "" {
        olderCursor := Some(cursor);
      }
    }
    page := Page(kept, hasOlder, olderCursor);
    SnapshotOf(all, base, window, omitted, encode, page);
  }

  lemma {:induction false} FitsSome(trimmed: seq<Entry>, omitted: nat, encode: Entry -> Encoded)
    requires if trimmed == [] then omitted == 0 else NewestThatFit(trimmed, INITIAL_MAX_BYTES, encode, omitted)
    ensures omitted <= |trimmed| && (trimmed != [] ==> omitted < |trimmed|)
  {
  }

  // Raw output a tool needs is missing from the window exactly where the call
  // lies before it; a call that only the byte budget leaves out still counts.
  lemma {:induction false} SnapshotLosesRaw(all: seq<Entry>, base: nat, omitted: nat, encode: Entry -> Encoded, page: Page,
                                            i: nat)
    requires base <= |all| && IsSnapshot(all, base, omitted, encode, page)
    requires base + omitted <= i < |all|
    requires all[i].kind == "tool_result" && all[i].debugRaw != ""
    requires NeedsDebugRaw(KindBefore(all, i, all[i].toolId))
    ensures i - base - omitted < |page.messages|
    ensures page.messages[i - base - omitted] != all[i] <==> !CalledWithin(all, base, i, all[i].toolId)
    ensures page.messages[i - base - omitted] == all[i] || page.messages[i - base - omitted] == all[i].(debugRaw := "")
  {
    hide KindBefore, CalledWithin, NewestThatFit, Shows;
    WindowDropsRaw(all, base, i);
    var trimmed := WithoutRaw(all[base..]);
    assert page.messages[i - base - omitted] == trimmed[i - base];
    assert all[base..][i - base] == all[i];
  }

  // A question and its answer.
  function AskUser(tool: string): seq<Entry> {
    [Entry("c", "", "", "tool_call", "", tool, "ask_user_question", "", "question"),
     Entry("r", "", "", "tool_result", tool, "", "", "raw", "answer")]
  }

  // The snapshot of one entry loses the raw output of the answer, which is
  // needed.
  lemma {:induction false} AnswerLosesRaw(tool: string, omitted: nat, encode: Entry -> Encoded, page: Page)
    requires tool != "" && IsSnapshot(AskUser(tool), WindowStart(2, 1), omitted, encode, page)
    ensures NeedsDebugRaw(KindBefore(AskUser(tool), 1, tool))
    ensures page.messages == [AskUser(tool)[1].(debugRaw := "")]
  {
    hide NewestThatFit, Shows;
    var all := AskUser(tool);
    assert !DropsRaw(all, 1);
    FitsSome(WithoutRaw(all[1..]), omitted, encode);
    SnapshotLosesRaw(all, 1, omitted, encode, page, 1);
    assert !CalledWithin(all, 1, 1, tool);
  }

  // ----- native transcripts -----

  // A message of the parser, with the rest of the entry made from it.
  datatype Message = Message(id: string, index: nat, content: Entry)

  // workspaceSearchableCursor
  function MessageCursor(m: Message): string {
    if Trim(m.id) != "" then Trim(m.id) else Itoa(m.index)
  }

  // workspaceSearchableMatchesCursor
  predicate Matches(m: Message, cursor: string) {
    var c := Trim(cursor);
    c != "" && (c == MessageCursor(m) || c == Itoa(m.index))
  }

  // A cursor stands for a message if it is, trimmed, its trimmed id or its
  // number.
  lemma {:induction false} MatchesIs(m: Message, cursor: string)
    ensures Matches(m, cursor) <==> Trim(cursor) != "" && (Trim(cursor) == Trim(m.id) || Trim(cursor) == Itoa(m.index))
    ensures MessageCursor(m) == Trim(m.id) || (Trim(m.id) == "" && MessageCursor(m) == Itoa(m.index))
    ensures MessageCursor(m) != ""
  {
    hide Trim, Itoa;
  }

  // workspaceTranscriptEntryFromSearchable
  function EntryOf(m: Message): Entry {
    m.content.(id := MessageCursor(m), messageId := m.id)
  }

  // An entry is its message's content, under the message's cursor and id.
  lemma {:induction false} EntryIs(m: Message)
    ensures var e, c := EntryOf(m), m.content;
            && e.id == (if Trim(m.id) != "" then Trim(m.id) else Itoa(m.index)) && e.messageId == m.id
            && (e.altId, e.kind, e.toolId, e.nestedToolId) == (c.altId, c.kind, c.toolId, c.nestedToolId)
            && (e.toolKind, e.debugRaw, e.body) == (c.toolKind, c.debugRaw, c.body)
  {
    hide Trim, Itoa;
  }

  function EntriesOf(messages: seq<Message>): (entries: seq<Entry>)
    ensures |entries| == |messages|
    ensures forall i :: 0 <= i < |messages| ==> entries[i] == EntryOf(messages[i])
  {
    seq(|messages|, i requires 0 <= i < |messages| => EntryOf(messages[i]))
  }

  // The first message the cursor matches, where the stream is stopped.
  function NativeEnd(messages: seq<Message>, cursor: string): (n: nat)
    ensures n <= |messages|
  {
    MatchFrom(messages, cursor, 0)
  }

  function MatchFrom(messages: seq<Message>, cursor: string, from: nat): (n: nat)
    requires from <= |messages|
    ensures from <= n <= |messages|
    decreases |messages| - from
  {
    if from == |messages| || Matches(messages[from], cursor) then from else MatchFrom(messages, cursor, from + 1)
  }

  lemma {:induction false} MatchFromIsFirst(messages: seq<Message>, cursor: string, from: nat)
    requires from <= |messages|
    ensures var n := MatchFrom(messages, cursor, from);
            && (n < |messages| ==> Matches(messages[n], cursor))
            && (forall i :: from <= i < n ==> !Matches(messages[i], cursor))
    decreases |messages| - from
  {
    hide Matches;
    if from < |messages| && !Matches(messages[from], cursor) {
      MatchFromIsFirst(messages, cursor, from + 1);
    }
  }

  lemma {:induction false} NativeEndIsFirst(messages: seq<Message>, cursor: string)
    ensures var n := NativeEnd(messages, cursor);
            && (n < |messages| ==> Matches(messages[n], cursor))
            && (forall i :: 0 <= i < n ==> !Matches(messages[i], cursor))
  {
    hide Matches, MatchFrom;
    MatchFromIsFirst(messages, cursor, 0);
  }

  lemma {:induction false} NativeEndIs(messages: seq<Message>, cursor: string, n: nat)
    requires n <= |messages| && (n < |messages| ==> Matches(messages[n], cursor))
    requires forall i :: 0 <= i < n ==> !Matches(messages[i], cursor)
    ensures NativeEnd(messages, cursor) == n
  {
    hide Matches, NativeEnd;
    NativeEndIsFirst(messages, cursor);
  }

  function Max0(n: int): nat {
    if n < 0 then 0 else n
  }

  // The last entries before i, as many as there is room for.
  function LastOnes(entries: seq<Entry>, i: nat, room: nat): seq<Entry>
    requires i <= |entries|
  {
    entries[Max0(i - room)..i]
  }

  // A window that slides along the entries: the last ones seen, as far as there
  // is room, and whether any slid out.
  ghost predicate Scanning(entries: seq<Entry>, before: seq<Entry>, hasOlder: bool, i: nat, room: nat) {
    && i <= |entries|
    && hasOlder == (i > room)
    && before == LastOnes(entries, i, room)
  }

  lemma {:induction false} ScanOne(entries: seq<Entry>, before: seq<Entry>, hasOlder: bool, i: nat, room: nat)
    requires Scanning(entries, before, hasOlder, i, room) && i < |entries| && room > 0
    ensures |before| >= room ==> before != [] && Scanning(entries, before[1..] + [entries[i]], true, i + 1, room)
    ensures |before| < room ==> Scanning(entries, before + [entries[i]], hasOlder, i + 1, room)
  {
  }

  lemma {:induction false} ScanNothing(entries: seq<Entry>, room: nat)
    ensures Scanning(entries, [], false, 0, room)
  {
  }

  lemma {:induction false} ScannedPage(entries: seq<Entry>, window: seq<Entry>, hasOlder: bool, end: nat, limit: nat)
    requires Scanning(entries, window, hasOlder, end, limit)
    ensures PageBefore(entries, end, limit)
            == Page(window, hasOlder, if hasOlder && |window| > 0 then Some(Cursor(window[0])) else None)
  {
    hide Cursor;
  }

  function Effective(limit: int): (l: nat)
    ensures l > 0
    ensures l == if limit > 0 then limit else 200
  {
    if limit <= 0 then DEFAULT_LIMIT else limit
  }

  lemma {:induction false} MatchesTrimmed(cursor: string)
    ensures forall m :: cursor == "" || Trim(cursor) == "" ==> !Matches(m, cursor)
    ensures forall m :: Matches(m, Trim(cursor)) <==> Matches(m, cursor)
  {
    hide MessageCursor, Itoa;
    TrimOfClean(Trim(cursor));
    assert Trim("") == "";
  }

  // What the callback does with a message that does not stop it.
  method Slide(window: seq<Entry>, hasOlder: bool, size: nat, entry: Entry, ghost entries: seq<Entry>, ghost i: nat)
    returns (slid: seq<Entry>, older: bool)
    requires size > 0 && Scanning(entries, window, hasOlder, i, size) && i < |entries| && entry == entries[i]
    ensures Scanning(entries, slid, older, i + 1, size)
  {
    hide Scanning;
    ScanOne(entries, window, hasOlder, i, size);
    slid, older := window, hasOlder;
    if |window| >= size {
      older := true;
      slid := window[1..];
    }
    slid := slid + [entry];
  }

  // workspaceLoadNativeChatHistory, on the messages the parser streams
  method LoadNative(messages: seq<Message>, beforeCursor: string, limit: int) returns (page: Page)
    ensures page == PageBefore(EntriesOf(messages), NativeEnd(messages, beforeCursor), Effective(limit))
    ensures IsPage(EntriesOf(messages), NativeEnd(messages, beforeCursor), if limit > 0 then limit else 200, page)
  {
    hide Matches, Trim, MessageCursor, NativeEnd, EntryOf, EntriesOf, Cursor, Scanning, LastOnes, PageBefore, IsPage;
    PageIs(EntriesOf(messages), NativeEnd(messages, beforeCursor), Effective(limit));
    var size := if limit <= 0 then DEFAULT_LIMIT else limit;
    var cursor := Trim(beforeCursor);
    MatchesTrimmed(beforeCursor);
    var window: seq<Entry> := [];
    var hasOlder := false;
    ghost var entries := EntriesOf(messages);
    ScanNothing(entries, size);
    var i := 0;
    while i < |messages|
      invariant 0 <= i <= |messages|
      invariant forall j :: 0 <= j < i ==> !Matches(messages[j], beforeCursor)
      invariant Scanning(entries, window, hasOlder, i, size)
    {
      var message := messages[i];
      if cursor != "" && Matches(message, cursor) {
        break;
      }
      window, hasOlder := Slide(window, hasOlder, size, EntryOf(message), entries, i);
      i := i + 1;
    }
    NativeEndIs(messages, beforeCursor, i);
    ScannedPage(entries, window, hasOlder, i, size);
    var olderCursor := None;
    if hasOlder && |window| > 0 {
      olderCursor := Some(Cursor(window[0]));
    }
    return Page(window, hasOlder, olderCursor);
  }

  lemma {:induction false} NativeCursorsNotBlank(messages: seq<Message>)
    ensures forall i :: 0 <= i < |messages| ==> Cursor(EntriesOf(messages)[i]) == MessageCursor(messages[i]) != ""
    ensures forall i :: 0 <= i < |messages| ==> Clean(Cursor(EntriesOf(messages)[i]))
  {
    hide Trim, Itoa;
    forall i | 0 <= i < |messages|
      ensures Cursor(EntriesOf(messages)[i]) == MessageCursor(messages[i]) != "" && Clean(MessageCursor(messages[i]))
    {
      ItoaIsClean(messages[i].index);
    }
  }

  // workspaceNativeTranscriptSnapshot
  method NativeSnapshot(messages: seq<Message>, recentLimit: int, encode: Entry -> Encoded)
    returns (page: Page, omitted: nat)
    ensures var all := EntriesOf(messages);
            IsSnapshot(all, WindowStart(|all|, Effective(recentLimit)), omitted, encode, page)
    ensures |page.messages| + omitted == if 0 < recentLimit < |messages| then recentLimit
                                         else if recentLimit <= 0 && 200 < |messages| then 200 else |messages|
  {
    hide MessageCursor, Trim, NativeEnd, EntriesOf, WithoutRaw, Cursor, NewestThatFit, Shows, IsSnapshot, PageBefore, From;
    var loaded := LoadNative(messages, "", recentLimit);
    ghost var all := EntriesOf(messages);
    NativeCursorsNotBlank(messages);
    NoCursorIsTheEnd(messages);
    ghost var base := WindowStart(|all|, Effective(recentLimit));
    TailPage(all, Effective(recentLimit));
    var trimmed := TrimPayload(loaded.messages);
    var kept;
    kept, omitted := BoundPayload(trimmed, INITIAL_MAX_BYTES, encode);
    FitsSome(trimmed, omitted, encode);
    var hasOlder, olderCursor := loaded.hasOlder, loaded.olderCursor;
    if omitted > 0 {
      hasOlder := true;
      var cursor := Cursor(loaded.messages[omitted]);
      if cursor != "" {
        olderCursor := Some(cursor);
      }
    }
    page := Page(kept, hasOlder, olderCursor);
    SnapshotOf(all, base, loaded.messages, omitted, encode, page);
  }

  lemma {:induction false} TailPage(all: seq<Entry>, limit: nat)
    requires limit > 0
    ensures var page, base := PageBefore(all, |all|, limit), WindowStart(|all|, limit);
            && page.messages == From(all, base)
            && (page.hasOlder <==> base > 0)
            && page.olderCursor == (if base > 0 then Some(Cursor(page.messages[0])) else None)
            && (base == |all| ==> all == [])
            && (forall j :: 0 <= j < |page.messages| ==> page.messages[j] == all[base + j])
  {
    hide Cursor, From;
    FromIs(all, WindowStart(|all|, limit));
  }

  lemma {:induction false} FromIs(entries: seq<Entry>, start: nat)
    requires start <= |entries|
    ensures From(entries, start) == entries[start..|entries|]
    ensures forall j :: 0 <= j < |entries| - start ==> From(entries, start)[j] == entries[start + j]
  {
  }

  lemma {:induction false} NoCursorIsTheEnd(messages: seq<Message>)
    ensures NativeEnd(messages, "") == |messages|
  {
    hide Matches;
    NativeEndIsFirst(messages, "");
    MatchesTrimmed("");
  }
}
