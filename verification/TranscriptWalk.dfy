// What the pagers promise together: the same transcript, whole, whichever of
// them serves it and whatever is appended to it meanwhile.
module TranscriptWalk {
  import opened Options
  import opened Text
  import opened TranscriptEntries
  import opened TranscriptPaging

  ghost predicate DistinctCursors(entries: seq<Entry>) {
    forall i, j :: 0 <= i < j < |entries| ==> Cursor(entries[i]) != Cursor(entries[j])
  }

  ghost predicate HasCursors(entries: seq<Entry>) {
    forall i :: 0 <= i < |entries| ==> Cursor(entries[i]) != ""
  }

  // ----- the two pagers agree -----

  // The streaming pager and the pager over the entries end their page at the
  // same place exactly when the message that stops the stream, if any does,
  // carries the cursor itself, and not just its number or the cursor without
  // its margins.
  lemma {:induction false} EndsAgree(messages: seq<Message>, cursor: string)
    ensures var entries, end := EntriesOf(messages), NativeEnd(messages, cursor);
            end == StoredEnd(entries, cursor) <==> end == |messages| || Cursor(entries[end]) == cursor
  {
    hide Matches, MessageCursor, EntryOf, NativeEnd, EntriesOf;
    var entries, end := EntriesOf(messages), NativeEnd(messages, cursor);
    var stored := StoredEnd(entries, cursor);
    NativeEndIsFirst(messages, cursor);
    NativeCursorsNotBlank(messages);
    NoCursorIsTheEnd(messages);
    if stored < |messages| {
      OwnCursorMatches(messages[stored], cursor);
    }
  }

  // With distinct cursors the pages are the same only then.
  lemma {:induction false} PagersAgree(messages: seq<Message>, cursor: string, limit: nat)
    requires limit > 0 && DistinctCursors(EntriesOf(messages))
    ensures var entries, end := EntriesOf(messages), NativeEnd(messages, cursor);
            PageBefore(entries, end, limit) == PageBefore(entries, StoredEnd(entries, cursor), limit)
            <==> end == |messages| || Cursor(entries[end]) == cursor
  {
    hide PageBefore, NativeEnd, EntriesOf, DistinctCursors, Cursor;
    var entries, end := EntriesOf(messages), NativeEnd(messages, cursor);
    var stored := StoredEnd(entries, cursor);
    EndsAgree(messages, cursor);
    if end < stored {
      PagesDiffer(entries, end, stored, limit);
    } else if stored < end {
      PagesDiffer(entries, stored, end, limit);
    }
  }

  lemma {:induction false} OwnCursorMatches(m: Message, cursor: string)
    requires MessageCursor(m) == cursor
    ensures Matches(m, cursor)
  {
    hide Trim, Itoa;
    ItoaIsClean(m.index);
    TrimOfClean(cursor);
  }

  lemma {:induction false} PagesDiffer(entries: seq<Entry>, a: nat, b: nat, limit: nat)
    requires DistinctCursors(entries) && a < b <= |entries| && limit > 0
    ensures PageBefore(entries, a, limit) != PageBefore(entries, b, limit)
  {
    var p, q := PageBefore(entries, a, limit).messages, PageBefore(entries, b, limit).messages;
    assert q[|q| - 1] == entries[b - 1];
    assert p != [] ==> p[|p| - 1] == entries[a - 1];
  }

  // ----- transcripts as the parser numbers them -----

  function EventId(session: string, index: nat): string {
    "evt_" + session + "_" + Itoa(index)
  }

  ghost predicate ParserNumbered(messages: seq<Message>, session: string) {
    && (forall i :: 0 <= i < |messages| ==> messages[i].id == EventId(session, messages[i].index))
    && (forall i, j :: 0 <= i < j < |messages| ==> messages[i].index < messages[j].index)
  }

  lemma {:induction false} EventIdFacts(session: string, a: nat, b: nat)
    ensures Trim(EventId(session, a)) == EventId(session, a) != ""
    ensures EventId(session, a) != Itoa(b)
    ensures EventId(session, a) == EventId(session, b) ==> a == b
  {
    hide Itoa, Trim;
    var s, front := EventId(session, a), "evt_" + session + "_";
    ItoaIsClean(a);
    assert s[0] == 'e' && s[|s| - 1] == Itoa(a)[|Itoa(a)| - 1];
    TrimOfClean(s);
    assert !IsDigit(s[0]);
    if s == EventId(session, b) {
      assert s[|front|..] == Itoa(a) && EventId(session, b)[|front|..] == Itoa(b);
      ItoaInjective(a, b);
    }
  }

  lemma {:induction false} NumberedCursors(messages: seq<Message>, session: string)
    requires ParserNumbered(messages, session)
    ensures forall i :: 0 <= i < |messages| ==> Cursor(EntriesOf(messages)[i]) == messages[i].id
    ensures DistinctCursors(EntriesOf(messages)) && HasCursors(EntriesOf(messages))
  {
    hide Trim, Itoa, EntriesOf, EventId;
    forall i | 0 <= i < |messages| ensures Cursor(EntriesOf(messages)[i]) == messages[i].id != "" {
      EventIdFacts(session, messages[i].index, 0);
    }
    forall i, j | 0 <= i < j < |messages| ensures messages[i].id != messages[j].id {
      EventIdFacts(session, messages[i].index, messages[j].index);
    }
  }

  // On them the pagers agree for every cursor a page hands out.
  lemma {:induction false} PagersAgreeOnNumbered(messages: seq<Message>, session: string, k: nat)
    requires ParserNumbered(messages, session) && k < |messages|
    ensures NativeEnd(messages, messages[k].id) == StoredEnd(EntriesOf(messages), messages[k].id) == k
  {
    hide Matches, EntriesOf, NativeEnd, EventId, StoredEnd, Cursor, DistinctCursors, HasCursors;
    var c := messages[k].id;
    NumberedCursors(messages, session);
    NativeEndIsFirst(messages, c);
    forall i | 0 <= i < |messages| ensures Matches(messages[i], c) <==> i == k {
      NumberedMatches(messages[i], messages[k], session);
      IndexesDiffer(messages, session, i, k);
    }
    StoredEndIs(messages, session, k);
  }

  lemma {:induction false} IndexesDiffer(messages: seq<Message>, session: string, i: nat, j: nat)
    requires ParserNumbered(messages, session) && i < |messages| && j < |messages|
    ensures messages[i].index == messages[j].index <==> i == j
  {
    hide EventId;
  }

  lemma {:induction false} StoredEndIs(messages: seq<Message>, session: string, k: nat)
    requires ParserNumbered(messages, session) && k < |messages|
    ensures StoredEnd(EntriesOf(messages), messages[k].id) == k
  {
    hide EntriesOf, EventId, IndexOf;
    NumberedCursors(messages, session);
    IndexOfDistinct(EntriesOf(messages), k);
  }

  lemma {:induction false} NumberedMatches(m: Message, other: Message, session: string)
    requires m.id == EventId(session, m.index) && other.id == EventId(session, other.index)
    ensures Matches(m, other.id) <==> m.index == other.index
  {
    hide Trim, Itoa, EventId;
    EventIdFacts(session, m.index, other.index);
    EventIdFacts(session, other.index, m.index);
  }

  // For any cursor a caller may send: the pages agree exactly if the cursor,
  // trimmed, is no message's number, and is untrimmed if it is a message's id.
  lemma {:induction false} PagersAgreeOnParsed(messages: seq<Message>, session: string, cursor: string, limit: nat)
    requires limit > 0 && ParserNumbered(messages, session)
    ensures var entries, c := EntriesOf(messages), Trim(cursor);
            PageBefore(entries, NativeEnd(messages, cursor), limit)
            == PageBefore(entries, StoredEnd(entries, cursor), limit)
            <==> (forall i :: 0 <= i < |messages| ==> Itoa(messages[i].index) != c)
                 && ((exists i :: 0 <= i < |messages| && messages[i].id == c) ==> cursor == c)
  {
    hide Matches, EntriesOf, NativeEnd, EventId, StoredEnd, PageBefore, DistinctCursors, HasCursors, Cursor, Itoa, Trim;
    var entries, c, end := EntriesOf(messages), Trim(cursor), NativeEnd(messages, cursor);
    NumberedCursors(messages, session);
    PagersAgree(messages, cursor, limit);
    NativeEndIsFirst(messages, cursor);
    forall i | 0 <= i < |messages|
      ensures Matches(messages[i], cursor) <==> messages[i].id == c || Itoa(messages[i].index) == c
      ensures Trim(messages[i].id) == messages[i].id
      ensures forall j :: 0 <= j < |messages| ==> messages[i].id != Itoa(messages[j].index)
    {
      NumberedMatch(messages[i], session, cursor);
      forall j | 0 <= j < |messages| ensures messages[i].id != Itoa(messages[j].index) {
        EventIdFacts(session, messages[i].index, messages[j].index);
      }
    }
  }

  lemma {:induction false} NumberedMatch(m: Message, session: string, cursor: string)
    requires m.id == EventId(session, m.index)
    ensures Matches(m, cursor) <==> m.id == Trim(cursor) || Itoa(m.index) == Trim(cursor)
    ensures Trim(m.id) == m.id
  {
    hide Itoa, EventId, Trim;
    EventIdFacts(session, m.index, 0);
    assert Itoa(m.index) != "";
  }

  // A parsed message and its number: the stream stops there, and the pager
  // over entries does not know it.
  lemma {:induction false} NumberedCursorDiffers(session: string, content: Entry, limit: nat)
    requires limit > 0
    ensures var messages := [Message(EventId(session, 7), 7, content)];
            && ParserNumbered(messages, session)
            && PageBefore(EntriesOf(messages), NativeEnd(messages, "7"), limit)
               != PageBefore(EntriesOf(messages), StoredEnd(EntriesOf(messages), "7"), limit)
  {
    hide Itoa, EventId, PageBefore, NativeEnd, StoredEnd, EntriesOf, Trim;
    var messages := [Message(EventId(session, 7), 7, content)];
    SevenIsClean();
    assert Itoa(messages[0].index) == Trim("7");
    PagersAgreeOnParsed(messages, session, "7", limit);
  }

  lemma {:induction false} SevenIsClean()
    ensures Trim("7") == "7" == Itoa(7)
  {
    hide Trim;
    TrimOfClean("7");
  }

  // ----- pages do not move -----

  lemma {:induction false} IndexOfPrefix(entries: seq<Entry>, more: seq<Entry>, cursor: string)
    requires IndexOf(entries, cursor) < |entries|
    ensures IndexOf(entries + more, cursor) == IndexOf(entries, cursor)
  {
    hide IndexOf, Cursor;
    var n, all := IndexOf(entries, cursor), entries + more;
    assert all[n] == entries[n];
    assert forall i :: 0 <= i < n ==> all[i] == entries[i];
  }

  // What is appended between requests does not change the page before a
  // cursor of the transcript.
  lemma {:induction false} StoredPageStable(entries: seq<Entry>, more: seq<Entry>, cursor: string, limit: nat)
    requires cursor != "" && IndexOf(entries, cursor) < |entries|
    ensures PageBefore(entries + more, StoredEnd(entries + more, cursor), limit)
         == PageBefore(entries, StoredEnd(entries, cursor), limit)
  {
    hide IndexOf;
    IndexOfPrefix(entries, more, cursor);
    SamePage(entries, more, IndexOf(entries, cursor), limit);
  }

  lemma {:induction false} SamePage(entries: seq<Entry>, more: seq<Entry>, end: nat, limit: nat)
    requires end <= |entries|
    ensures PageBefore(entries + more, end, limit) == PageBefore(entries, end, limit)
  {
    var start := if end < limit then 0 else end - limit;
    assert (entries + more)[start..end] == entries[start..end];
  }

  lemma {:induction false} NativeEndPrefix(messages: seq<Message>, more: seq<Message>, cursor: string)
    requires NativeEnd(messages, cursor) < |messages|
    ensures NativeEnd(messages + more, cursor) == NativeEnd(messages, cursor)
  {
    hide Matches, NativeEnd;
    var n, all := NativeEnd(messages, cursor), messages + more;
    NativeEndIsFirst(messages, cursor);
    assert all[n] == messages[n];
    assert forall i :: 0 <= i < n ==> all[i] == messages[i];
    NativeEndIs(all, cursor, n);
  }

  lemma {:induction false} NativePageStable(messages: seq<Message>, more: seq<Message>, cursor: string, limit: nat)
    requires NativeEnd(messages, cursor) < |messages|
    ensures PageBefore(EntriesOf(messages + more), NativeEnd(messages + more, cursor), limit)
         == PageBefore(EntriesOf(messages), NativeEnd(messages, cursor), limit)
  {
    hide NativeEnd, EntryOf;
    NativeEndPrefix(messages, more, cursor);
    assert EntriesOf(messages + more) == EntriesOf(messages) + EntriesOf(more);
    SamePage(EntriesOf(messages), EntriesOf(more), NativeEnd(messages, cursor), limit);
  }

  // ----- the walk -----

  // A client that follows olderCursor until hasOlder is false. The k-th
  // request asks for limits(k) entries and finds `later(k)` appended to the
  // transcript the walk began with.
  ghost predicate Positive(limits: nat -> nat) {
    forall k :: limits(k) > 0
  }

  function Request(all: seq<Entry>, cursor: string, limits: nat -> nat, later: nat -> seq<Entry>, k: nat): Page {
    var entries := all + later(k);
    PageBefore(entries, StoredEnd(entries, cursor), limits(k))
  }

  ghost function Walk(all: seq<Entry>, cursor: string, limits: nat -> nat, later: nat -> seq<Entry>, k: nat): seq<Page>
    requires DistinctCursors(all) && HasCursors(all) && Positive(limits)
    requires cursor != "" && IndexOf(all, cursor) < |all|
    decreases IndexOf(all, cursor)
  {
    var page := Request(all, cursor, limits, later, k);
    RequestIs(all, cursor, limits, later, k);
    if page.hasOlder then [page] + Walk(all, page.olderCursor.value, limits, later, k + 1) else [page]
  }

  lemma {:induction false} RequestIs(all: seq<Entry>, cursor: string, limits: nat -> nat, later: nat -> seq<Entry>, k: nat)
    requires DistinctCursors(all) && HasCursors(all) && Positive(limits)
    requires cursor != "" && IndexOf(all, cursor) < |all|
    ensures var page, end := Request(all, cursor, limits, later, k), IndexOf(all, cursor);
            var start := end - |page.messages|;
            && 0 <= start <= end && page.messages == all[start..end]
            && (page.hasOlder <==> start > 0)
            && (page.hasOlder ==> start < end && page.olderCursor == Some(Cursor(all[start]))
                                  && IndexOf(all, Cursor(all[start])) == start && Cursor(all[start]) != "")
  {
    hide IndexOf;
    StoredPageStable(all, later(k), cursor, limits(k));
    var page := Request(all, cursor, limits, later, k);
    if page.hasOlder {
      IndexOfDistinct(all, IndexOf(all, cursor) - |page.messages|);
    }
  }

  lemma {:induction false} IndexOfDistinct(all: seq<Entry>, i: nat)
    requires DistinctCursors(all) && i < |all|
    ensures IndexOf(all, Cursor(all[i])) == i
  {
    var n := IndexOf(all, Cursor(all[i]));
    assert n <= i;
  }

  function OldestFirst(pages: seq<Page>): seq<Entry> {
    if pages == [] then [] else OldestFirst(pages[1..]) + pages[0].messages
  }

  // The walk ends, at the oldest entry, and its pages put together are
  // everything before the cursor: no gap and no entry twice.
  lemma {:induction false} WalkIsWhole(all: seq<Entry>, cursor: string, limits: nat -> nat, later: nat -> seq<Entry>, k: nat)
    requires DistinctCursors(all) && HasCursors(all) && Positive(limits)
    requires cursor != "" && IndexOf(all, cursor) < |all|
    ensures var pages := Walk(all, cursor, limits, later, k);
            && OldestFirst(pages) == all[..IndexOf(all, cursor)]
            && |pages| > 0 && !pages[|pages| - 1].hasOlder
            && forall i :: 0 <= i < |pages| - 1 ==> pages[i].hasOlder && pages[i].messages != []
    decreases IndexOf(all, cursor)
  {
    hide IndexOf, Request, OldestFirst, DistinctCursors, HasCursors, Positive, Cursor;
    var page, end := Request(all, cursor, limits, later, k), IndexOf(all, cursor);
    RequestIs(all, cursor, limits, later, k);
    if page.hasOlder {
      var next := page.olderCursor.value;
      var rest := Walk(all, next, limits, later, k + 1);
      WalkIsWhole(all, next, limits, later, k + 1);
      OldestFirstOf(page, rest);
      assert all[..end] == all[..IndexOf(all, next)] + page.messages;
    } else {
      OldestFirstOf(page, []);
      assert [page] + [] == [page];
      assert all[..end] == [] + page.messages;
    }
  }

  lemma {:induction false} OldestFirstOf(page: Page, rest: seq<Page>)
    ensures OldestFirst([page] + rest) == OldestFirst(rest) + page.messages
    ensures OldestFirst([]) == []
  {
    assert ([page] + rest)[1..] == rest;
  }

  // From any snapshot the client rebuilds the whole transcript, up to raw
  // tool output that the snapshot left out.
  lemma {:induction false} SnapshotAndWalkRebuild(all: seq<Entry>, snapshot: Page, start: nat, limits: nat -> nat, later: nat -> seq<Entry>)
    requires DistinctCursors(all) && HasCursors(all) && Positive(limits)
    requires Shows(all, snapshot, start)
    ensures !snapshot.hasOlder ==> AllSameButRaw(snapshot.messages, all)
    ensures snapshot.hasOlder ==>
              && snapshot.olderCursor.Some? && snapshot.olderCursor.value != ""
              && IndexOf(all, snapshot.olderCursor.value) < |all|
              && var older := OldestFirst(Walk(all, snapshot.olderCursor.value, limits, later, 0));
                 && older <= all
                 && AllSameButRaw(older + snapshot.messages, all)
  {
    hide IndexOf, Walk, SameButRaw;
    if snapshot.hasOlder {
      var cursor := Cursor(all[start]);
      IndexOfDistinct(all, start);
      WalkIsWhole(all, cursor, limits, later, 0);
      assert all == all[..start] + all[start..];
      Reflexive(all[..start]);
      SameButRawConcat(all[..start], all[..start], snapshot.messages, all[start..]);
    } else {
      assert all[0..] == all;
    }
  }

  // ----- the walk over a native transcript -----

  function NativeRequest(messages: seq<Message>, cursor: string, limits: nat -> nat, later: nat -> seq<Message>, k: nat): Page {
    var now := messages + later(k);
    PageBefore(EntriesOf(now), NativeEnd(now, cursor), limits(k))
  }

  ghost function NativeWalk(messages: seq<Message>, session: string, cursor: string, limits: nat -> nat,
                            later: nat -> seq<Message>, k: nat): seq<Page>
    requires ParserNumbered(messages, session) && Positive(limits)
    requires cursor != "" && IndexOf(EntriesOf(messages), cursor) < |messages|
    decreases IndexOf(EntriesOf(messages), cursor)
  {
    hide EntriesOf, IndexOf, NativeRequest, Request, DistinctCursors, HasCursors;
    var page := NativeRequest(messages, cursor, limits, later, k);
    NumberedCursors(messages, session);
    NativeRequestIs(messages, session, cursor, limits, later, k);
    RequestIs(EntriesOf(messages), cursor, limits, NothingLater, k);
    if page.hasOlder then [page] + NativeWalk(messages, session, page.olderCursor.value, limits, later, k + 1) else [page]
  }

  function NothingLater(k: nat): seq<Entry> {
    []
  }

  lemma {:induction false} NativeRequestIs(messages: seq<Message>, session: string, cursor: string, limits: nat -> nat,
                                           later: nat -> seq<Message>, k: nat)
    requires ParserNumbered(messages, session) && cursor != "" && IndexOf(EntriesOf(messages), cursor) < |messages|
    ensures NativeRequest(messages, cursor, limits, later, k)
         == Request(EntriesOf(messages), cursor, limits, NothingLater, k)
  {
    hide EntriesOf, NativeEnd, EventId, PageBefore, IndexOf, Cursor, ParserNumbered;
    var entries := EntriesOf(messages);
    var i := IndexOf(entries, cursor);
    NumberedCursors(messages, session);
    PagersAgreeOnNumbered(messages, session, i);
    NativePageStable(messages, later(k), cursor, limits(k));
    assert entries + NothingLater(k) == entries;
  }

  lemma {:induction false} NativeWalkIs(messages: seq<Message>, session: string, cursor: string, limits: nat -> nat,
                                        later: nat -> seq<Message>, k: nat)
    requires ParserNumbered(messages, session) && Positive(limits)
    requires cursor != "" && IndexOf(EntriesOf(messages), cursor) < |messages|
    requires DistinctCursors(EntriesOf(messages)) && HasCursors(EntriesOf(messages))
    ensures NativeWalk(messages, session, cursor, limits, later, k)
         == Walk(EntriesOf(messages), cursor, limits, NothingLater, k)
    decreases IndexOf(EntriesOf(messages), cursor)
  {
    hide EntriesOf, IndexOf, NativeRequest, Request, DistinctCursors, HasCursors, ParserNumbered, Positive;
    NativeRequestIs(messages, session, cursor, limits, later, k);
    RequestIs(EntriesOf(messages), cursor, limits, NothingLater, k);
    var page := NativeRequest(messages, cursor, limits, later, k);
    if page.hasOlder {
      NativeWalkIs(messages, session, page.olderCursor.value, limits, later, k + 1);
    }
  }

  // From the native snapshot and native pages the client rebuilds the whole
  // native transcript, whatever is appended to it meanwhile.
  lemma {:induction false} NativeRebuild(messages: seq<Message>, session: string, snapshot: Page, start: nat,
                                         limits: nat -> nat, later: nat -> seq<Message>)
    requires ParserNumbered(messages, session) && Positive(limits)
    requires Shows(EntriesOf(messages), snapshot, start)
    ensures !snapshot.hasOlder ==> AllSameButRaw(snapshot.messages, EntriesOf(messages))
    ensures snapshot.hasOlder ==>
              && snapshot.olderCursor.Some? && snapshot.olderCursor.value != ""
              && IndexOf(EntriesOf(messages), snapshot.olderCursor.value) < |messages|
              && var older := OldestFirst(NativeWalk(messages, session, snapshot.olderCursor.value, limits, later, 0));
                 && older <= EntriesOf(messages)
                 && AllSameButRaw(older + snapshot.messages, EntriesOf(messages))
  {
    hide EntriesOf, IndexOf, Walk, NativeWalk, DistinctCursors, HasCursors, AllSameButRaw, ParserNumbered, Shows;
    NumberedCursors(messages, session);
    SnapshotAndWalkRebuild(EntriesOf(messages), snapshot, start, limits, NothingLater);
    if snapshot.hasOlder {
      NativeWalkIs(messages, session, snapshot.olderCursor.value, limits, later, 0);
    }
  }

  lemma {:induction false} Reflexive(a: seq<Entry>)
    ensures AllSameButRaw(a, a)
  {
  }

  lemma {:induction false} SameButRawConcat(a: seq<Entry>, a': seq<Entry>, b: seq<Entry>, b': seq<Entry>)
    requires AllSameButRaw(a, a') && AllSameButRaw(b, b')
    ensures AllSameButRaw(a + b, a' + b')
  {
    hide SameButRaw;
  }
}
