// The window around a target entry: streamed from a native transcript, and
// sliced out of a list of entries.
module TranscriptAround {
  import opened Options
  import opened Text
  import opened TranscriptEntries
  import opened TranscriptPaging
  import opened TranscriptWalk

  // Panics: the code slices an empty list.
  datatype Window = Panics | NotFound | Found(messages: seq<Entry>, hasOlder: bool, olderCursor: Option<string>)

  function Min(a: int, b: int): int {
    if a < b then a else b
  }

  // What the streaming window shows, when the first match is at `t`.
  function WindowFrom(entries: seq<Entry>, t: nat, limit: nat): Window
    requires t < |entries| && limit >= 1
  {
    var start := Max0(t - limit / 2);
    Found(entries[start..Min(|entries|, start + limit)], start > 0,
          if start > 0 then Some(Cursor(entries[start])) else None)
  }

  // With a limit of one there is no room before the target, and the first
  // message that is not the target is sliced off an empty list.
  function NativeWindow(messages: seq<Message>, target: string, limit: int): Window {
    var size, t := Effective(limit), NativeEnd(messages, target);
    if size == 1 && messages != [] && t > 0 then Panics
    else if t == |messages| then NotFound
    else WindowFrom(EntriesOf(messages), t, size)
  }

  lemma {:induction false} WindowCases(messages: seq<Message>, target: string, limit: int)
    ensures var size, t := Effective(limit), NativeEnd(messages, target);
            NativeWindow(messages, target, limit) ==
              if size == 1 && messages != [] && t > 0 then Panics
              else if t == |messages| then NotFound
              else WindowFrom(EntriesOf(messages), t, size)
  {
    hide Matches, EntriesOf, NativeEnd, WindowFrom;
  }

  // From the target at t on: everything kept so far.
  ghost predicate Collecting(entries: seq<Entry>, messages: seq<Entry>, t: nat, i: nat, room: nat) {
    && t < i <= |entries|
    && messages == entries[Max0(t - room)..i]
  }

  lemma {:induction false} Find(entries: seq<Entry>, before: seq<Entry>, hasOlder: bool, t: nat, room: nat)
    requires Scanning(entries, before, hasOlder, t, room) && t < |entries|
    ensures Collecting(entries, before + [entries[t]], t, t + 1, room)
    ensures |before| <= room && hasOlder == (t > room)
  {
  }

  lemma {:induction false} CollectOne(entries: seq<Entry>, messages: seq<Entry>, t: nat, i: nat, room: nat)
    requires Collecting(entries, messages, t, i, room) && i < |entries|
    ensures Collecting(entries, messages + [entries[i]], t, i + 1, room)
  {
  }

  lemma {:induction false} Collected(entries: seq<Entry>, messages: seq<Entry>, t: nat, i: nat, size: nat)
    requires Collecting(entries, messages, t, i, size / 2) && |messages| <= size && size > 0
    requires |messages| == size || i == |entries|
    ensures WindowFrom(entries, t, size) == Found(messages, t > size / 2, if t > size / 2 then Some(Cursor(messages[0])) else None)
  {
    hide Cursor;
  }

  // workspaceLoadNativeChatHistoryAround, on the messages the parser streams
  method LoadNativeAround(stream: seq<Message>, targetCursor: string, limit: int) returns (window: Window)
    ensures window == NativeWindow(stream, targetCursor, limit)
  {
    hide Matches, EntryOf, EntriesOf, Cursor, NativeEnd, NativeWindow, WindowFrom, Collecting;
    NativeEndIsFirst(stream, targetCursor);
    WindowCases(stream, targetCursor, limit);
    var size := if limit <= 0 then DEFAULT_LIMIT else limit;
    var beforeLimit := size / 2;
    var before: seq<Entry> := [];
    var messages: seq<Entry> := [];
    var targetFound, hasOlder := false, false;
    ghost var entries := EntriesOf(stream);
    ghost var t := NativeEnd(stream, targetCursor);
    var i := 0;
    var more := true;
    assert Scanning(entries, before, hasOlder, i, beforeLimit);
    hide Scanning;
    while more && i < |stream|
      invariant 0 <= i <= |stream|
      invariant !targetFound ==> more && i <= t && Scanning(entries, before, hasOlder, i, beforeLimit)
      invariant !targetFound && beforeLimit == 0 ==> i == 0 && before == []
      invariant targetFound ==> Collecting(entries, messages, t, i, beforeLimit) && hasOlder == (t > beforeLimit)
      invariant targetFound ==> !(size == 1 && t > 0) && t < |stream|
      invariant targetFound ==> 0 < |messages| <= size && more == (|messages| < size)
      decreases |stream| - i
    {
      var message := stream[i];
      var entry := EntryOf(message);
      assert entry == entries[i];
      if targetFound {
        if |messages| >= size {
          break;
        }
        CollectOne(entries, messages, t, i, beforeLimit);
        messages := messages + [entry];
        more := |messages| < size;
      } else if Matches(message, targetCursor) {
        Find(entries, before, hasOlder, i, beforeLimit);
        targetFound := true;
        messages := before + [entry];
        more := |messages| < size;
      } else {
        if beforeLimit > 0 {
          ScanOne(entries, before, hasOlder, i, beforeLimit);
        }
        if |before| >= beforeLimit {
          hasOlder := true;
          if |before| == 0 {
            return Panics;
          }
          before := before[1..];
        }
        before := before + [entry];
      }
      i := i + 1;
    }
    if !targetFound {
      return NotFound;
    }
    Collected(entries, messages, t, i, size);
    var olderCursor := None;
    if hasOlder && |messages| > 0 {
      olderCursor := Some(Cursor(messages[0]));
    }
    return Found(messages, hasOlder, olderCursor);
  }

  // ----- the sliced window -----

  // workspaceTranscriptEntryIndex; the number of entries stands for -1
  function EntryIndex(entries: seq<Entry>, cursor: string): (n: nat)
    ensures n <= |entries|
  {
    var c := Trim(cursor);
    if c == "" then |entries|
    else
      match Atoi(c)
      case Number(k) => if 1 <= k <= |entries| then k - 1 else IndexOf(entries, c)
      case NotANumber => IndexOf(entries, c)
  }

  // A number of the list stands for the entry at its place; any other cursor
  // for the first entry that has it.
  lemma {:induction false} EntryIndexIs(entries: seq<Entry>, cursor: string)
    ensures var c, n := Trim(cursor), EntryIndex(entries, cursor);
            && (forall k: int :: Atoi(c) == Number(k) && 1 <= k <= |entries| ==> n == k - 1)
            && (Atoi(c) == NotANumber || (exists k: int :: Atoi(c) == Number(k) && !(1 <= k <= |entries|)) ==>
                  && (n < |entries| ==> c != "" && Cursor(entries[n]) == c)
                  && (c != "" ==> forall i :: 0 <= i < n ==> Cursor(entries[i]) != c))
  {
    hide Trim, Cursor, IndexOf, Itoa;
    assert Atoi("") == NotANumber;
  }

  // Where the slice starts: half the limit before the target, or as much
  // earlier as it takes to fill it at the end of the list.
  function SliceStart(n: nat, t: nat, size: nat): nat {
    var first := Max0(t - size / 2);
    if first + size > n then Max0(n - size) else first
  }

  // workspaceSliceTranscriptEntriesAround
  method SliceAround(entries: seq<Entry>, targetCursor: string, limit: int) returns (window: Window)
    ensures window == SliceWindow(entries, targetCursor, limit)
  {
    hide EntryIndex, Cursor, Trim, Itoa, SliceWindow, SliceStart;
    SliceCases(entries, targetCursor, limit);
    var size := if limit <= 0 then DEFAULT_LIMIT else limit;
    var targetIndex := EntryIndex(entries, targetCursor);
    if targetIndex == |entries| {
      return NotFound;
    }
    var before := size / 2;
    var start := targetIndex - before;
    if start < 0 {
      start := 0;
    }
    var end := start + size;
    if end > |entries| {
      end := |entries|;
      start := end - size;
      if start < 0 {
        start := 0;
      }
    }
    SliceStartIs(|entries|, targetIndex, size, start, end);
    var sliced := entries[start..end];
    if start == 0 || |sliced| == 0 {
      return Found(sliced, false, None);
    }
    var cursor := Cursor(entries[start]);
    if Trim(cursor) == "" {
      cursor := Itoa(start + 1);
    }
    return Found(sliced, true, Some(cursor));
  }

  lemma {:induction false} SliceStartIs(n: nat, t: nat, size: nat, start: int, end: int)
    requires t < n && size > 0
    requires var first := if t - size / 2 < 0 then 0 else t - size / 2;
             if first + size > n then end == n && start == (if n - size < 0 then 0 else n - size)
             else start == first && end == first + size
    ensures start == SliceStart(n, t, size) && end == Min(n, start + size)
  {
  }

  lemma {:induction false} SliceCases(entries: seq<Entry>, target: string, limit: int)
    ensures var size, t := Effective(limit), EntryIndex(entries, target);
            SliceWindow(entries, target, limit) ==
              if t == |entries| then NotFound
              else
                var start := SliceStart(|entries|, t, size);
                Found(entries[start..Min(|entries|, start + size)], start > 0,
                      if start == 0 then None else Some(CursorAt(entries, start)))
  {
    hide EntryIndex, CursorAt, SliceStart;
  }

  function SliceWindow(entries: seq<Entry>, target: string, limit: int): Window {
    var size, t := Effective(limit), EntryIndex(entries, target);
    if t == |entries| then NotFound
    else
      var start := SliceStart(|entries|, t, size);
      Found(entries[start..Min(|entries|, start + size)], start > 0, if start == 0 then None else Some(CursorAt(entries, start)))
  }

  // The cursor of an entry, or its number when that is blank.
  function CursorAt(entries: seq<Entry>, i: nat): string
    requires i < |entries|
  {
    if Trim(Cursor(entries[i])) == "" then Itoa(i + 1) else Cursor(entries[i])
  }

  // ----- what the windows promise -----

  // The streaming pager panics exactly for a limit of one when some message
  // comes before the target, or the target is not there at all.
  lemma {:induction false} NativePanics(messages: seq<Message>, target: string, limit: int)
    ensures NativeWindow(messages, target, limit).Panics?
            <==> limit == 1 && messages != [] && !Matches(messages[0], target)
  {
    hide Matches, EntriesOf;
    NativeEndIsFirst(messages, target);
  }

  // The window shows the entries from `start` on, up to the limit, with the
  // target at t among them, and its cursor is that of its first entry.
  ghost predicate ShowsFrom(entries: seq<Entry>, w: Window, start: nat, t: nat, limit: nat) {
    && start <= t < |entries|
    && w.Found?
    && w.messages == entries[start..Min(|entries|, start + limit)]
    && t < start + |w.messages|
    && w.messages[t - start] == entries[t]
    && (w.hasOlder <==> start > 0)
    && w.olderCursor == if start > 0 then Some(Cursor(entries[start])) else None
  }

  // For any other limit it shows exactly the entries from half the limit
  // before the target on.
  lemma {:induction false} NativeShowsTarget(messages: seq<Message>, target: string, limit: int)
    requires limit != 1 && NativeEnd(messages, target) < |messages|
    ensures var t, size := NativeEnd(messages, target), Effective(limit);
            ShowsFrom(EntriesOf(messages), NativeWindow(messages, target, limit), Max0(t - size / 2), t, size)
  {
    hide ShowsFrom, NativeWindow, WindowFrom, NativeEnd, EntriesOf;
    WindowCases(messages, target, limit);
    WindowShows(EntriesOf(messages), NativeEnd(messages, target), Effective(limit));
  }

  lemma {:induction false} WindowShows(entries: seq<Entry>, t: nat, limit: nat)
    requires t < |entries| && limit >= 1
    ensures ShowsFrom(entries, WindowFrom(entries, t, limit), Max0(t - limit / 2), t, limit)
  {
    hide Cursor;
  }

  // The slice is contiguous, holds the target and as many entries as it may.
  lemma {:induction false} SliceShowsTarget(entries: seq<Entry>, target: string, limit: int)
    requires EntryIndex(entries, target) < |entries|
    ensures var w, t, size := SliceWindow(entries, target, limit), EntryIndex(entries, target), Effective(limit);
            var start := SliceStart(|entries|, t, size);
            && w.Found?
            && |w.messages| == Min(size, |entries|)
            && start <= t < start + |w.messages| <= |entries|
            && w.messages == entries[start..start + |w.messages|]
            && w.messages[t - start] == entries[t]
            && (w.hasOlder <==> start > 0)
  {
    hide EntryIndex, CursorAt;
  }

  // A target that is not a number is found at the same message by both.
  lemma {:induction false} SameTarget(messages: seq<Message>, target: string)
    requires Atoi(Trim(target)) == NotANumber
    ensures NativeEnd(messages, target) == EntryIndex(EntriesOf(messages), target)
  {
    hide Trim, Itoa, Atoi, Cursor, EntriesOf, NativeEnd, IndexOf, MessageCursor;
    var entries, c, end := EntriesOf(messages), Trim(target), NativeEnd(messages, target);
    NativeEndIsFirst(messages, target);
    NativeCursorsNotBlank(messages);
    forall i | 0 <= i < |messages| ensures Matches(messages[i], target) <==> c != "" && Cursor(entries[i]) == c {
      AtoiItoa(messages[i].index);
    }
  }

  // For such a target both show the same window if and only if the streaming
  // pager does not panic and the limit does not reach past the end, or the
  // window starts with the transcript, or nothing is found.
  lemma {:induction false} WindowsAgree(messages: seq<Message>, target: string, limit: int)
    requires Atoi(Trim(target)) == NotANumber
    ensures var n, t, size := |messages|, NativeEnd(messages, target), Effective(limit);
            var start := Max0(t - size / 2);
            NativeWindow(messages, target, limit) == SliceWindow(EntriesOf(messages), target, limit)
            <==> !(limit == 1 && n > 0 && t > 0) && (t == n || start + size <= n || start == 0)
  {
    hide Matches, EntryOf, Cursor, NativeEnd, Trim, Itoa, Atoi, EntryIndex, MessageCursor;
    SameTarget(messages, target);
    NativeCursorsNotBlank(messages);
    CleanIsNotBlank();
  }

  lemma {:induction false} CleanIsNotBlank()
    ensures forall c :: Clean(c) ==> Trim(c) != ""
  {
    hide Trim;
    forall c | Clean(c) ensures Trim(c) != "" {
      TrimOfClean(c);
    }
  }

  // A cursor the parser gives a message is found at that message by both.
  lemma {:induction false} NumberedTargets(messages: seq<Message>, session: string, k: nat)
    requires ParserNumbered(messages, session) && k < |messages|
    ensures NativeEnd(messages, messages[k].id) == EntryIndex(EntriesOf(messages), messages[k].id) == k
  {
    hide Matches, EntriesOf, NativeEnd, Cursor, Trim, Itoa, IndexOf, EventId, ParserNumbered;
    PagersAgreeOnNumbered(messages, session, k);
    EventIdNotANumber(messages, session, k);
  }

  lemma {:induction false} EventIdNotANumber(messages: seq<Message>, session: string, k: nat)
    requires ParserNumbered(messages, session) && k < |messages|
    ensures var c := messages[k].id; c != "" && Trim(c) == c && Atoi(c) == NotANumber
  {
    hide Trim, Itoa;
    EventIdFacts(session, messages[k].index, 0);
    assert messages[k].id[0] == 'e';
  }

  // Whether the cursor handed out for an entry leads back to it: a blank one
  // is replaced by the entry's number; a number of the list means that entry;
  // any other must be without margins and the first of its kind.
  ghost predicate Resolvable(entries: seq<Entry>, i: nat)
    requires i < |entries|
  {
    var c := Cursor(entries[i]);
    || Trim(c) == ""
    || (match Atoi(Trim(c))
        case Number(k) => if 1 <= k <= |entries| then k == i + 1 else Trim(c) == c && IndexOf(entries, c) == i
        case NotANumber => Trim(c) == c && IndexOf(entries, c) == i)
  }

  lemma {:induction false} SliceCursorResolves(entries: seq<Entry>, target: string, limit: int)
    requires var w := SliceWindow(entries, target, limit); w.Found? && w.hasOlder
    ensures var w, start := SliceWindow(entries, target, limit),
                            SliceStart(|entries|, EntryIndex(entries, target), Effective(limit));
            && w.olderCursor.Some? && start < |entries|
            && (EntryIndex(entries, w.olderCursor.value) == start <==> Resolvable(entries, start))
  {
    hide EntryIndex, CursorAt, Resolvable;
    CursorResolves(entries, SliceStart(|entries|, EntryIndex(entries, target), Effective(limit)));
  }

  lemma {:induction false} CursorResolves(entries: seq<Entry>, i: nat)
    requires i < |entries|
    ensures EntryIndex(entries, CursorAt(entries, i)) == i <==> Resolvable(entries, i)
  {
    hide Cursor, Trim, Itoa, Atoi;
    var c := Cursor(entries[i]);
    AtoiItoa(i + 1);
    ItoaIsClean(i + 1);
  }

  // Entries as the parser numbers them are all resolvable.
  lemma {:induction false} NumberedResolvable(messages: seq<Message>, session: string, i: nat)
    requires ParserNumbered(messages, session) && i < |messages|
    ensures Resolvable(EntriesOf(messages), i)
  {
    hide EntriesOf, Cursor, Trim, Itoa, Atoi, EventId, ParserNumbered;
    EventIdNotANumber(messages, session, i);
    NumberedCursors(messages, session);
    IndexOfDistinct(EntriesOf(messages), i);
  }
}
