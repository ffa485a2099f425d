// What holds of every list of messages the parser gives for lines.
module ParserPromises {
  import opened Options
  import opened Text
  import opened ParserStream
  import Entries = TranscriptEntries
  import Paging = TranscriptPaging
  import Walk = TranscriptWalk

  // Numbers rise line by line.
  ghost predicate Rising(messages: seq<Msg>) {
    forall i, j :: 0 <= i < j < |messages| ==> messages[i].index < messages[j].index
  }

  // Every MCP result comes right after an MCP call and carries its tool id.
  ghost predicate ResultsPaired(messages: seq<Msg>) {
    forall i :: 0 <= i < |messages| && messages[i].kind == "mcp_tool_result" ==>
                  && i > 0
                  && messages[i - 1].kind == "mcp_tool_call"
                  && messages[i].toolId == Trim(messages[i - 1].toolId) != ""
  }

  // No two neighbours are the response and the event of one message.
  ghost predicate NoDuplicates(messages: seq<Msg>) {
    forall i :: 0 < i < |messages| ==> !IsDuplicate(true, Some(messages[i - 1]), messages[i])
  }

  // Line j is a command with this item.
  ghost predicate CommandAt(extract: Extractor, lines: seq<string>, j: nat, item: string) {
    && j < |lines|
    && extract(lines[j]).Some?
    && extract(lines[j]).value.kind == "command_execution"
    && Trim(extract(lines[j]).value.itemId) == item != ""
  }

  // The known commands come from the lines read so far.
  ghost predicate CommandsFromLines(extract: Extractor, lines: seq<string>, commands: set<string>) {
    forall item :: item in commands ==> exists j: nat :: CommandAt(extract, lines, j, item)
  }

  // Every command message is a command line itself, or the output of one that
  // came before it.
  ghost predicate CommandsKnown(extract: Extractor, lines: seq<string>, messages: seq<Msg>) {
    forall i :: 0 <= i < |messages| && messages[i].kind == "command_execution" ==>
                  exists j: nat :: j < messages[i].index && CommandAt(extract, lines, j, Trim(messages[i].itemId))
  }

  // Messages come from lines: 1 .. n.
  ghost predicate WithinLines(messages: seq<Msg>, n: nat) {
    forall i :: 0 <= i < |messages| ==> 1 <= messages[i].index <= n
  }

  ghost predicate IdsNumbered(messages: seq<Msg>, session: string) {
    forall i :: 0 <= i < |messages| ==> messages[i].id == Walk.EventId(session, messages[i].index)
  }

  lemma {:induction false} TakeKeepsNumbers(codex: bool, s: State, session: string, m: Msg, n: nat)
    requires Rising(s.emitted) && WithinLines(s.emitted, n) && IdsNumbered(s.emitted, session)
    ensures var t := Take(codex, s, Numbered(m, session, n + 1));
            Rising(t.emitted) && WithinLines(t.emitted, n + 1) && IdsNumbered(t.emitted, session)
  {
    hide Trim, Itoa, IsDuplicate, Register;
  }

  lemma {:induction false} NumbersOfLines(codex: bool, session: string, extract: Extractor, lines: seq<string>)
    ensures var messages := LineMessages(codex, session, extract, lines);
            Rising(messages) && WithinLines(messages, |lines|) && IdsNumbered(messages, session)
    decreases |lines|
  {
    hide Take, Numbered, Rising, WithinLines, IdsNumbered;
    if lines == [] {
      NothingToNumber(session);
    } else {
      var n := |lines| - 1;
      NumbersOfLines(codex, session, extract, lines[..n]);
      var s := TakeLines(codex, session, extract, lines[..n]);
      match extract(lines[n]) {
        case None => MoreLines(s.emitted, n);
        case Some(m) => TakeKeepsNumbers(codex, s, session, m, n);
      }
    }
  }

  lemma {:induction false} NothingToNumber(session: string)
    ensures Rising([]) && WithinLines([], 0) && IdsNumbered([], session)
  {
  }

  lemma {:induction false} MoreLines(messages: seq<Msg>, n: nat)
    requires WithinLines(messages, n)
    ensures WithinLines(messages, n + 1)
  {
  }

  lemma {:induction false} TakeKeepsPairs(s: State, m: Msg)
    requires ResultsPaired(s.emitted) && NoDuplicates(s.emitted)
    ensures var t := Take(true, s, m); ResultsPaired(t.emitted) && NoDuplicates(t.emitted)
  {
    hide Take, ResultsPaired, NoDuplicates;
    TakeKeepsResults(s, m);
    TakeKeepsDistinct(s, m);
  }

  lemma {:induction false} TakeKeepsResults(s: State, m: Msg)
    requires ResultsPaired(s.emitted)
    ensures ResultsPaired(Take(true, s, m).emitted)
  {
    hide Take, Trim;
    TakeShape(s, m);
  }

  // At most one message is emitted, and if it is a result it is paired.
  lemma {:induction false} TakeShape(s: State, m: Msg)
    ensures var before, after := s.emitted, Take(true, s, m).emitted;
            || after == before
            || (after == before + [after[|before|]]
                && (after[|before|].kind == "mcp_tool_result" ==>
                      && before != [] && before[|before| - 1].kind == "mcp_tool_call"
                      && after[|before|].toolId == Trim(before[|before| - 1].toolId) != ""))
  {
    hide Trim, IsDuplicate, Register;
  }

  lemma {:induction false} TakeKeepsDistinct(s: State, m: Msg)
    requires NoDuplicates(s.emitted)
    ensures NoDuplicates(Take(true, s, m).emitted)
  {
    hide Trim, IsDuplicate, Register, NormalizeMcp, NormalizeCommand;
  }

  // For Codex: results are paired, and nothing is said twice.
  lemma {:induction false} CodexPairs(session: string, extract: Extractor, lines: seq<string>)
    ensures var messages := LineMessages(true, session, extract, lines);
            ResultsPaired(messages) && NoDuplicates(messages)
    decreases |lines|
  {
    hide Take, Numbered, IsDuplicate, Trim;
    if lines != [] {
      var n := |lines| - 1;
      CodexPairs(session, extract, lines[..n]);
      var s := TakeLines(true, session, extract, lines[..n]);
      match extract(lines[n]) {
        case None =>
        case Some(m) => TakeKeepsPairs(s, Numbered(m, session, n + 1));
      }
    }
  }

  lemma {:induction false} KnownWithMore(extract: Extractor, lines: seq<string>, line: string, s: State)
    requires CommandsFromLines(extract, lines, s.commands) && CommandsKnown(extract, lines, s.emitted)
    ensures CommandsFromLines(extract, lines + [line], s.commands) && CommandsKnown(extract, lines + [line], s.emitted)
  {
    var all := lines + [line];
    forall j: nat, item | CommandAt(extract, lines, j, item) ensures CommandAt(extract, all, j, item) {
      assert all[j] == lines[j];
    }
  }

  lemma {:induction false} TakeKeepsCommands(extract: Extractor, lines: seq<string>, s: State, session: string)
    requires lines != []
    requires CommandsFromLines(extract, lines, s.commands) && CommandsKnown(extract, lines, s.emitted)
    requires forall item :: item in s.commands ==> exists j: nat :: j < |lines| - 1 && CommandAt(extract, lines, j, item)
    requires extract(lines[|lines| - 1]).Some?
    ensures var t := Take(true, s, Numbered(extract(lines[|lines| - 1]).value, session, |lines|));
            && CommandsFromLines(extract, lines, t.commands)
            && CommandsKnown(extract, lines, t.emitted)
  {
    hide Trim, Itoa, IsDuplicate;
    var last := |lines| - 1;
    var m := Numbered(extract(lines[last]).value, session, last + 1);
    var t := Take(true, s, m);
    if m.kind == "command_execution" && Trim(m.itemId) != "" {
      assert CommandAt(extract, lines, last, Trim(m.itemId));
    }
  }

  // Every emitted command has an item that a command line registered: its
  // own, or for an output an earlier one.
  lemma {:induction false} CodexCommands(session: string, extract: Extractor, lines: seq<string>)
    ensures var s := TakeLines(true, session, extract, lines);
            CommandsFromLines(extract, lines, s.commands) && CommandsKnown(extract, lines, s.emitted)
    decreases |lines|
  {
    hide Take, Numbered, CommandsKnown, CommandsFromLines;
    if lines == [] {
      NoCommands(extract);
    } else {
      var n := |lines| - 1;
      var s := TakeLines(true, session, extract, lines[..n]);
      CodexCommands(session, extract, lines[..n]);
      assert lines[..n] + [lines[n]] == lines;
      KnownWithMore(extract, lines[..n], lines[n], s);
      EarlierCommands(extract, lines, s.commands);
      match extract(lines[n]) {
        case None =>
        case Some(m) => TakeKeepsCommands(extract, lines, s, session);
      }
    }
  }

  lemma {:induction false} NoCommands(extract: Extractor)
    ensures CommandsFromLines(extract, [], {}) && CommandsKnown(extract, [], [])
  {
  }

  lemma {:induction false} EarlierCommands(extract: Extractor, lines: seq<string>, commands: set<string>)
    requires lines != [] && CommandsFromLines(extract, lines[..|lines| - 1], commands)
    ensures forall item :: item in commands ==> exists j: nat :: j < |lines| - 1 && CommandAt(extract, lines, j, item)
  {
    hide Trim;
    var n := |lines| - 1;
    forall item | item in commands ensures exists j: nat :: j < n && CommandAt(extract, lines, j, item) {
      var j: nat :| CommandAt(extract, lines[..n], j, item);
      assert lines[..n][j] == lines[j];
      assert CommandAt(extract, lines, j, item);
    }
  }

  // An output is emitted only for a command of an earlier line.
  lemma {:induction false} OutputsFollowCommands(session: string, extract: Extractor, lines: seq<string>, line: string)
    requires extract(line).Some? && extract(line).value.kind == "custom_tool_call_output"
    ensures var s := TakeLines(true, session, extract, lines);
            var t := TakeLine(true, session, extract, s, line, |lines| + 1);
            t.emitted != s.emitted ==>
              && t.emitted == s.emitted + [t.emitted[|s.emitted|]]
              && t.emitted[|s.emitted|].kind == "command_execution"
              && exists j: nat :: CommandAt(extract, lines, j, Trim(extract(line).value.itemId))
  {
    hide Trim, Itoa, IsDuplicate, TakeLines, CommandAt;
    CodexCommands(session, extract, lines);
  }

  // The messages of a transcript's lines as the pagers see them, with the
  // rest of each entry made in any way.
  function PagerMessages(messages: seq<Msg>, content: Msg -> Entries.Entry): (r: seq<Paging.Message>)
    ensures |r| == |messages|
    ensures forall i :: 0 <= i < |messages| ==> r[i] == Paging.Message(messages[i].id, messages[i].index, content(messages[i]))
  {
    seq(|messages|, i requires 0 <= i < |messages| => Paging.Message(messages[i].id, messages[i].index, content(messages[i])))
  }

  // Whatever a transcript is parsed from, its lines or its tree, the messages
  // are numbered as paging needs them: distinct cursors, none blank.
  lemma {:induction false} AllArePageable(codex: bool, session: string, byLine: Extractor, byObject: ObjectExtractor,
                                          file: Transcript, content: Msg -> Entries.Entry)
    ensures var messages := PagerMessages(AllMessages(codex, session, byLine, byObject, file), content);
            && Walk.ParserNumbered(messages, session)
            && Walk.DistinctCursors(Paging.EntriesOf(messages))
            && Walk.HasCursors(Paging.EntriesOf(messages))
  {
    hide LineMessages, TreeMessages, Walk.EventId, Paging.EntriesOf, Walk.DistinctCursors, Walk.HasCursors;
    var all := AllMessages(codex, session, byLine, byObject, file);
    NumbersOfLines(codex, session, byLine, file.lines);
    if file.tree.Some? {
      NumbersOfTree(TreeMessages(byObject, file.tree.value, 0), session);
    }
    assert Rising(all) && IdsNumbered(all, session);
    Walk.NumberedCursors(PagerMessages(all, content), session);
  }

  lemma {:induction false} NumbersOfTree(messages: seq<Msg>, session: string)
    ensures Rising(NumberFrom(messages, session, 1)) && IdsNumbered(NumberFrom(messages, session, 1), session)
  {
    hide Itoa;
  }

  // So the snapshot and the pages of a parsed transcript, as it grows, rebuild
  // all that the parser found in it.
  lemma {:induction false} ParsedTranscriptRebuilt(
      codex: bool, session: string, byLine: Extractor, byObject: ObjectExtractor, file: Transcript,
      content: Msg -> Entries.Entry, snapshot: Paging.Page, start: nat, limits: nat -> nat,
      later: nat -> seq<Paging.Message>)
    requires Walk.Positive(limits)
    requires var messages := PagerMessages(AllMessages(codex, session, byLine, byObject, file), content);
             Paging.Shows(Paging.EntriesOf(messages), snapshot, start)
    ensures var messages := PagerMessages(AllMessages(codex, session, byLine, byObject, file), content);
            var entries := Paging.EntriesOf(messages);
            && Walk.ParserNumbered(messages, session)
            && (!snapshot.hasOlder ==> Entries.AllSameButRaw(snapshot.messages, entries))
            && (snapshot.hasOlder ==>
                  && snapshot.olderCursor.Some? && snapshot.olderCursor.value != ""
                  && Paging.IndexOf(entries, snapshot.olderCursor.value) < |messages|
                  && var pages := Walk.NativeWalk(messages, session, snapshot.olderCursor.value, limits, later, 0);
                     Entries.AllSameButRaw(Walk.OldestFirst(pages) + snapshot.messages, entries))
  {
    hide AllMessages, Walk.EventId, Paging.EntriesOf, Walk.NativeWalk, Walk.ParserNumbered, Paging.Shows,
         Paging.IndexOf, Entries.AllSameButRaw, Walk.OldestFirst;
    AllArePageable(codex, session, byLine, byObject, file, content);
    var messages := PagerMessages(AllMessages(codex, session, byLine, byObject, file), content);
    Walk.NativeRebuild(messages, session, snapshot, start, limits, later);
  }
}
