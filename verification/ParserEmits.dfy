// What the parser emits for each line, told in the fields of the line's message
// and of the message emitted before.
module ParserEmits {
  import opened Options
  import opened Text
  import opened ParserStream
  import opened ParserPromises

  // The two say the same, one as a response of the model and one as an event,
  // at most two seconds apart as far as their times are known.
  ghost predicate Twins(p: Msg, m: Msg) {
    && p.role == m.role && p.kind == m.kind
    && Trim(p.text) == Trim(m.text) != ""
    && (("codex:response_item:message" <= p.source && "codex:event_msg:" <= m.source)
        || ("codex:event_msg:" <= p.source && "codex:response_item:message" <= m.source))
    && (p.createdAt.Some? && m.createdAt.Some? ==>
          p.createdAt.value <= m.createdAt.value + 2_000_000_000 && m.createdAt.value <= p.createdAt.value + 2_000_000_000)
  }

  ghost predicate FollowsTwin(emitted: seq<Msg>, m: Msg) {
    emitted != [] && Twins(emitted[|emitted| - 1], m)
  }

  lemma {:induction false} DuplicatesAreTwins(s: State, m: Msg)
    ensures IsDuplicate(true, Previous(s), m) <==> FollowsTwin(s.emitted, m)
  {
    hide Trim;
  }

  // The message of a line, under the line's number.
  function OfLine(extract: Extractor, session: string, line: string, number: nat): Msg
    requires extract(line).Some?
  {
    extract(line).value.(index := number, id := "evt_" + session + "_" + Itoa(number))
  }

  // The known commands are exactly those of the lines read.
  lemma {:induction false} CommandsAreLines(session: string, extract: Extractor, lines: seq<string>, item: string)
    ensures item in TakeLines(true, session, extract, lines).commands <==> exists j: nat :: CommandAt(extract, lines, j, item)
    decreases |lines|
  {
    hide TakeLines, CommandAt, Trim;
    NoLines(true, session, extract);
    if lines == [] {
      assert forall j: nat :: !CommandAt(extract, [], j, item) by { NoCommandAt(extract, item); }
    } else {
      var n := |lines| - 1;
      CommandsAreLines(session, extract, lines[..n], item);
      assert lines[..n] + [lines[n]] == lines;
      LinesOneMore(true, session, extract, lines[..n], lines[n]);
      OneMoreCommand(session, extract, lines[..n], lines[n], item);
      CommandAtMore(extract, lines[..n], lines[n], item);
    }
  }

  lemma {:induction false} NoCommandAt(extract: Extractor, item: string)
    ensures forall j: nat :: !CommandAt(extract, [], j, item)
  {
  }

  lemma {:induction false} CommandAtMore(extract: Extractor, lines: seq<string>, line: string, item: string)
    ensures (exists j: nat :: CommandAt(extract, lines + [line], j, item)) <==>
              (exists j: nat :: CommandAt(extract, lines, j, item)) || CommandAt(extract, lines + [line], |lines|, item)
  {
    hide Trim;
    var all := lines + [line];
    if exists j: nat :: CommandAt(extract, lines, j, item) {
      var j: nat :| CommandAt(extract, lines, j, item);
      assert all[j] == lines[j];
      assert CommandAt(extract, all, j, item);
    }
    if exists j: nat :: CommandAt(extract, all, j, item) {
      var j: nat :| CommandAt(extract, all, j, item);
      assert j < |lines| ==> all[j] == lines[j] && CommandAt(extract, lines, j, item);
    }
  }

  lemma {:induction false} OneMoreCommand(session: string, extract: Extractor, lines: seq<string>, line: string, item: string)
    ensures var s := TakeLines(true, session, extract, lines);
            item in TakeLine(true, session, extract, s, line, |lines| + 1).commands <==>
              item in s.commands || CommandAt(extract, lines + [line], |lines|, item)
  {
    hide Take, TakeLines, Numbered, Trim;
    assert (lines + [line])[|lines|] == line;
    match extract(line) {
      case None =>
      case Some(m) =>
        TakeRegisters(TakeLines(true, session, extract, lines), Numbered(m, session, |lines| + 1), item);
        NumberedKeeps(m, session, |lines| + 1);
    }
  }

  lemma {:induction false} TakeRegisters(s: State, m: Msg, item: string)
    ensures item in Take(true, s, m).commands <==>
              item in s.commands || (m.kind == "command_execution" && Trim(m.itemId) == item != "")
  {
    hide Trim, IsDuplicate;
  }

  lemma {:induction false} NumberedKeeps(m: Msg, session: string, n: nat)
    ensures var r := Numbered(m, session, n);
            && r == m.(index := n, id := "evt_" + session + "_" + Itoa(n))
            && r.kind == m.kind && r.itemId == m.itemId
  {
    hide Itoa;
  }

  // For Codex, each line after the others:
  // - a line that says nothing emits nothing;
  // - a result is emitted right after an emitted call with an id, as that call's;
  // - a call or a command needs an id, and an output an item that an earlier
  //   command has, as which it is emitted;
  // - and nothing but a result's check keeps a message from being emitted unless
  //   it is the twin of the one emitted last.
  lemma {:induction false} CodexLine(session: string, extract: Extractor, lines: seq<string>, line: string)
    ensures TakeLines(true, session, extract, []) == State([], {})
    ensures var before := LineMessages(true, session, extract, lines);
            var after := LineMessages(true, session, extract, lines + [line]);
            if extract(line).None? then after == before
            else
              var m := OfLine(extract, session, line, |lines| + 1);
              if m.kind == "mcp_tool_result" then
                after == before + if before != [] && before[|before| - 1].kind == "mcp_tool_call"
                                     && Trim(before[|before| - 1].toolId) != ""
                                  then [m.(toolId := Trim(before[|before| - 1].toolId))] else []
              else if m.kind == "mcp_tool_call" then
                after == before + if Trim(m.toolId) != "" && !FollowsTwin(before, m) then [m] else []
              else if m.kind == "command_execution" then
                after == before + if Trim(m.itemId) != "" && !FollowsTwin(before, m) then [m] else []
              else if m.kind == "custom_tool_call_output" then
                var command := m.(kind := "command_execution");
                after == before + if (exists j: nat :: CommandAt(extract, lines, j, Trim(m.itemId)))
                                     && !FollowsTwin(before, command) then [command] else []
              else
                after == before + if !FollowsTwin(before, m) then [m] else []
  {
    hide TakeLines, Numbered, IsDuplicate, Trim, Take;
    var s := TakeLines(true, session, extract, lines);
    LinesOneMore(true, session, extract, lines, line);
    NoLines(true, session, extract);
    match extract(line) {
      case None =>
      case Some(v) =>
        var m := Numbered(v, session, |lines| + 1);
        NumberedKeeps(v, session, |lines| + 1);
        CommandsAreLines(session, extract, lines, Trim(m.itemId));
        DuplicatesAreTwins(s, m);
        DuplicatesAreTwins(s, m.(kind := "command_execution"));
        TakeEmits(s, m);
    }
  }

  lemma {:induction false} NoLines(codex: bool, session: string, extract: Extractor)
    ensures TakeLines(codex, session, extract, []) == State([], {})
  {
  }

  lemma {:induction false} LinesOneMore(codex: bool, session: string, extract: Extractor, lines: seq<string>, line: string)
    ensures TakeLines(codex, session, extract, lines + [line])
            == TakeLine(codex, session, extract, TakeLines(codex, session, extract, lines), line, |lines| + 1)
  {
    hide TakeLine;
    assert (lines + [line])[..|lines|] == lines;
  }

  lemma {:induction false} TakeEmits(s: State, m: Msg)
    ensures var after, command := Take(true, s, m).emitted, m.(kind := "command_execution");
            var isNew, last := !IsDuplicate(true, Previous(s), m), Previous(s);
            after == s.emitted +
              if m.kind == "mcp_tool_result" then
                if last.Some? && last.value.kind == "mcp_tool_call" && Trim(last.value.toolId) != ""
                then [m.(toolId := Trim(last.value.toolId))] else []
              else if m.kind == "mcp_tool_call" then if Trim(m.toolId) != "" && isNew then [m] else []
              else if m.kind == "command_execution" then if Trim(m.itemId) != "" && isNew then [m] else []
              else if m.kind == "custom_tool_call_output" then
                if Trim(m.itemId) in s.commands && !IsDuplicate(true, last, command) then [command] else []
              else if isNew then [m] else []
  {
    hide Trim, ResponseEventPair, TimesMatch;
    assert s.emitted + [] == s.emitted;
  }

  // The numbers `at` pick messages out of lines: all that have one, in order.
  ghost predicate AllInOrder(session: string, extract: Extractor, lines: seq<string>, at: seq<nat>, messages: seq<Msg>) {
    && |at| == |messages|
    && (forall k :: 0 <= k < |at| ==> at[k] < |lines| && extract(lines[at[k]]).Some?
                                      && messages[k] == OfLine(extract, session, lines[at[k]], at[k] + 1))
    && (forall j, k :: 0 <= j < k < |at| ==> at[j] < at[k])
    && (forall i :: 0 <= i < |lines| && extract(lines[i]).Some? ==> i in at)
  }

  // For any other agent the messages are exactly those of the lines.
  lemma {:induction false} OtherAgents(session: string, extract: Extractor, lines: seq<string>)
    ensures exists at :: AllInOrder(session, extract, lines, at, LineMessages(false, session, extract, lines))
  {
    hide AllInOrder, LineMessages;
    var at := LinesOf(session, extract, lines);
  }

  lemma {:induction false} LinesOf(session: string, extract: Extractor, lines: seq<string>) returns (at: seq<nat>)
    ensures AllInOrder(session, extract, lines, at, LineMessages(false, session, extract, lines))
    decreases |lines|
  {
    hide Take, Numbered, OfLine, AllInOrder;
    if lines == [] {
      at := [];
      NoneInOrder(session, extract);
    } else {
      var n := |lines| - 1;
      var older := LinesOf(session, extract, lines[..n]);
      var s := TakeLines(false, session, extract, lines[..n]);
      at := older + if extract(lines[n]).Some? then [n] else [];
      match extract(lines[n]) {
        case None =>
        case Some(m) =>
          NumberedKeeps(m, session, n + 1);
          TakeOther(s, Numbered(m, session, n + 1));
          OfLineIs(extract, session, lines[n], n + 1);
      }
      OneMoreInOrder(session, extract, lines, older, s.emitted);
    }
  }

  lemma {:induction false} NoneInOrder(session: string, extract: Extractor)
    ensures AllInOrder(session, extract, [], [], [])
  {
  }

  lemma {:induction false} OfLineIs(extract: Extractor, session: string, line: string, n: nat)
    requires extract(line).Some?
    ensures OfLine(extract, session, line, n) == Numbered(extract(line).value, session, n)
  {
    hide Itoa;
  }

  lemma {:induction false} TakeOther(s: State, m: Msg)
    ensures Take(false, s, m).emitted == s.emitted + [m]
  {
  }

  lemma {:induction false} OneMoreInOrder(session: string, extract: Extractor, lines: seq<string>, older: seq<nat>,
                                          messages: seq<Msg>)
    requires lines != [] && AllInOrder(session, extract, lines[..|lines| - 1], older, messages)
    ensures var n := |lines| - 1;
            if extract(lines[n]).Some? then
              AllInOrder(session, extract, lines, older + [n], messages + [OfLine(extract, session, lines[n], n + 1)])
            else AllInOrder(session, extract, lines, older + [], messages)
  {
    hide OfLine;
    var n := |lines| - 1;
    assert forall i :: 0 <= i < n ==> lines[..n][i] == lines[i];
    assert older + [] == older;
    assert extract(lines[n]).Some? ==> (older + [n])[|older|] == n;
    assert forall i :: i in older ==> i in older + [n];
  }

  // The messages of a transcript are those of its lines, or, if these say
  // nothing, those of its tree, numbered from one.
  lemma {:induction false} TranscriptIs(codex: bool, session: string, byLine: Extractor, byObject: ObjectExtractor,
                                        file: Transcript)
    ensures var all, ofLines := AllMessages(codex, session, byLine, byObject, file),
                                LineMessages(codex, session, byLine, file.lines);
            && (ofLines != [] || file.tree.None? ==> all == ofLines)
            && (ofLines == [] && file.tree.Some? ==>
                  var ofTree := TreeMessages(byObject, file.tree.value, 0);
                  && |all| == |ofTree|
                  && forall i :: 0 <= i < |all| ==>
                                   all[i] == ofTree[i].(index := i + 1, id := "evt_" + session + "_" + Itoa(i + 1)))
  {
    hide LineMessages, TreeMessages, Itoa;
  }
}
