// The transcript parser: two loops over the same lines, one that collects the
// messages and one that hands them to a visitor.
//
// What a line says is an arbitrary function from lines to optional messages;
// the parser numbers the messages by line. A visitor is a predicate on what it
// has been handed so far: whether it wants more.
module ParserStream {
  import opened Options
  import opened Text

  // itemId and toolId are the strings under these fields, "" without one.
  datatype Msg = Msg(
    id: string,
    role: string,
    kind: string,
    text: string,
    index: nat,
    createdAt: Option<int>,  // nanoseconds
    source: string,
    itemId: string,
    toolId: string
  )

  type Extractor = string -> Option<Msg>
  type Visitor = seq<Msg> -> bool

  function Numbered(m: Msg, session: string, index: nat): Msg {
    m.(index := index, id := "evt_" + session + "_" + Itoa(index))
  }

  // ----- the filters -----

  // normalizeCodexMCPMessage: the message as it goes on, if it does
  function NormalizeMcp(codex: bool, previous: Option<Msg>, m: Msg): Option<Msg> {
    if !codex then Some(m)
    else if m.kind == "mcp_tool_call" then
      if Trim(m.toolId) != "" then Some(m) else None
    else if m.kind == "mcp_tool_result" then
      if previous.None? || previous.value.kind != "mcp_tool_call" || Trim(previous.value.toolId) == "" then None
      else Some(m.(toolId := Trim(previous.value.toolId)))
    else Some(m)
  }

  // normalizeCodexCommandMessage
  function NormalizeCommand(codex: bool, m: Msg, commands: set<string>): Option<Msg> {
    if !codex then Some(m)
    else if m.kind == "command_execution" then
      if Trim(m.itemId) == "" then None else Some(m)
    else if m.kind == "custom_tool_call_output" then
      if Trim(m.itemId) !in commands then None else Some(m.(kind := "command_execution"))
    else Some(m)
  }

  // The commands known after the message.
  function Register(codex: bool, m: Msg, commands: set<string>): set<string> {
    if codex && m.kind == "command_execution" && Trim(m.itemId) != "" then commands + {Trim(m.itemId)} else commands
  }

  predicate HasPrefix(s: string, prefix: string) {
    prefix <= s
  }

  // isCodexResponseEventPair
  predicate ResponseEventPair(left: string, right: string) {
    var response, event := "codex:response_item:message", "codex:event_msg:";
    || (HasPrefix(left, response) && HasPrefix(right, event))
    || (HasPrefix(left, event) && HasPrefix(right, response))
  }

  // transcriptTimesMatch
  predicate TimesMatch(left: Option<int>, right: Option<int>) {
    left.None? || right.None? || -2_000_000_000 <= left.value - right.value <= 2_000_000_000
  }

  // shouldDropSearchableDuplicate
  predicate IsDuplicate(codex: bool, previous: Option<Msg>, m: Msg) {
    && codex
    && previous.Some?
    && previous.value.role == m.role
    && previous.value.kind == m.kind
    && Trim(previous.value.text) != ""
    && Trim(previous.value.text) == Trim(m.text)
    && ResponseEventPair(previous.value.source, m.source)
    && TimesMatch(previous.value.createdAt, m.createdAt)
  }

  // The state of the loop: what was emitted, and the known commands. The
  // previous message is the last one emitted.
  datatype State = State(emitted: seq<Msg>, commands: set<string>)

  function Previous(s: State): Option<Msg> {
    if s.emitted == [] then None else Some(s.emitted[|s.emitted| - 1])
  }

  function Take(codex: bool, s: State, m: Msg): State {
    match NormalizeMcp(codex, Previous(s), m)
    case None => s
    case Some(m1) =>
      var t := s.(commands := Register(codex, m1, s.commands));
      match NormalizeCommand(codex, m1, s.commands)
      case None => t
      case Some(m2) => if IsDuplicate(codex, Previous(s), m2) then t else t.(emitted := s.emitted + [m2])
  }

  function TakeLine(codex: bool, session: string, extract: Extractor, s: State, line: string, index: nat): State {
    match extract(line)
    case None => s
    case Some(m) => Take(codex, s, Numbered(m, session, index))
  }

  function TakeLines(codex: bool, session: string, extract: Extractor, lines: seq<string>): State {
    if lines == [] then State([], {})
    else
      var last := |lines| - 1;
      TakeLine(codex, session, extract, TakeLines(codex, session, extract, lines[..last]), lines[last], last + 1)
  }

  function LineMessages(codex: bool, session: string, extract: Extractor, lines: seq<string>): seq<Msg> {
    TakeLines(codex, session, extract, lines).emitted
  }

  // What a visitor is handed of a list: all of it, or up to and including the
  // first message after which it wants no more.
  function Delivered(all: seq<Msg>, visit: Visitor, from: nat): (d: seq<Msg>)
    requires from <= |all|
    ensures d <= all && from <= |d|
    decreases |all| - from
  {
    if from == |all| then all
    else if !visit(all[..from + 1]) then all[..from + 1]
    else Delivered(all, visit, from + 1)
  }

  // ----- structured files -----

  datatype Json = Array(items: seq<Json>) | Object(fields: map<string, Json>) | Scalar

  const CHILD_KEYS: seq<string> :=
    ["messages", "history", "turns", "contents", "conversation", "entries", "items", "curatedHistory"]

  type ObjectExtractor = Json -> Option<Msg>

  const MAX_DEPTH: nat := 8

  // The messages of a tree in the order they are met, not yet numbered.
  function TreeMessages(extract: ObjectExtractor, value: Json, depth: nat): seq<Msg>
    decreases 2 * (MAX_DEPTH + 1 - depth), 0
  {
    if depth > MAX_DEPTH then []
    else
      match value
      case Array(items) => ListMessages(extract, items, depth)
      case Object(fields) =>
        (match extract(value)
         case Some(m) => [m]
         case None => ListMessages(extract, Children(fields, CHILD_KEYS), depth))
      case Scalar => []
  }

  function Children(fields: map<string, Json>, keys: seq<string>): seq<Json> {
    if keys == [] then []
    else (if keys[0] in fields then [fields[keys[0]]] else []) + Children(fields, keys[1..])
  }

  function ListMessages(extract: ObjectExtractor, items: seq<Json>, depth: nat): seq<Msg>
    requires depth <= MAX_DEPTH
    decreases 2 * (MAX_DEPTH + 1 - depth) - 1, |items|
  {
    if items == [] then [] else TreeMessages(extract, items[0], depth + 1) + ListMessages(extract, items[1..], depth)
  }

  function NumberFrom(messages: seq<Msg>, session: string, from: nat): (r: seq<Msg>)
    ensures |r| == |messages|
    ensures forall i :: 0 <= i < |messages| ==> r[i] == Numbered(messages[i], session, from + i)
  {
    seq(|messages|, i requires 0 <= i < |messages| => Numbered(messages[i], session, from + i))
  }

  // A transcript file: its lines, and the tree it parses to as a whole, if it
  // may be a structured file and does parse.
  datatype Transcript = Transcript(lines: seq<string>, tree: Option<Json>)

  // Everything in the transcript: the messages of the lines, or if there are
  // none those of the tree.
  function AllMessages(codex: bool, session: string, byLine: Extractor, byObject: ObjectExtractor, file: Transcript): seq<Msg> {
    var messages := LineMessages(codex, session, byLine, file.lines);
    if messages == [] && file.tree.Some? then
      NumberFrom(TreeMessages(byObject, file.tree.value, 0), session, 1)
    else messages
  }

  // ----- the two parsers -----

  // loadMessages, past its cache
  method LoadMessages(codex: bool, session: string, byLine: Extractor, byObject: ObjectExtractor, file: Transcript)
    returns (messages: seq<Msg>)
    ensures messages == AllMessages(codex, session, byLine, byObject, file)
  {
    hide Numbered, NormalizeMcp, NormalizeCommand, Register, IsDuplicate;
    messages := [];
    var previous: Option<Msg> := None;
    var commands: set<string> := {};
    for i := 0 to |file.lines|
      invariant TakeLines(codex, session, byLine, file.lines[..i]) == State(messages, commands)
      invariant previous == Previous(State(messages, commands))
    {
      assert file.lines[..i + 1][..i] == file.lines[..i];
      var extracted := byLine(file.lines[i]);
      if extracted.None? {
        continue;
      }
      var message := Numbered(extracted.value, session, i + 1);
      var paired := NormalizeMcp(codex, previous, message);
      if paired.None? {
        continue;
      }
      message := paired.value;
      var command := NormalizeCommand(codex, message, commands);
      commands := Register(codex, message, commands);
      if command.None? {
        continue;
      }
      message := command.value;
      if IsDuplicate(codex, previous, message) {
        continue;
      }
      previous := Some(message);
      messages := messages + [message];
    }
    assert file.lines[..|file.lines|] == file.lines;
    if messages == [] && file.tree.Some? {
      messages := CollectTree(session, byObject, file.tree.value, [], 0);
      assert messages == [] + NumberFrom(TreeMessages(byObject, file.tree.value, 0), session, 1);
    }
  }

  // collectStructuredMessages
  method CollectTree(session: string, extract: ObjectExtractor, value: Json, messages: seq<Msg>, depth: nat)
    returns (all: seq<Msg>)
    ensures all == messages + NumberFrom(TreeMessages(extract, value, depth), session, |messages| + 1)
    decreases 2 * (MAX_DEPTH + 1 - depth), 0
  {
    all := messages;
    if depth > MAX_DEPTH {
      return;
    }
    match value {
      case Array(items) =>
        all := CollectList(session, extract, items, messages, depth);
      case Object(fields) =>
        var extracted := extract(value);
        if extracted.Some? {
          all := messages + [Numbered(extracted.value, session, |messages| + 1)];
          return;
        }
        all := CollectList(session, extract, Children(fields, CHILD_KEYS), messages, depth);
      case Scalar =>
    }
  }

  method CollectList(session: string, extract: ObjectExtractor, items: seq<Json>, messages: seq<Msg>, depth: nat)
    returns (all: seq<Msg>)
    requires depth <= MAX_DEPTH
    ensures all == messages + NumberFrom(ListMessages(extract, items, depth), session, |messages| + 1)
    decreases 2 * (MAX_DEPTH + 1 - depth) - 1, |items|
  {
    hide TreeMessages, ListMessages, Numbered;
    all := messages;
    ghost var whole := ListMessages(extract, items, depth);
    var rest := items;
    ghost var done: seq<Msg> := [];
    while rest != []
      invariant done + ListMessages(extract, rest, depth) == whole
      invariant all == messages + NumberFrom(done, session, |messages| + 1)
      decreases |rest|
    {
      ghost var part := TreeMessages(extract, rest[0], depth + 1);
      ListNext(extract, rest, depth);
      Assoc(done, part, ListMessages(extract, rest[1..], depth));
      NumberMore(done, part, session, |messages| + 1);
      all := CollectTree(session, extract, rest[0], all, depth + 1);
      Assoc(messages, NumberFrom(done, session, |messages| + 1), NumberFrom(part, session, |messages| + 1 + |done|));
      done := done + part;
      rest := rest[1..];
    }
    ListNext(extract, [], depth);
    assert done + [] == done;
  }

  lemma {:induction false} ListNext(extract: ObjectExtractor, items: seq<Json>, depth: nat)
    requires depth <= MAX_DEPTH
    ensures ListMessages(extract, items, depth) ==
              if items == [] then []
              else TreeMessages(extract, items[0], depth + 1) + ListMessages(extract, items[1..], depth)
  {
    hide TreeMessages;
  }

  lemma {:induction false} NumberMore(a: seq<Msg>, b: seq<Msg>, session: string, from: nat)
    ensures NumberFrom(a + b, session, from) == NumberFrom(a, session, from) + NumberFrom(b, session, from + |a|)
  {
    hide Numbered;
  }
}
