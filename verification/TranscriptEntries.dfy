// Transcript entries, and what the initial snapshot does to them: dropping raw
// tool output and keeping the newest entries that fit a byte budget.
module TranscriptEntries {
  import opened Text

  // The fields the pagers read. A missing field, or one that is not a string,
  // is "". Everything else is `body`.
  datatype Entry = Entry(
    id: string,
    messageId: string,
    altId: string,
    kind: string,
    toolId: string,
    nestedToolId: string,
    toolKind: string,
    debugRaw: string,
    body: string
  )

  // workspaceTranscriptCursor
  function Cursor(e: Entry): string {
    if e.id != "" then e.id else if e.messageId != "" then e.messageId else e.altId
  }

  // The first of the three ids that is not empty.
  lemma {:induction false} CursorIs(e: Entry)
    ensures e.id != "" ==> Cursor(e) == e.id
    ensures e.id == "" && e.messageId != "" ==> Cursor(e) == e.messageId
    ensures e.id == "" && e.messageId == "" ==> Cursor(e) == e.altId
  {
  }

  // workspaceEntryToolID
  function ToolId(e: Entry): string {
    if e.toolId != "" then e.toolId else e.nestedToolId
  }

  predicate NeedsDebugRaw(toolKind: string) {
    toolKind == "ask_user_question" || toolKind == "exit_plan_mode"
  }

  // The entry, possibly without its raw tool output.
  predicate SameButRaw(a: Entry, b: Entry) {
    a == b || a == b.(debugRaw := "")
  }

  predicate AllSameButRaw(a: seq<Entry>, b: seq<Entry>) {
    |a| == |b| && forall i :: 0 <= i < |a| ==> SameButRaw(a[i], b[i])
  }

  // The kind of the tool with this id, as the last call before entry i says.
  function KindBefore(entries: seq<Entry>, i: nat, toolId: string): string
    requires i <= |entries|
  {
    if i == 0 then ""
    else if entries[i - 1].kind == "tool_call" && ToolId(entries[i - 1]) != "" && ToolId(entries[i - 1]) == toolId
    then entries[i - 1].toolKind
    else KindBefore(entries, i - 1, toolId)
  }

  // Raw output is dropped from the results of tools that do not need it.
  predicate DropsRaw(entries: seq<Entry>, i: nat)
    requires i < |entries|
  {
    && entries[i].kind == "tool_result"
    && entries[i].debugRaw != ""
    && !NeedsDebugRaw(KindBefore(entries, i, entries[i].toolId))
  }

  function WithoutRaw(entries: seq<Entry>): (trimmed: seq<Entry>)
    ensures |trimmed| == |entries|
    ensures forall i :: 0 <= i < |entries| ==>
                          trimmed[i] == if DropsRaw(entries, i) then entries[i].(debugRaw := "") else entries[i]
  {
    seq(|entries|, i requires 0 <= i < |entries| =>
      if DropsRaw(entries, i) then entries[i].(debugRaw := "") else entries[i])
  }

  // A call of the tool with this id.
  predicate CallsTool(e: Entry, toolId: string) {
    e.kind == "tool_call" && ToolId(e) == toolId != ""
  }

  ghost predicate CalledWithin(entries: seq<Entry>, from: nat, to: nat, toolId: string)
    requires to <= |entries|
  {
    exists j :: from <= j < to && CallsTool(entries[j], toolId)
  }

  // A list that starts at `base` knows the calls from there on, and no other.
  lemma {:induction false} KindInWindow(all: seq<Entry>, base: nat, i: nat, toolId: string)
    requires base <= i <= |all|
    ensures KindBefore(all[base..], i - base, toolId)
            == if CalledWithin(all, base, i, toolId) then KindBefore(all, i, toolId) else ""
    decreases i
  {
    if base < i {
      KindInWindow(all, base, i - 1, toolId);
      assert all[base..][i - base - 1] == all[i - 1];
      assert CallsTool(all[i - 1], toolId) ==> CalledWithin(all, base, i, toolId);
    }
  }

  // So a list that starts at `base` drops the raw output of a result if and
  // only if its tool does not need it, or was not called from `base` on.
  lemma {:induction false} WindowDropsRaw(all: seq<Entry>, base: nat, i: nat)
    requires base <= i < |all| && all[i].kind == "tool_result" && all[i].debugRaw != ""
    ensures DropsRaw(all[base..], i - base)
            <==> !NeedsDebugRaw(KindBefore(all, i, all[i].toolId)) || !CalledWithin(all, base, i, all[i].toolId)
  {
    hide KindBefore, CalledWithin;
    KindInWindow(all, base, i, all[i].toolId);
  }

  // A call with this id: the one at the top of the entry, or that of its tool
  // where the entry has none.
  ghost predicate CallAt(entries: seq<Entry>, j: nat, id: string) {
    && j < |entries| && entries[j].kind == "tool_call" && id != ""
    && (entries[j].toolId == id || (entries[j].toolId == "" && entries[j].nestedToolId == id))
  }

  // Entry j is the last call with this id before entry i.
  ghost predicate LastCallBefore(entries: seq<Entry>, i: nat, j: nat, id: string) {
    j < i && CallAt(entries, j, id) && forall k: nat :: j < k < i ==> !CallAt(entries, k, id)
  }

  lemma {:induction false} KindIsLastCalls(entries: seq<Entry>, i: nat, id: string)
    requires i <= |entries|
    ensures forall j: nat :: LastCallBefore(entries, i, j, id) ==> KindBefore(entries, i, id) == entries[j].toolKind
    ensures KindBefore(entries, i, id) != "" ==> exists j: nat :: LastCallBefore(entries, i, j, id)
    decreases i
  {
    hide LastCallBefore;
    if i == 0 {
      LastCallAt(entries, 0, id);
    } else {
      KindIsLastCalls(entries, i - 1, id);
      LastCallAt(entries, i, id);
      if CallAt(entries, i - 1, id) {
        assert LastCallBefore(entries, i, i - 1, id);
      } else if KindBefore(entries, i - 1, id) != "" {
        var j: nat :| LastCallBefore(entries, i - 1, j, id);
        assert LastCallBefore(entries, i, j, id);
      }
    }
  }

  lemma {:induction false} LastCallAt(entries: seq<Entry>, i: nat, id: string)
    requires i <= |entries|
    ensures forall j: nat :: LastCallBefore(entries, i, j, id) <==>
              i > 0 && if CallAt(entries, i - 1, id) then j == i - 1 else LastCallBefore(entries, i - 1, j, id)
  {
    hide CallAt;
  }

  // The last call before entry i with its id is of a tool that asks the user or
  // leaves the plan mode.
  ghost predicate AnswersUser(entries: seq<Entry>, i: nat)
    requires i < |entries|
  {
    exists j: nat :: LastCallBefore(entries, i, j, entries[i].toolId)
                     && entries[j].toolKind in {"ask_user_question", "exit_plan_mode"}
  }

  // A result keeps its raw output if and only if it is such a call's.
  lemma {:induction false} RawIsKept(entries: seq<Entry>, i: nat)
    requires i < |entries| && entries[i].kind == "tool_result" && entries[i].debugRaw != ""
    ensures WithoutRaw(entries)[i] == entries[i] <==> AnswersUser(entries, i)
  {
    hide KindBefore;
    KindIsLastCalls(entries, i, entries[i].toolId);
  }

  // The calls the server makes itself carry their id only in their tool.
  function CallAndResult(toolKind: string, id: string, raw: string): seq<Entry> {
    [Entry("c", "", "", "tool_call", "", id, toolKind, "", "call"),
     Entry("r", "", "", "tool_result", id, "", "", raw, "result")]
  }

  lemma {:induction false} NestedCallKeepsRaw(toolKind: string, id: string, raw: string)
    requires id != "" && raw != ""
    ensures WithoutRaw(CallAndResult(toolKind, id, raw))[1] == CallAndResult(toolKind, id, raw)[1]
            <==> toolKind == "ask_user_question" || toolKind == "exit_plan_mode"
  {
    hide LastCallBefore, WithoutRaw;
    var entries := CallAndResult(toolKind, id, raw);
    RawIsKept(entries, 1);
    OnlyCall(toolKind, id, raw);
  }

  lemma {:induction false} OnlyCall(toolKind: string, id: string, raw: string)
    requires id != ""
    ensures forall j: nat :: LastCallBefore(CallAndResult(toolKind, id, raw), 1, j, id) <==> j == 0
  {
    assert CallAt(CallAndResult(toolKind, id, raw), 0, id);
  }

  // workspaceTrimTranscriptSnapshotPayload
  method TrimPayload(entries: seq<Entry>) returns (trimmed: seq<Entry>)
    ensures trimmed == WithoutRaw(entries)
    ensures |trimmed| == |entries|
    ensures forall i :: 0 <= i < |entries| ==> trimmed[i] == entries[i] || trimmed[i] == entries[i].(debugRaw := "")
    ensures forall i :: 0 <= i < |entries| && entries[i].kind != "tool_result" ==> trimmed[i] == entries[i]
    ensures forall i :: 0 <= i < |entries| && entries[i].kind == "tool_result" && entries[i].debugRaw != "" ==>
                            (trimmed[i] == entries[i] <==> AnswersUser(entries, i))
  {
    hide AnswersUser;
    forall i | 0 <= i < |entries| && entries[i].kind == "tool_result" && entries[i].debugRaw != ""
      ensures WithoutRaw(entries)[i] == entries[i] <==> AnswersUser(entries, i)
    {
      RawIsKept(entries, i);
    }
    assert forall i :: 0 <= i < |entries| ==> (entries[i].kind != "tool_result" ==> !DropsRaw(entries, i));
    var toolKinds: map<string, string> := map[];
    trimmed := [];
    for i := 0 to |entries|
      invariant |trimmed| == i
      invariant forall t :: KindBefore(entries, i, t) == if t in toolKinds then toolKinds[t] else ""
      invariant forall j :: 0 <= j < i ==>
                              trimmed[j] == if DropsRaw(entries, j) then entries[j].(debugRaw := "") else entries[j]
    {
      var entry := entries[i];
      if entry.kind == "tool_call" {
        var toolId := ToolId(entry);
        if toolId != "" {
          toolKinds := toolKinds[toolId := entry.toolKind];
        }
        trimmed := trimmed + [entry];
        continue;
      }
      if entry.kind == "tool_result" && entry.debugRaw != "" {
        var toolKind := if entry.toolId in toolKinds then toolKinds[entry.toolId] else "";
        if !NeedsDebugRaw(toolKind) {
          trimmed := trimmed + [entry.(debugRaw := "")];
          continue;
        }
      }
      trimmed := trimmed + [entry];
    }
  }

  // What encoding an entry gives: its size in bytes, and whether it failed.
  datatype Encoded = Encoded(bytes: nat, failed: bool)

  function TotalBytes(entries: seq<Entry>, encode: Entry -> Encoded): nat {
    if entries == [] then 0 else encode(entries[0]).bytes + TotalBytes(entries[1..], encode)
  }

  lemma {:induction false} TotalBytesAre(e: Entry, rest: seq<Entry>, encode: Entry -> Encoded)
    ensures TotalBytes([], encode) == 0
    ensures TotalBytes([e] + rest, encode) == encode(e).bytes + TotalBytes(rest, encode)
  {
    assert ([e] + rest)[1..] == rest;
  }

  // Entries start.. are the newest ones that fit: the newest is always kept,
  // and the one before the first kept would not have fitted.
  ghost predicate NewestThatFit(entries: seq<Entry>, maxBytes: int, encode: Entry -> Encoded, start: nat) {
    && start < |entries|
    && (start < |entries| - 1 ==> TotalBytes(entries[start..], encode) <= maxBytes)
    && (forall i :: start <= i < |entries| - 1 ==> !encode(entries[i]).failed)
    && (start > 0 ==> encode(entries[start - 1]).failed || TotalBytes(entries[start - 1..], encode) > maxBytes)
  }

  // workspaceBoundTranscriptSnapshotPayload
  method BoundPayload(entries: seq<Entry>, maxBytes: int, encode: Entry -> Encoded)
    returns (kept: seq<Entry>, omitted: nat)
    ensures omitted <= |entries| && kept == entries[omitted..]
    ensures entries == [] || maxBytes <= 0 ==> omitted == 0
    ensures entries != [] && maxBytes > 0 ==> NewestThatFit(entries, maxBytes, encode, omitted)
  {
    if entries == [] || maxBytes <= 0 {
      return entries, 0;
    }
    var start := |entries|;
    var remaining := maxBytes;
    var index := |entries| - 1;
    while index >= 0
      invariant -1 <= index && start == index + 1 <= |entries|
      invariant remaining == maxBytes - TotalBytes(entries[start..], encode)
      invariant start < |entries| - 1 ==> remaining >= 0
      invariant forall i :: start <= i < |entries| - 1 ==> !encode(entries[i]).failed
    {
      assert entries[index..][1..] == entries[start..];
      var encoded := encode(entries[index]);
      if start != |entries| && (encoded.failed || encoded.bytes > remaining) {
        break;
      }
      start := index;
      remaining := remaining - encoded.bytes;
      index := index - 1;
    }
    return entries[start..], start;
  }

  // The budget determines what is kept.
  lemma {:induction false} FitIsUnique(entries: seq<Entry>, maxBytes: int, encode: Entry -> Encoded, a: nat, b: nat)
    requires maxBytes > 0 && NewestThatFit(entries, maxBytes, encode, a) && NewestThatFit(entries, maxBytes, encode, b)
    ensures a == b
  {
    hide TotalBytes;
    if a < b {
      MoreBytes(entries, a, b - 1, encode);
    } else if b < a {
      MoreBytes(entries, b, a - 1, encode);
    }
  }

  lemma {:induction false} MoreBytes(entries: seq<Entry>, a: nat, b: nat, encode: Entry -> Encoded)
    requires a <= b < |entries|
    ensures TotalBytes(entries[b..], encode) <= TotalBytes(entries[a..], encode)
    decreases b - a
  {
    if a < b {
      assert entries[a..][1..] == entries[a + 1..];
      MoreBytes(entries, a + 1, b, encode);
    }
  }
}
