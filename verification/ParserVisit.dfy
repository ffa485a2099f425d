// The streaming parser, and the search that is built on it: a visitor sees
// exactly the messages the collecting parser returns, up to where it stops.
module ParserVisit {
  import opened Options
  import opened Text
  import opened ParserStream

  // The visitor wants more after everything from `from` on.
  ghost predicate KeepsOn(all: seq<Msg>, visit: Visitor, from: nat) {
    forall k :: from < k <= |all| ==> visit(all[..k])
  }

  lemma {:induction false} DeliveredWhole(all: seq<Msg>, visit: Visitor, from: nat)
    requires from <= |all| && KeepsOn(all, visit, from)
    ensures Delivered(all, visit, from) == all
    decreases |all| - from
  {
    if from < |all| {
      DeliveredWhole(all, visit, from + 1);
    }
  }

  // Stopped inside a, nothing after a matters; otherwise go on after a.
  lemma {:induction false} DeliveredConcat(a: seq<Msg>, b: seq<Msg>, visit: Visitor, from: nat)
    requires from <= |a|
    ensures KeepsOn(a, visit, from) ==> Delivered(a + b, visit, from) == Delivered(a + b, visit, |a|)
    ensures !KeepsOn(a, visit, from) ==> Delivered(a + b, visit, from) == Delivered(a, visit, from)
    decreases |a| - from
  {
    if from < |a| {
      assert (a + b)[..from + 1] == a[..from + 1];
      if visit(a[..from + 1]) {
        DeliveredConcat(a, b, visit, from + 1);
        assert KeepsOn(a, visit, from) <==> KeepsOn(a, visit, from + 1);
      }
    }
  }

  // The first message that is not followed by another.
  lemma {:induction false} DeliveredStop(all: seq<Msg>, d: seq<Msg>, visit: Visitor)
    requires d <= all && d != [] && !visit(d)
    requires forall k :: 0 < k < |d| ==> visit(d[..k])
    ensures Delivered(all, visit, 0) == d
  {
    DeliveredReaches(all, d, visit, 0);
  }

  lemma {:induction false} NothingYet(visit: Visitor)
    ensures KeepsOn([], visit, 0)
  {
  }

  lemma {:induction false} OneMore(before: seq<Msg>, m: Msg, visit: Visitor)
    requires KeepsOn(before, visit, 0)
    ensures visit(before + [m]) ==> KeepsOn(before + [m], visit, 0)
  {
    var after := before + [m];
    assert forall k :: 0 < k < |after| ==> after[..k] == before[..k];
    assert after[..|after|] == after;
  }

  lemma {:induction false} StopHere(all: seq<Msg>, before: seq<Msg>, m: Msg, visit: Visitor)
    requires KeepsOn(before, visit, 0) && before + [m] <= all && !visit(before + [m])
    ensures Delivered(all, visit, 0) == before + [m]
  {
    var after := before + [m];
    assert forall k :: 0 < k < |after| ==> after[..k] == before[..k];
    DeliveredStop(all, after, visit);
  }

  lemma {:induction false} DeliveredReaches(all: seq<Msg>, d: seq<Msg>, visit: Visitor, from: nat)
    requires d <= all && d != [] && !visit(d) && from < |d|
    requires forall k :: 0 < k < |d| ==> visit(d[..k])
    ensures Delivered(all, visit, from) == d
    decreases |d| - from
  {
    assert all[..from + 1] == d[..from + 1];
    if from + 1 < |d| {
      DeliveredReaches(all, d, visit, from + 1);
    } else {
      assert d[..|d|] == d;
    }
  }

  lemma {:induction false} EmittedGrows(codex: bool, session: string, extract: Extractor, lines: seq<string>, n: nat)
    requires n <= |lines|
    ensures TakeLines(codex, session, extract, lines[..n]).emitted <= TakeLines(codex, session, extract, lines).emitted
    decreases |lines| - n
  {
    if n < |lines| {
      EmittedGrows(codex, session, extract, lines, n + 1);
      assert lines[..n + 1][..n] == lines[..n];
      LineGrows(codex, session, extract, TakeLines(codex, session, extract, lines[..n]), lines[n], n + 1);
    } else {
      assert lines[..n] == lines;
    }
  }

  lemma {:induction false} LineGrows(codex: bool, session: string, extract: Extractor, s: State, line: string, index: nat)
    ensures s.emitted <= TakeLine(codex, session, extract, s, line, index).emitted
  {
    hide NormalizeMcp, NormalizeCommand, Register, IsDuplicate, Numbered;
  }

  // The visitor is handed the messages in order, one after the other, until it
  // wants no more or there are no more.
  ghost predicate UpToTheStop(all: seq<Msg>, visit: Visitor, delivered: seq<Msg>) {
    && delivered <= all
    && (forall k :: 0 < k < |delivered| ==> visit(delivered[..k]))
    && (delivered != all ==> delivered != [] && !visit(delivered))
  }

  lemma {:induction false} DeliveredIs(all: seq<Msg>, visit: Visitor)
    ensures UpToTheStop(all, visit, Delivered(all, visit, 0))
  {
    DeliveredFrom(all, visit, 0);
  }

  lemma {:induction false} DeliveredFrom(all: seq<Msg>, visit: Visitor, from: nat)
    requires from <= |all| && forall k :: 0 < k <= from ==> visit(all[..k])
    ensures UpToTheStop(all, visit, Delivered(all, visit, from))
    decreases |all| - from
  {
    if from < |all| {
      if visit(all[..from + 1]) {
        DeliveredFrom(all, visit, from + 1);
      } else {
        var d := all[..from + 1];
        assert forall k :: 0 < k < |d| ==> d[..k] == all[..k];
      }
    }
  }

  // StreamSearchableMessages
  method StreamMessages(codex: bool, session: string, byLine: Extractor, byObject: ObjectExtractor, file: Transcript,
                        visit: Visitor)
    returns (delivered: seq<Msg>)
    ensures delivered == Delivered(AllMessages(codex, session, byLine, byObject, file), visit, 0)
  {
    hide Numbered, NormalizeMcp, NormalizeCommand, Register, IsDuplicate, Delivered, TreeMessages, KeepsOn;
    delivered := [];
    NothingYet(visit);
    var previous: Option<Msg> := None;
    var commands: set<string> := {};
    ghost var all := AllMessages(codex, session, byLine, byObject, file);
    for i := 0 to |file.lines|
      invariant TakeLines(codex, session, byLine, file.lines[..i]) == State(delivered, commands)
      invariant previous == Previous(State(delivered, commands))
      invariant KeepsOn(delivered, visit, 0)
    {
      assert file.lines[..i + 1][..i] == file.lines[..i];
      var extracted := byLine(file.lines[i]);
      if extracted.None? {
        continue;
      }
      var message := Numbered(extracted.value, session, i + 1);
      var paired := NormalizeMcp(codex, previous, message);
      if paired.None? {
        continue;
      }
      message := paired.value;
      var command := NormalizeCommand(codex, message, commands);
      commands := Register(codex, message, commands);
      if command.None? {
        continue;
      }
      message := command.value;
      if IsDuplicate(codex, previous, message) {
        continue;
      }
      previous := Some(message);
      OneMore(delivered, message, visit);
      ghost var before := delivered;
      delivered := delivered + [message];
      if !visit(delivered) {
        EmittedGrows(codex, session, byLine, file.lines, i + 1);
        StopHere(all, before, message, visit);
        return;
      }
    }
    assert file.lines[..|file.lines|] == file.lines;
    if delivered == [] && file.tree.Some? {
      var keepGoing;
      delivered, keepGoing := VisitTree(session, byObject, file.tree.value, [], visit, 0);
      assert all == [] + NumberFrom(TreeMessages(byObject, file.tree.value, 0), session, 1);
    } else {
      DeliveredWhole(all, visit, 0);
    }
  }

  // collectStructuredSearchableMessages
  method VisitTree(session: string, extract: ObjectExtractor, value: Json, before: seq<Msg>, visit: Visitor, depth: nat)
    returns (delivered: seq<Msg>, keepGoing: bool)
    ensures var all := before + NumberFrom(TreeMessages(extract, value, depth), session, |before| + 1);
            && delivered == Delivered(all, visit, |before|)
            && (keepGoing <==> KeepsOn(all, visit, |before|))
    decreases 2 * (MAX_DEPTH + 1 - depth), 0
  {
    delivered, keepGoing := before, true;
    if depth > MAX_DEPTH {
      assert before + [] == before;
      return;
    }
    match value {
      case Array(items) =>
        delivered, keepGoing := VisitList(session, extract, items, before, visit, depth);
      case Object(fields) =>
        var extracted := extract(value);
        if extracted.Some? {
          delivered := before + [Numbered(extracted.value, session, |before| + 1)];
          keepGoing := visit(delivered);
          assert delivered == before + NumberFrom([extracted.value], session, |before| + 1);
          assert delivered[..|delivered|] == delivered;
          return;
        }
        delivered, keepGoing := VisitList(session, extract, Children(fields, CHILD_KEYS), before, visit, depth);
      case Scalar =>
        assert before + [] == before;
    }
  }

  method VisitList(session: string, extract: ObjectExtractor, items: seq<Json>, before: seq<Msg>, visit: Visitor, depth: nat)
    returns (delivered: seq<Msg>, keepGoing: bool)
    requires depth <= MAX_DEPTH
    ensures var all := before + NumberFrom(ListMessages(extract, items, depth), session, |before| + 1);
            && delivered == Delivered(all, visit, |before|)
            && (keepGoing <==> KeepsOn(all, visit, |before|))
    decreases 2 * (MAX_DEPTH + 1 - depth) - 1, |items|
  {
    hide TreeMessages, Numbered, Delivered, KeepsOn;
    if items == [] {
      assert before + [] == before;
      KeepsOnNothing(before, visit);
      DeliveredWhole(before, visit, |before|);
      return before, true;
    }
    ghost var first := NumberFrom(TreeMessages(extract, items[0], depth + 1), session, |before| + 1);
    ghost var others := NumberFrom(ListMessages(extract, items[1..], depth), session, |before| + 1 + |first|);
    NumberMore(TreeMessages(extract, items[0], depth + 1), ListMessages(extract, items[1..], depth), session, |before| + 1);
    Assoc(before, first, others);
    DeliveredConcat(before + first, others, visit, |before|);
    KeepsOnConcat(before + first, others, visit, |before|);
    delivered, keepGoing := VisitTree(session, extract, items[0], before, visit, depth + 1);
    if !keepGoing {
      return;
    }
    DeliveredWhole(before + first, visit, |before|);
    delivered, keepGoing := VisitList(session, extract, items[1..], delivered, visit, depth);
  }

  lemma {:induction false} KeepsOnNothing(all: seq<Msg>, visit: Visitor)
    ensures KeepsOn(all, visit, |all|)
  {
  }

  lemma {:induction false} KeepsOnConcat(a: seq<Msg>, b: seq<Msg>, visit: Visitor, from: nat)
    requires from <= |a|
    ensures KeepsOn(a + b, visit, from) <==> KeepsOn(a, visit, from) && KeepsOn(a + b, visit, |a|)
  {
    assert forall k :: 0 <= k <= |a| ==> (a + b)[..k] == a[..k];
  }

  // ----- consequences -----

  // A visitor that never stops is handed everything, any other a prefix.
  lemma {:induction false} StreamIsLoad(all: seq<Msg>, visit: Visitor)
    ensures (forall d :: visit(d)) ==> Delivered(all, visit, 0) == all
    ensures Delivered(all, visit, 0) <= all
  {
    if forall d :: visit(d) {
      DeliveredWhole(all, visit, 0);
    }
  }

  // ----- search -----

  // Whether the lower-cased text of a message contains the query.
  type Hit = Msg -> bool

  function Hits(messages: seq<Msg>, hit: Hit): seq<Msg> {
    if messages == [] then []
    else
      var last := |messages| - 1;
      Hits(messages[..last], hit) + (if hit(messages[last]) then [messages[last]] else [])
  }

  function SearchLimit(limit: int): (l: nat)
    ensures l > 0
    ensures l == if limit > 0 then limit else 3
  {
    if limit <= 0 then 3 else limit
  }

  // The visitor of a search: stop at the hit that fills the limit.
  function Searching(hit: Hit, limit: nat): Visitor {
    (d: seq<Msg>) => d == [] || !hit(d[|d| - 1]) || |Hits(d, hit)| < limit
  }

  // SearchMessages, for a query that is not blank
  method SearchMessages(codex: bool, session: string, byLine: Extractor, byObject: ObjectExtractor, file: Transcript,
                        hit: Hit, limit: int)
    returns (matches: seq<Msg>)
    ensures var hits := Hits(AllMessages(codex, session, byLine, byObject, file), hit);
            matches == if |hits| <= SearchLimit(limit) then hits else hits[..SearchLimit(limit)]
  {
    hide AllMessages, Delivered;
    ghost var all := AllMessages(codex, session, byLine, byObject, file);
    var size := SearchLimit(limit);
    var delivered := StreamMessages(codex, session, byLine, byObject, file, Searching(hit, size));
    matches := Hits(delivered, hit);
    assert all[..0] == [];
    FirstHits(all, hit, size, 0);
  }

  // The hits are exactly the messages that match, in order.
  ghost predicate PickedOut(all: seq<Msg>, hit: Hit, at: seq<nat>, hits: seq<Msg>) {
    && |at| == |hits|
    && (forall k :: 0 <= k < |at| ==> at[k] < |all| && hit(all[at[k]]) && hits[k] == all[at[k]])
    && (forall j, k :: 0 <= j < k < |at| ==> at[j] < at[k])
    && (forall i :: 0 <= i < |all| && hit(all[i]) ==> i in at)
  }

  lemma {:induction false} HitsAre(all: seq<Msg>, hit: Hit) returns (at: seq<nat>)
    ensures PickedOut(all, hit, at, Hits(all, hit))
    decreases |all|
  {
    hide PickedOut;
    if all == [] {
      at := [];
      NonePicked(hit);
    } else {
      var n := |all| - 1;
      var older := HitsAre(all[..n], hit);
      var before := Hits(all[..n], hit);
      assert all[..n] + [all[n]] == all && before + [] == before;
      OneMorePicked(all[..n], all[n], hit, older, before);
      at := if hit(all[n]) then older + [n] else older;
    }
  }

  lemma {:induction false} NonePicked(hit: Hit)
    ensures PickedOut([], hit, [], [])
  {
  }

  lemma {:induction false} OneMorePicked(all: seq<Msg>, m: Msg, hit: Hit, at: seq<nat>, hits: seq<Msg>)
    requires PickedOut(all, hit, at, hits)
    ensures hit(m) ==> PickedOut(all + [m], hit, at + [|all|], hits + [m])
    ensures !hit(m) ==> PickedOut(all + [m], hit, at, hits)
  {
    var more := at + [|all|];
    assert more[|at|] == |all|;
    assert forall i :: i in at ==> i in more;
  }

  // Up to where the search stops it has the first hits; it stops only when
  // it has enough.
  lemma {:induction false} FirstHits(all: seq<Msg>, hit: Hit, limit: nat, from: nat)
    requires from <= |all| && |Hits(all[..from], hit)| < limit
    ensures var d, hits := Delivered(all, Searching(hit, limit), from), Hits(all, hit);
            Hits(d, hit) == if |hits| <= limit then hits else hits[..limit]
    decreases |all| - from
  {
    if from == |all| {
      assert all[..from] == all;
    } else {
      var d := all[..from + 1];
      assert d[..from] == all[..from];
      HitsGrow(all, hit, from + 1);
      if Searching(hit, limit)(d) {
        FirstHits(all, hit, limit, from + 1);
      }
    }
  }

  lemma {:induction false} HitsGrow(all: seq<Msg>, hit: Hit, n: nat)
    requires n <= |all|
    ensures Hits(all[..n], hit) <= Hits(all, hit)
    decreases |all| - n
  {
    if n < |all| {
      HitsGrow(all, hit, n + 1);
      assert all[..n + 1][..n] == all[..n];
    } else {
      assert all[..n] == all;
    }
  }
}
