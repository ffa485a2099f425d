// The tracker of skill installs and uninstalls: its list of operations, and
// what each of its locked sections does to that list.
module SkillOperations {
  import opened Options
  import opened Text

  datatype Kind = Install | Uninstall
  datatype Status = Queued | Running | Succeeded | Failed

  datatype Summary = Summary(
    id: string,
    kind: Kind,
    source: string,
    skillId: string,
    status: Status,
    error: string,
    command: seq<string>,
    cwd: string,
    stdout: string,
    stderr: string,
    enqueuedAt: string,
    startedAt: string,
    finishedAt: string
  )

  // What the command that installs or uninstalls left behind.
  datatype Outcome = Outcome(command: seq<string>, cwd: string, stdout: string, stderr: string, error: Option<string>)

  const MAX_COMPLETED: nat := 50

  predicate IsActive(s: Summary) {
    s.status == Queued || s.status == Running
  }

  predicate SameWork(s: Summary, kind: Kind, source: string, skillId: string) {
    s.kind == kind && s.skillId == skillId && (kind == Install ==> s.source == source)
  }

  function KindName(kind: Kind): string {
    match kind
    case Install => "install"
    case Uninstall => "uninstall"
  }

  function OperationId(kind: Kind, number: nat): string {
    "skill-" + KindName(kind) + ("-" + Itoa(number))
  }

  lemma {:induction false} IdIs(kind: Kind, number: nat)
    ensures OperationId(kind, number) == "skill-" + (if kind == Install then "install" else "uninstall") + "-" + Itoa(number)
  {
    hide Itoa;
    Assoc("skill-" + KindName(kind), "-", Itoa(number));
  }

  // The digits after the last dash give the number, so ids are never reused.
  lemma {:induction false} IdsDiffer(k: Kind, n: nat, l: Kind, m: nat)
    requires OperationId(k, n) == OperationId(l, m)
    ensures n == m && k == l
  {
    hide Itoa;
    if |Itoa(n)| <= |Itoa(m)| {
      SameNumber(k, n, l, m);
    } else {
      SameNumber(l, m, k, n);
    }
  }

  lemma {:induction false} SameNumber(k: Kind, n: nat, l: Kind, m: nat)
    requires OperationId(k, n) == OperationId(l, m) && |Itoa(n)| <= |Itoa(m)|
    ensures n == m && k == l
  {
    hide Itoa, KindName, OperationId;
    var id, a, b := OperationId(k, n), Itoa(n), Itoa(m);
    DigitsAtEnd(k, n);
    DigitsAtEnd(l, m);
    assert !IsDigit('-') && AllDigits(b);
    assert |a| == |b|;
    ItoaInjective(n, m);
    SameKind(k, l, n);
  }

  lemma {:induction false} DigitsAtEnd(k: Kind, n: nat)
    ensures var id, d := OperationId(k, n), Itoa(n);
            |id| > |d| && id[|id| - |d|..] == d && id[|id| - |d| - 1] == '-'
  {
    hide Itoa, KindName;
  }

  lemma {:induction false} SameKind(k: Kind, l: Kind, n: nat)
    requires OperationId(k, n) == OperationId(l, n)
    ensures k == l
  {
    hide Itoa;
    assert |KindName(k)| == |KindName(l)|;
  }

  function Fresh(kind: Kind, source: string, skillId: string, number: nat, now: string): Summary {
    Summary(OperationId(kind, number), kind, source, skillId, Queued, "", [], "", "", "", now, "", "")
  }

  function Started(s: Summary, now: string): Summary {
    s.(status := Running, startedAt := now)
  }

  function Ended(s: Summary, outcome: Outcome, now: string): Summary {
    var t := s.(command := outcome.command, cwd := outcome.cwd, stdout := outcome.stdout,
                stderr := outcome.stderr, finishedAt := now);
    match outcome.error
    case Some(message) => t.(status := Failed, error := message)
    case None => t.(status := Succeeded)
  }

  // ----- the list of operations -----

  type Operations = map<string, Summary>

  datatype Listing = Listing(sequence: nat, operations: Operations, order: seq<string>)

  const EMPTY: Listing := Listing(0, map[], [])

  predicate Distinct(order: seq<string>) {
    forall i, j :: 0 <= i < j < |order| ==> order[i] != order[j]
  }

  predicate Completed(operations: Operations, id: string) {
    id in operations && !IsActive(operations[id])
  }

  // The order without all but the newest `room` completed operations.
  function Keep(order: seq<string>, operations: Operations, room: nat): (kept: seq<string>)
    decreases |order|
  {
    if order == [] then []
    else
      var last, older := order[|order| - 1], order[..|order| - 1];
      if !Completed(operations, last) then Keep(older, operations, room) + [last]
      else if room > 0 then Keep(older, operations, room - 1) + [last]
      else Keep(older, operations, 0)
  }

  function Trimmed(l: Listing): Listing {
    var order := Keep(l.order, l.operations, MAX_COMPLETED);
    l.(operations := map id | id in l.operations && id in order :: l.operations[id], order := order)
  }

  predicate Busy(l: Listing, kind: Kind, source: string, skillId: string) {
    exists id :: id in l.operations && SameWork(l.operations[id], kind, source, skillId) && IsActive(l.operations[id])
  }

  function Added(l: Listing, kind: Kind, source: string, skillId: string, now: string): Listing {
    var summary := Fresh(kind, source, skillId, l.sequence + 1, now);
    Listing(l.sequence + 1, l.operations[summary.id := summary], l.order + [summary.id])
  }

  function Create(l: Listing, kind: Kind, source: string, skillId: string, now: string): Listing {
    Trimmed(Added(l, kind, source, skillId, now))
  }

  function Update(l: Listing, s: Summary): Listing {
    if s.id in l.operations then l.(operations := l.operations[s.id := s]) else l
  }

  // The second list differs from the first in what it says of one operation.
  ghost predicate OnlyThis(l: Listing, m: Listing, s: Summary) {
    && m.sequence == l.sequence && m.order == l.order && m.operations.Keys == l.operations.Keys
    && (forall id :: id in l.operations && id != s.id ==> m.operations[id] == l.operations[id])
    && (s.id in l.operations ==> m.operations[s.id] == s)
  }

  // The order lists every operation once, under its own id, and no id of a
  // number still to come.
  ghost predicate Listed(l: Listing) {
    && Distinct(l.order)
    && (forall id :: id in l.order <==> id in l.operations)
    && (forall id :: id in l.operations ==> l.operations[id].id == id)
  }

  ghost predicate Sound(l: Listing) {
    && Listed(l)
    && forall kind, number :: number > l.sequence ==> OperationId(kind, number) !in l.operations
  }

  lemma {:induction false} KeepSome(order: seq<string>, operations: Operations, room: nat)
    requires Distinct(order)
    ensures Distinct(Keep(order, operations, room))
    ensures forall id :: id in Keep(order, operations, room) ==> id in order
    ensures forall id :: id in order && !Completed(operations, id) ==> id in Keep(order, operations, room)
    decreases |order|
  {
    if order != [] {
      var last, older := order[|order| - 1], order[..|order| - 1];
      var left := if !Completed(operations, last) then room else if room > 0 then room - 1 else 0;
      KeepSome(older, operations, left);
      assert forall id :: id in order <==> id in older || id == last;
      assert last !in older;
    }
  }

  lemma {:induction false} TrimIsListed(l: Listing)
    requires Listed(l)
    ensures Listed(Trimmed(l)) && Trimmed(l).sequence == l.sequence
    ensures forall id :: id in l.operations && IsActive(l.operations[id]) ==> id in Trimmed(l).operations
    ensures forall id :: id in Trimmed(l).operations ==> id in l.operations && Trimmed(l).operations[id] == l.operations[id]
  {
    hide Keep;
    KeepSome(l.order, l.operations, MAX_COMPLETED);
  }

  lemma {:induction false} CreateIsSound(l: Listing, kind: Kind, source: string, skillId: string, now: string)
    requires Sound(l)
    ensures Sound(Create(l, kind, source, skillId, now))
    ensures Listed(Added(l, kind, source, skillId, now))
    ensures OperationId(kind, l.sequence + 1) in Create(l, kind, source, skillId, now).operations
  {
    hide Trimmed, OperationId;
    var m := Added(l, kind, source, skillId, now);
    var id := OperationId(kind, l.sequence + 1);
    assert id !in l.order;
    assert forall x :: x in m.order <==> x in l.order || x == id;
    TrimIsListed(m);
    forall k, n | n > l.sequence + 1 ensures OperationId(k, n) !in m.operations {
      if OperationId(k, n) == id {
        IdsDiffer(k, n, kind, l.sequence + 1);
      }
    }
  }

  // ----- the tracker -----

  class Operation {
    var summary: Summary
    var closed: bool  // the done channel

    constructor (summary: Summary)
      ensures this.summary == summary && !closed
    {
      this.summary := summary;
      closed := false;
    }
  }

  class Tracker {
    var sequence: nat
    var operations: map<string, Operation>
    var order: seq<string>

    ghost function View(): Listing
      reads this, operations.Values
    {
      Listing(sequence, map id | id in operations :: operations[id].summary, order)
    }

    ghost predicate Valid()
      reads this, operations.Values
    {
      Sound(View())
    }

    constructor ()
      ensures Valid() && View() == EMPTY && operations == map[]
    {
      sequence, operations, order := 0, map[], [];
    }

    // The operation returned is the active one on the same work, if there is
    // one, and otherwise a new one at the end of the list.
    method Enqueue(kind: Kind, source: string, skillId: string, now: string)
      returns (operation: Operation, created: bool)
      requires Valid()
      modifies this
      ensures Valid()
      ensures created <==> !Busy(old(View()), kind, source, skillId)
      ensures operation.summary.id in operations && operations[operation.summary.id] == operation
      ensures !created ==> View() == old(View()) && operations == old(operations) && operation.summary.kind == kind
                           && operation.summary.skillId == skillId && (kind == Install ==> operation.summary.source == source)
                           && operation.summary.status in {Queued, Running}
      ensures created ==> fresh(operation) && !operation.closed
                          && View() == Create(old(View()), kind, source, skillId, now)
                          && operation.summary == Fresh(kind, source, skillId, old(sequence) + 1, now)
    {
      hide Trimmed, OperationId, Sound, Listed, SameWork, Busy, IsActive;
      var active := ActiveOperation(kind, source, skillId);
      if active != null {
        return active, false;
      }
      CreateIsSound(View(), kind, source, skillId, now);
      sequence := sequence + 1;
      operation := new Operation(Fresh(kind, source, skillId, sequence, now));
      var id := operation.summary.id;
      operations := operations[id := operation];
      order := order + [id];
      assert View().operations == old(View()).operations[id := operation.summary];
      assert View() == Added(old(View()), kind, source, skillId, now);
      TrimCompleted();
      assert id in View().operations;
      created := true;
    }

    // The map is walked in no fixed order.
    method ActiveOperation(kind: Kind, source: string, skillId: string) returns (found: Operation?)
      requires Valid()
      ensures found != null <==> Busy(View(), kind, source, skillId)
      ensures found != null ==> found.summary.id in operations && operations[found.summary.id] == found
                                && found.summary.kind == kind && found.summary.skillId == skillId
                                && (kind == Install ==> found.summary.source == source)
                                && found.summary.status in {Queued, Running}
    {
      hide OperationId;
      var todo := operations.Keys;
      while todo != {}
        invariant todo <= operations.Keys
        invariant forall id :: id in operations && id !in todo ==>
                                 !(SameWork(operations[id].summary, kind, source, skillId)
                                   && IsActive(operations[id].summary))
        decreases todo
      {
        var id :| id in todo;
        todo := todo - {id};
        var operation := operations[id];
        assert View().operations[id] == operation.summary;
        if operation.summary.kind != kind || operation.summary.skillId != skillId {
          continue;
        }
        if kind == Install && operation.summary.source != source {
          continue;
        }
        if IsActive(operation.summary) {
          return operation;
        }
      }
      return null;
    }

    method MarkRunning(operation: Operation, now: string)
      requires Valid()
      requires operation.summary.id in operations ==> operations[operation.summary.id] == operation
      modifies operation`summary
      ensures Valid() && operations == old(operations)
      ensures operation.summary == Started(old(operation.summary), now)
      ensures operation.summary == old(operation.summary).(status := Running, startedAt := now)
      ensures View() == Update(old(View()), operation.summary)
      ensures OnlyThis(old(View()), View(), operation.summary)
    {
      hide OperationId;
      operation.summary := Started(operation.summary, now);
      OneChanged(old(View()), View(), operation.summary);
    }

    // Closing the channel a second time would panic.
    method Finish(operation: Operation, outcome: Outcome, now: string)
      requires Valid() && !operation.closed
      requires operation.summary.id in operations ==> operations[operation.summary.id] == operation
      modifies operation
      ensures Valid() && operations == old(operations)
      ensures operation.closed && operation.summary == Ended(old(operation.summary), outcome, now)
      ensures var was, is_ := old(operation.summary), operation.summary;
              && (outcome.error.None? ==> is_.status == Succeeded && is_.error == was.error)
              && (outcome.error.Some? ==> is_.status == Failed && is_.error == outcome.error.value)
              && (is_.command, is_.cwd, is_.stdout, is_.stderr, is_.finishedAt)
                 == (outcome.command, outcome.cwd, outcome.stdout, outcome.stderr, now)
              && (is_.id, is_.kind, is_.source, is_.skillId, is_.enqueuedAt, is_.startedAt)
                 == (was.id, was.kind, was.source, was.skillId, was.enqueuedAt, was.startedAt)
      ensures OnlyThis(old(View()), View(), operation.summary)
      ensures View() == Update(old(View()), operation.summary)
    {
      hide OperationId;
      var summary := operation.summary;
      summary := summary.(command := outcome.command, cwd := outcome.cwd, stdout := outcome.stdout,
                          stderr := outcome.stderr, finishedAt := now);
      if outcome.error.Some? {
        summary := summary.(status := Failed, error := outcome.error.value);
      } else {
        summary := summary.(status := Succeeded);
      }
      operation.summary := summary;
      operation.closed := true;
      OneChanged(old(View()), View(), operation.summary);
    }

    // The newest first.
    method Snapshot() returns (summaries: seq<Summary>)
      requires Valid()
      ensures |summaries| == |order|
      ensures forall k :: 0 <= k < |order| ==> summaries[k] == View().operations[order[|order| - 1 - k]]
    {
      hide OperationId;
      summaries := [];
      var i := |order|;
      while i > 0
        invariant 0 <= i <= |order| && |summaries| == |order| - i
        invariant forall k :: 0 <= k < |summaries| ==> summaries[k] == View().operations[order[|order| - 1 - k]]
      {
        i := i - 1;
        assert order[i] in View().operations;
        if order[i] in operations {
          summaries := summaries + [operations[order[i]].summary];
        }
      }
    }

    // trimLocked, deleting from the list it walks.
    method TrimCompleted()
      requires Listed(View())
      modifies this`operations, this`order
      ensures View() == Trimmed(old(View()))
      ensures forall id :: id in operations ==> id in old(operations) && operations[id] == old(operations)[id]
    {
      hide Keep, IsActive, Listed, Completed, Trimming, Trimmed;
      ghost var was := View();
      ghost var tail: seq<string> := [];
      var completed: nat := 0;
      var i: nat := |order|;
      TrimStarts(was);
      while i > 0
        invariant Trimming(was, order, tail, i, completed)
        invariant forall id :: id in operations <==> id in was.operations && id in order
        invariant forall id :: id in operations ==> id in old(operations) && operations[id] == old(operations)[id]
      {
        i := i - 1;
        TrimStep(was, order, tail, i, completed);
        var id := order[i];
        if id in operations && !IsActive(operations[id].summary) {
          completed := completed + 1;
          if completed <= MAX_COMPLETED {
            tail := [id] + tail;
            continue;
          }
          operations := operations - {id};
          order := order[..i] + order[i + 1..];
        } else {
          tail := [id] + tail;
        }
      }
      TrimEnds(was, order, tail, completed);
      assert View().operations == Trimmed(was).operations;
    }
  }

  // The walk has dealt with the order from i on, and left `tail` of it.
  ghost predicate Trimming(was: Listing, order: seq<string>, tail: seq<string>, i: nat, completed: nat) {
    && Listed(was)
    && i <= |was.order|
    && order == was.order[..i] + tail && Distinct(order)
    && (forall id :: id in order ==> id in was.operations)
    && Keep(was.order, was.operations, MAX_COMPLETED) == Keep(was.order[..i], was.operations, RoomAfter(completed)) + tail
  }

  function RoomAfter(completed: nat): nat {
    if completed <= MAX_COMPLETED then MAX_COMPLETED - completed else 0
  }

  lemma {:induction false} TrimStarts(was: Listing)
    requires Listed(was)
    ensures Trimming(was, was.order, [], |was.order|, 0)
    ensures forall id :: id in was.operations ==> id in was.order
  {
    assert was.order[..|was.order|] == was.order;
  }

  lemma {:induction false} TrimStep(was: Listing, order: seq<string>, tail: seq<string>, i: nat, completed: nat)
    requires Trimming(was, order, tail, i + 1, completed)
    ensures i < |order| && order[i] in was.operations
    ensures var id := order[i];
            if IsActive(was.operations[id]) then Trimming(was, order, [id] + tail, i, completed)
            else if completed < MAX_COMPLETED then Trimming(was, order, [id] + tail, i, completed + 1)
            else Trimming(was, order[..i] + order[i + 1..], tail, i, completed + 1)
    ensures forall x :: x in order[..i] + order[i + 1..] <==> x in order && x != order[i]
  {
    hide IsActive, Listed;
    var before, id := was.order[..i + 1], order[i];
    assert id in order;
    assert before[..i] == was.order[..i] && before[i] == id;
    assert order == was.order[..i] + ([id] + tail);
    RemovedOne(order, order[..i] + order[i + 1..], i);
    assert order[..i] + order[i + 1..] == was.order[..i] + tail;
    var kept := Keep(before, was.operations, RoomAfter(completed));
    if Completed(was.operations, id) && completed >= MAX_COMPLETED {
      assert kept == Keep(before[..i], was.operations, 0);
    } else {
      var room := RoomAfter(if Completed(was.operations, id) then completed + 1 else completed);
      assert kept == Keep(before[..i], was.operations, room) + [id];
      Assoc(Keep(was.order[..i], was.operations, room), [id], tail);
    }
  }

  lemma {:induction false} TrimEnds(was: Listing, order: seq<string>, tail: seq<string>, completed: nat)
    requires Trimming(was, order, tail, 0, completed)
    ensures var l := Trimmed(was);
            && order == l.order && l.sequence == was.sequence
            && (forall id :: id in l.operations <==> id in was.operations && id in order)
            && (forall id :: id in l.operations ==> l.operations[id] == was.operations[id])
  {
    hide Keep;
    assert was.order[..0] == [] && [] + tail == tail;
    KeepNothing(was.operations, RoomAfter(completed));
  }

  lemma {:induction false} KeepNothing(operations: Operations, room: nat)
    ensures Keep([], operations, room) == []
  {
  }

  lemma {:induction false} RemovedOne(full: seq<string>, rest: seq<string>, i: nat)
    requires Distinct(full) && i < |full| && rest == full[..i] + full[i + 1..]
    ensures Distinct(rest) && forall id :: id in rest <==> id in full && id != full[i]
  {
    forall id ensures id in rest <==> id in full && id != full[i] {
      if id in full && id != full[i] {
        var k :| 0 <= k < |full| && full[k] == id;
        assert rest[if k < i then k else k - 1] == id;
      }
    }
  }

  lemma {:induction false} OneChanged(l: Listing, m: Listing, s: Summary)
    requires Sound(l) && OnlyThis(l, m, s)
    ensures m == Update(l, s) && Sound(m)
  {
    hide OperationId;
    assert m.operations == Update(l, s).operations;
  }
}
