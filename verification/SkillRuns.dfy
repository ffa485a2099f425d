// Every interleaving of callers and workers of the skill tracker.
//
// Each operation that was ever made has a worker: it waits for the run lock,
// marks its operation running, runs the command, records how it ended and
// lets the lock go. Workers are kept in the order their operations were made.
module SkillRuns {
  import opened Options
  import opened Text
  import opened SkillOperations
  import opened SkillHistory

  datatype Phase = Waiting | Locked | Working | Recorded | Gone

  datatype Worker = Worker(summary: Summary, phase: Phase, closes: nat)

  datatype System = System(listing: Listing, workers: seq<Worker>)

  datatype Event =
    | Call(kind: Kind, source: string, skillId: string, now: string)
    | Lock(worker: nat)
    | Mark(worker: nat, now: string)
    | Record(worker: nat, outcome: Outcome, now: string)
    | Unlock(worker: nat)

  const START: System := System(EMPTY, [])

  predicate Holds(phase: Phase) {
    phase == Locked || phase == Working || phase == Recorded
  }

  predicate LockIsFree(s: System) {
    forall i :: 0 <= i < |s.workers| ==> !Holds(s.workers[i].phase)
  }

  predicate Enabled(s: System, e: Event) {
    e.Call? ||
    (e.worker < |s.workers| &&
     match e
     case Lock(w) => s.workers[w].phase == Waiting && LockIsFree(s)
     case Mark(w, _) => s.workers[w].phase == Locked
     case Record(w, _, _) => s.workers[w].phase == Working
     case Unlock(w) => s.workers[w].phase == Recorded)
  }

  function Next(s: System, e: Event): System
    requires Enabled(s, e)
  {
    match e
    case Call(kind, source, skillId, now) =>
      if Busy(s.listing, kind, source, skillId) then s
      else
        var summary := Fresh(kind, source, skillId, s.listing.sequence + 1, now);
        System(Create(s.listing, kind, source, skillId, now), s.workers + [Worker(summary, Waiting, 0)])
    case Lock(w) => s.(workers := s.workers[w := s.workers[w].(phase := Locked)])
    case Mark(w, now) => Revise(s, w, Worker(Started(s.workers[w].summary, now), Working, s.workers[w].closes))
    case Record(w, outcome, now) =>
      Revise(s, w, Worker(Ended(s.workers[w].summary, outcome, now), Recorded, s.workers[w].closes + 1))
    case Unlock(w) => s.(workers := s.workers[w := s.workers[w].(phase := Gone)])
  }

  function Revise(s: System, w: nat, worker: Worker): System
    requires w < |s.workers|
  {
    System(Update(s.listing, worker.summary), s.workers[w := worker])
  }

  // ----- the invariant -----

  function Ids(s: System): (r: seq<string>)
    ensures |r| == |s.workers| && forall i :: 0 <= i < |r| ==> r[i] == s.workers[i].summary.id
  {
    seq(|s.workers|, i requires 0 <= i < |s.workers| => s.workers[i].summary.id)
  }

  function Shown(s: System): (r: Flags)
    ensures |r| == |s.workers| && forall i :: 0 <= i < |r| ==> r[i] == (s.workers[i].summary.id in s.listing.operations)
  {
    seq(|s.workers|, i requires 0 <= i < |s.workers| => s.workers[i].summary.id in s.listing.operations)
  }

  function Done(s: System): (r: Flags)
    ensures |r| == |s.workers| && forall i :: 0 <= i < |r| ==> r[i] == !IsActive(s.workers[i].summary)
  {
    seq(|s.workers|, i requires 0 <= i < |s.workers| => !IsActive(s.workers[i].summary))
  }

  // The list holds the workers' own summaries, in the order they were made.
  ghost predicate Linked(s: System) {
    && Sound(s.listing)
    && |s.workers| == s.listing.sequence
    && (forall i :: 0 <= i < |s.workers| ==>
                      s.workers[i].summary.id == OperationId(s.workers[i].summary.kind, i + 1))
    && (forall i :: 0 <= i < |s.workers| && s.workers[i].summary.id in s.listing.operations ==>
                      s.listing.operations[s.workers[i].summary.id] == s.workers[i].summary)
    && s.listing.order == Select(Ids(s), Shown(s), |s.workers|)
  }

  // What the status and the done channel say at each point of a worker's life.
  predicate InStep(w: Worker) {
    match w.phase
    case Waiting => w.summary.status == Queued && w.summary.error == "" && w.closes == 0
    case Locked => w.summary.status == Queued && w.summary.error == "" && w.closes == 0
    case Working => w.summary.status == Running && w.summary.error == "" && w.closes == 0
    case Recorded => !IsActive(w.summary) && w.closes == 1
    case Gone => !IsActive(w.summary) && w.closes == 1
  }

  ghost predicate AllInStep(s: System) {
    forall i :: 0 <= i < |s.workers| ==> InStep(s.workers[i])
  }

  ghost predicate OneHolder(s: System) {
    forall i, j :: 0 <= i < |s.workers| && 0 <= j < |s.workers| && Holds(s.workers[i].phase) && Holds(s.workers[j].phase)
                   ==> i == j
  }

  ghost predicate NoTwins(s: System) {
    forall i, j :: 0 <= i < j < |s.workers| && IsActive(s.workers[i].summary) && IsActive(s.workers[j].summary) ==>
                     !Alike(s.workers[i].summary, s.workers[j].summary)
  }

  predicate Alike(a: Summary, b: Summary) {
    SameWork(a, b.kind, b.source, b.skillId)
  }

  ghost predicate Inv(s: System) {
    Linked(s) && AllInStep(s) && OneHolder(s) && NoTwins(s) && Overtaken(Shown(s), Done(s), MAX_COMPLETED)
  }

  // ----- each step keeps it -----

  lemma {:induction false} StepKeepsInv(s: System, e: Event)
    requires Inv(s) && Enabled(s, e)
    ensures Inv(Next(s, e))
  {
    hide Inv, Create, Started, Ended, OneHolder, NoTwins, AllInStep, Linked, Overtaken, Busy, Shown, Done;
    match e
    case Call(kind, source, skillId, now) =>
      if !Busy(s.listing, kind, source, skillId) {
        CreateKeepsInv(s, kind, source, skillId, now);
      }
    case Lock(w) => PhaseKeepsInv(s, w, Locked);
    case Unlock(w) => PhaseKeepsInv(s, w, Gone);
    case Mark(w, now) => ReviseKeepsInv(s, e);
    case Record(w, outcome, now) => ReviseKeepsInv(s, e);
  }

  lemma {:induction false} PhaseKeepsInv(s: System, w: nat, phase: Phase)
    requires Inv(s) && w < |s.workers|
    requires (phase == Locked && s.workers[w].phase == Waiting && LockIsFree(s))
             || (phase == Gone && s.workers[w].phase == Recorded)
    ensures Inv(s.(workers := s.workers[w := s.workers[w].(phase := phase)]))
  {
    hide OperationId, IsActive, SameWork, Sound, Overtaken;
    var t := s.(workers := s.workers[w := s.workers[w].(phase := phase)]);
    assert Ids(t) == Ids(s) && Shown(t) == Shown(s) && Done(t) == Done(s);
  }

  lemma {:induction false} ReviseKeepsInv(s: System, e: Event)
    requires Inv(s) && (e.Mark? || e.Record?) && Enabled(s, e)
    ensures Inv(Next(s, e))
  {
    hide Inv, OperationId, Linked, Overtaken;
    var t := Next(s, e);
    var w, revised := e.worker, t.workers[e.worker];
    assert Inv(s) ==> Linked(s) && AllInStep(s) && OneHolder(s) && NoTwins(s)
                      && Overtaken(Shown(s), Done(s), MAX_COMPLETED) by { InvParts(s); }
    assert InStep(s.workers[w]);
    ReviseKeepsLinked(s, w, revised);
    forall i | 0 <= i < |s.workers| ensures Done(s)[i] ==> Done(t)[i] {
      assert InStep(s.workers[i]);
    }
    MoreDone(Shown(s), Done(s), Done(t), MAX_COMPLETED);
    forall i, j | 0 <= i < j < |t.workers| && IsActive(t.workers[i].summary) && IsActive(t.workers[j].summary)
      ensures !Alike(t.workers[i].summary, t.workers[j].summary)
    {
      assert !Alike(s.workers[i].summary, s.workers[j].summary);
    }
    InvOfParts(t);
  }

  lemma {:induction false} InvParts(s: System)
    requires Inv(s)
    ensures Linked(s) && AllInStep(s) && OneHolder(s) && NoTwins(s) && Overtaken(Shown(s), Done(s), MAX_COMPLETED)
  {
  }

  lemma {:induction false} InvOfParts(s: System)
    requires Linked(s) && AllInStep(s) && OneHolder(s) && NoTwins(s) && Overtaken(Shown(s), Done(s), MAX_COMPLETED)
    ensures Inv(s)
  {
  }

  lemma {:induction false} MoreDone(shown: Flags, before: Flags, after: Flags, room: nat)
    requires |shown| == |before| == |after| && Overtaken(shown, before, room)
    requires forall i :: 0 <= i < |before| && before[i] ==> after[i]
    ensures Overtaken(shown, after, room)
  {
    hide Count, Both;
    forall i | 0 <= i < |shown| && !shown[i] ensures after[i] && Count(Both(shown, after), i + 1) >= room {
      CountMonotone(Both(shown, before), Both(shown, after), i + 1);
      assert before[i];
    }
  }

  // Two operations never have one id.
  lemma {:induction false} IdsOfWorkers(s: System, i: nat, j: nat)
    requires Linked(s) && i < |s.workers| && j < |s.workers| && s.workers[i].summary.id == s.workers[j].summary.id
    ensures i == j
  {
    hide OperationId;
    IdsDiffer(s.workers[i].summary.kind, i + 1, s.workers[j].summary.kind, j + 1);
  }

  lemma {:induction false} ReviseKeepsLinked(s: System, w: nat, worker: Worker)
    requires Linked(s) && w < |s.workers|
    requires worker.summary.id == s.workers[w].summary.id && worker.summary.kind == s.workers[w].summary.kind
    ensures Linked(Revise(s, w, worker)) && Shown(Revise(s, w, worker)) == Shown(s)
  {
    hide OperationId, Select;
    var t := Revise(s, w, worker);
    forall i | 0 <= i < |s.workers| && i != w ensures s.workers[i].summary.id != worker.summary.id {
      if s.workers[i].summary.id == worker.summary.id {
        IdsOfWorkers(s, i, w);
      }
    }
    assert t.listing.operations.Keys == s.listing.operations.Keys;
    assert Ids(t) == Ids(s) && Shown(t) == Shown(s);
    if worker.summary.id in s.listing.operations {
      OneChanged(s.listing, t.listing, worker.summary);
    }
  }

  // ----- a new operation -----

  lemma {:induction false} SelectMore(ids: seq<string>, flags: Flags, id: string, flag: bool, m: nat)
    requires |ids| == |flags| && m <= |ids|
    ensures Select(ids + [id], flags + [flag], m) == Select(ids, flags, m)
  {
    if m > 0 {
      SelectMore(ids, flags, id, flag, m - 1);
    }
  }

  lemma {:induction false} CountMore(flags: Flags, from: nat)
    ensures Count(flags + [false], from) == Count(flags, from)
    decreases |flags| - from
  {
    if from < |flags| {
      CountMore(flags, from + 1);
    } else if from == |flags| {
      assert (flags + [false])[from] == false;
      assert Count(flags + [false], from + 1) == 0;
    }
  }

  lemma {:induction false} OvertakenMore(shown: Flags, done: Flags, room: nat)
    requires |shown| == |done| && Overtaken(shown, done, room)
    ensures Overtaken(shown + [true], done + [false], room)
  {
    hide Count, Overtaken;
    var a, b := shown + [true], done + [false];
    assert Both(a, b) == Both(shown, done) + [false];
    forall i | 0 <= i < |a| && !a[i] ensures b[i] && Count(Both(a, b), i + 1) >= room {
      CountMore(Both(shown, done), i + 1);
      OvertakenAt(shown, done, room, i);
    }
    OvertakenIf(a, b, room);
  }

  // The system as it is before the list is trimmed.
  function Grown(s: System, kind: Kind, source: string, skillId: string, now: string): System {
    System(Added(s.listing, kind, source, skillId, now),
           s.workers + [Worker(Fresh(kind, source, skillId, s.listing.sequence + 1, now), Waiting, 0)])
  }

  lemma {:induction false} GrownIsLinked(s: System, kind: Kind, source: string, skillId: string, now: string)
    requires Linked(s)
    ensures var g := Grown(s, kind, source, skillId, now);
            && Listed(g.listing)
            && Shown(g) == Shown(s) + [true] && Done(g) == Done(s) + [false]
            && g.listing.order == Select(Ids(g), Shown(g), |g.workers|)
            && (forall i :: 0 <= i < |g.workers| ==>
                              g.workers[i].summary.id == OperationId(g.workers[i].summary.kind, i + 1))
            && (forall i :: 0 <= i < |g.workers| && g.workers[i].summary.id in g.listing.operations ==>
                              g.listing.operations[g.workers[i].summary.id] == g.workers[i].summary)
  {
    hide OperationId, Trimmed, Listed;
    var g := Grown(s, kind, source, skillId, now);
    var n := |s.workers|;
    CreateIsSound(s.listing, kind, source, skillId, now);
    forall i | 0 <= i < n ensures s.workers[i].summary.id != g.workers[n].summary.id {
      if s.workers[i].summary.id == g.workers[n].summary.id {
        IdsDiffer(s.workers[i].summary.kind, i + 1, kind, n + 1);
      }
    }
    assert Shown(g) == Shown(s) + [true] && Done(g) == Done(s) + [false];
    assert Ids(g) == Ids(s) + [g.workers[n].summary.id];
    SelectMore(Ids(s), Shown(s), g.workers[n].summary.id, true, n);
  }

  lemma {:induction false} CreateTrims(s: System, kind: Kind, source: string, skillId: string, now: string)
    requires Linked(s)
    ensures var g := Grown(s, kind, source, skillId, now);
            var t := g.(listing := Trimmed(g.listing));
            && Linked(t)
            && Done(t) == Done(g)
            && Shown(t) == Newest(Shown(g), Done(g), MAX_COMPLETED)
  {
    hide OperationId, Listed, Select, Newest, Keep, Count, IsActive;
    var g := Grown(s, kind, source, skillId, now);
    var t := g.(listing := Trimmed(g.listing));
    var n := |g.workers|;
    GrownIsLinked(s, kind, source, skillId, now);
    CreateIsSound(s.listing, kind, source, skillId, now);
    var flags := Newest(Shown(g), Done(g), MAX_COMPLETED);
    CountPast(Both(Shown(g), Done(g)));
    KeepIsNewest(Ids(g), Shown(g), Done(g), g.listing.operations, n, MAX_COMPLETED);
    assert t.listing.order == Select(Ids(g), flags, n);
    TrimIsListed(g.listing);
    forall i | 0 <= i < n ensures Shown(t)[i] == flags[i] {
      SelectMember(Ids(g), flags, n, Ids(g)[i]);
      ListedIsOrder(t.listing, Ids(g)[i]);
      if k :| 0 <= k < n && flags[k] && Ids(g)[k] == Ids(g)[i] {
        IdsDiffer(g.workers[i].summary.kind, i + 1, g.workers[k].summary.kind, k + 1);
      }
    }
    assert Shown(t) == flags && Done(t) == Done(g) && Ids(t) == Ids(g);
  }

  lemma {:induction false} ListedIsOrder(l: Listing, id: string)
    requires Listed(l)
    ensures id in l.order <==> id in l.operations
  {
  }

  lemma {:induction false} CreateKeepsInv(s: System, kind: Kind, source: string, skillId: string, now: string)
    requires Inv(s) && !Busy(s.listing, kind, source, skillId)
    ensures Inv(Next(s, Call(kind, source, skillId, now)))
  {
    hide OperationId, Linked, Overtaken, Trimmed, Added, SameWork, Newest, Busy;
    var g := Grown(s, kind, source, skillId, now);
    var t := Next(s, Call(kind, source, skillId, now));
    CreateTrims(s, kind, source, skillId, now);
    assert t == g.(listing := Trimmed(g.listing));
    GrownIsLinked(s, kind, source, skillId, now);
    OvertakenMore(Shown(s), Done(s), MAX_COMPLETED);
    TrimKeepsOvertaken(Shown(g), Done(g), MAX_COMPLETED);
    forall i | 0 <= i < |s.workers| && IsActive(s.workers[i].summary)
      ensures !Alike(s.workers[i].summary, g.workers[|s.workers|].summary)
    {
      ActiveIsBusy(s, i, kind, source, skillId);
    }
  }

  // Active operations are all listed, so a twin would have been found.
  lemma {:induction false} ActiveIsBusy(s: System, i: nat, kind: Kind, source: string, skillId: string)
    requires Inv(s) && i < |s.workers| && IsActive(s.workers[i].summary)
    ensures s.workers[i].summary.id in s.listing.operations
    ensures SameWork(s.workers[i].summary, kind, source, skillId) ==> Busy(s.listing, kind, source, skillId)
  {
    hide OperationId, Sound, Select, Count, SameWork;
    assert Shown(s)[i];
  }

  // ----- runs -----

  // The run leads from s to t.
  ghost predicate Leads(s: System, run: seq<Event>, t: System)
    decreases |run|
  {
    if run == [] then s == t else Enabled(s, run[0]) && Leads(Next(s, run[0]), run[1..], t)
  }

  lemma {:induction false} RunKeepsInv(s: System, run: seq<Event>, t: System)
    requires Inv(s) && Leads(s, run, t)
    ensures Inv(t)
    decreases |run|
  {
    hide Inv, Next, Enabled;
    if run != [] {
      StepKeepsInv(s, run[0]);
      RunKeepsInv(Next(s, run[0]), run[1..], t);
    }
  }

  // After every run of callers and workers the invariant holds.
  lemma {:induction false} ReachableInv(s: System, run: seq<Event>)
    requires Leads(START, run, s)
    ensures Inv(s)
  {
    hide Inv, Leads;
    StartInv();
    RunKeepsInv(START, run, s);
  }

  lemma {:induction false} StartInv()
    ensures Inv(START)
  {
    assert Ids(START) == [] && Shown(START) == [] && Done(START) == [];
  }

  // At most one operation runs, no two active ones do the same work, the list
  // names each operation it holds once, and it holds all the active ones.
  lemma {:induction false} Safety(s: System, run: seq<Event>, i: nat, j: nat)
    requires Leads(START, run, s) && i < |s.workers| && j < |s.workers|
    ensures s.workers[i].summary.status == Running && s.workers[j].summary.status == Running ==> i == j
    ensures var a, b := s.workers[i].summary, s.workers[j].summary;
            (&& a.status in {Queued, Running} && b.status in {Queued, Running} && a.kind == b.kind
             && a.skillId == b.skillId && (a.kind == Install ==> a.source == b.source)) ==> i == j
    ensures s.workers[i].summary.id == s.workers[j].summary.id ==> i == j
    ensures Distinct(s.listing.order) && forall id :: id in s.listing.order <==> id in s.listing.operations
    ensures IsActive(s.workers[i].summary) ==> s.workers[i].summary.id in s.listing.operations
    ensures s.workers[i].closes == if IsActive(s.workers[i].summary) then 0 else 1
  {
    hide OperationId, Select, Count, Leads, Overtaken;
    ReachableInv(s, run);
    assert InStep(s.workers[i]) && InStep(s.workers[j]);
    if s.workers[i].summary.id == s.workers[j].summary.id {
      IdsOfWorkers(s, i, j);
    }
    if IsActive(s.workers[i].summary) {
      var a := s.workers[i].summary;
      ActiveIsBusy(s, i, a.kind, a.source, a.skillId);
    }
    assert Alike(s.workers[i].summary, s.workers[j].summary) ==> Alike(s.workers[j].summary, s.workers[i].summary);
  }

  // Statuses only move forward, and what was asked for never changes.
  lemma {:induction false} StatusMoves(s: System, e: Event, i: nat)
    requires Inv(s) && Enabled(s, e) && i < |s.workers|
    ensures i < |Next(s, e).workers|
    ensures var a, b := s.workers[i].summary, Next(s, e).workers[i].summary;
            && (a.id, a.kind, a.source, a.skillId, a.enqueuedAt) == (b.id, b.kind, b.source, b.skillId, b.enqueuedAt)
            && (a != b ==> (a.status == Queued && b.status == Running && e.Mark?)
                           || (a.status == Running && (b.status == Succeeded || b.status == Failed) && e.Record?))
  {
    hide OperationId, Linked, Overtaken, OneHolder, NoTwins, Create, Busy, Update;
    assert InStep(s.workers[i]);
  }

  predicate RecordsFor(e: Event, i: nat) {
    e.Record? && e.worker == i
  }

  // The summary says how the command ended.
  predicate Tells(s: Summary, outcome: Outcome, now: string) {
    && s.status == (if outcome.error.None? then Succeeded else Failed)
    && s.error == (if outcome.error.None? then "" else outcome.error.value)
    && s.command == outcome.command && s.cwd == outcome.cwd && s.finishedAt == now
    && s.stdout == outcome.stdout && s.stderr == outcome.stderr
  }

  // An operation has ended if and only if its outcome was recorded, which
  // happens once, and from then on its summary says how its command ended.
  lemma {:induction false} OutcomeIsTold(s: System, run: seq<Event>, i: nat) returns (k: nat)
    requires Leads(START, run, s) && i < |s.workers|
    ensures var ended := s.workers[i].summary.status in {Succeeded, Failed};
            && (ended <==> k < |run| && RecordsFor(run[k], i))
            && (ended ==> Tells(s.workers[i].summary, run[k].outcome, run[k].now))
            && (ended <==> s.workers[i].closes == 1)
    ensures forall j: nat :: j < |run| && RecordsFor(run[j], i) ==> j == k
  {
    hide Inv, Leads, Tells, RecordsFor;
    StartInv();
    k := OutcomeFrom(START, run, s, i);
    ReachableInv(s, run);
    InvParts(s);
    assert InStep(s.workers[i]);
  }

  lemma {:induction false} OutcomeFrom(s: System, run: seq<Event>, t: System, i: nat) returns (k: nat)
    requires Inv(s) && Leads(s, run, t) && i < |t.workers|
    requires i < |s.workers| ==> s.workers[i].closes == 0
    ensures var ended := t.workers[i].closes > 0;
            && (ended <==> k < |run| && RecordsFor(run[k], i))
            && (ended ==> Tells(t.workers[i].summary, run[k].outcome, run[k].now))
    ensures forall j: nat :: j < |run| && RecordsFor(run[j], i) ==> j == k
    decreases |run|
  {
    hide Inv, Next, Enabled, Tells;
    k := 0;
    if run != [] {
      var u, rest := Next(s, run[0]), run[1..];
      StepKeepsInv(s, run[0]);
      StepTells(s, run[0], i);
      if RecordsFor(run[0], i) {
        RecordedIsFinal(u, rest, t, i);
        NoMoreRecords(u, rest, t, i);
        assert forall j: nat :: 0 < j < |run| ==> run[j] == rest[j - 1];
      } else {
        k := OutcomeFrom(u, rest, t, i);
        k := k + 1;
        assert forall j: nat :: 0 < j < |run| ==> run[j] == rest[j - 1];
      }
    }
  }

  lemma {:induction false} StepTells(s: System, e: Event, i: nat)
    requires Inv(s) && Enabled(s, e)
    requires i < |s.workers| ==> s.workers[i].closes == 0
    ensures var u := Next(s, e);
            if RecordsFor(e, i)
            then i < |u.workers| && u.workers[i].closes > 0 && Tells(u.workers[i].summary, e.outcome, e.now)
            else i < |u.workers| ==> u.workers[i].closes == 0
  {
    hide Linked, Overtaken, OneHolder, NoTwins, Create, Busy, Update, OperationId;
    assert i < |s.workers| ==> InStep(s.workers[i]);
  }

  lemma {:induction false} NoMoreRecords(s: System, run: seq<Event>, t: System, i: nat)
    requires Inv(s) && Leads(s, run, t) && i < |s.workers| && s.workers[i].closes > 0
    ensures forall j: nat :: j < |run| ==> !RecordsFor(run[j], i)
    decreases |run|
  {
    hide Inv, Next, Create, Busy, Update;
    if run != [] {
      InvParts(s);
      assert InStep(s.workers[i]);
      StepKeepsInv(s, run[0]);
      EndedStays(s, run[0], i);
      NoMoreRecords(Next(s, run[0]), run[1..], t, i);
      assert forall j: nat :: 0 < j < |run| ==> run[j] == run[1..][j - 1];
    }
  }

  // A call that asks for what an active operation already does.
  predicate Joins(e: Event, a: Summary)
    requires e.Call?
  {
    && a.status in {Queued, Running} && a.kind == e.kind && a.skillId == e.skillId
    && (e.kind == Install ==> a.source == e.source)
  }

  // A call makes nothing new if and only if an operation on the same work is
  // active; otherwise it makes one, queued, with what was asked for.
  lemma {:induction false} CallsJoin(s: System, run: seq<Event>, e: Event)
    requires Leads(START, run, s) && e.Call?
    ensures (exists i: nat :: i < |s.workers| && Joins(e, s.workers[i].summary)) ==> Next(s, e) == s
    ensures !(exists i: nat :: i < |s.workers| && Joins(e, s.workers[i].summary)) ==>
              var n, workers := |s.workers|, Next(s, e).workers;
              && |workers| == n + 1 && workers[..n] == s.workers && Joins(e, workers[n].summary)
              && workers[n].summary.status == Queued && workers[n].summary.source == e.source
              && workers[n].summary.enqueuedAt == e.now && workers[n].summary.command == []
              && workers[n].summary.error == workers[n].summary.stdout == workers[n].summary.stderr == ""
              && workers[n].summary.cwd == workers[n].summary.startedAt == workers[n].summary.finishedAt == ""
  {
    hide Inv, Leads, Create, OperationId;
    ReachableInv(s, run);
    if Busy(s.listing, e.kind, e.source, e.skillId) {
      var id :| id in s.listing.operations && SameWork(s.listing.operations[id], e.kind, e.source, e.skillId)
                && IsActive(s.listing.operations[id]);
      var i := WorkerOf(s, id);
      assert Joins(e, s.workers[i].summary);
    } else {
      forall i: nat | i < |s.workers| && IsActive(s.workers[i].summary)
        ensures !SameWork(s.workers[i].summary, e.kind, e.source, e.skillId)
      {
        ActiveIsBusy(s, i, e.kind, e.source, e.skillId);
      }
    }
  }

  lemma {:induction false} WorkerOf(s: System, id: string) returns (i: nat)
    requires Inv(s) && id in s.listing.operations
    ensures i < |s.workers| && s.listing.operations[id] == s.workers[i].summary
  {
    hide OperationId, Select, Overtaken, AllInStep, OneHolder, NoTwins;
    SelectMember(Ids(s), Shown(s), |s.workers|, id);
    ListedIsOrder(s.listing, id);
    i :| i < |s.workers| && Shown(s)[i] && Ids(s)[i] == id;
  }

  // Whoever waits for an operation reads, however late, what was recorded when
  // it ended: nothing that happens afterwards changes it.
  lemma {:induction false} RecordedIsFinal(s: System, run: seq<Event>, t: System, i: nat)
    requires Inv(s) && Leads(s, run, t) && i < |s.workers| && s.workers[i].closes > 0
    ensures i < |t.workers| && t.workers[i].summary == s.workers[i].summary && t.workers[i].closes == 1
    decreases |run|
  {
    hide Inv, Next, Enabled, IsActive;
    InvParts(s);
    assert InStep(s.workers[i]);
    if run != [] {
      var u := Next(s, run[0]);
      StepKeepsInv(s, run[0]);
      InvParts(u);
      EndedStays(s, run[0], i);
      RecordedIsFinal(u, run[1..], t, i);
    }
  }

  lemma {:induction false} EndedStays(s: System, e: Event, i: nat)
    requires AllInStep(s) && Inv(s) && Enabled(s, e) && i < |s.workers| && s.workers[i].closes > 0
    ensures i < |Next(s, e).workers| && Next(s, e).workers[i].summary == s.workers[i].summary
    ensures Next(s, e).workers[i].closes > 0
  {
    hide Linked, Overtaken, OneHolder, NoTwins, Create, Busy, Update;
    assert InStep(s.workers[i]);
    StatusMoves(s, e, i);
  }

  // After each call that makes an operation, the list holds exactly the active
  // operations and the newest fifty of all those ever completed.
  lemma {:induction false} HistoryIsExact(s: System, run: seq<Event>, e: Event, i: nat)
    requires Leads(START, run, s) && e.Call? && !Busy(s.listing, e.kind, e.source, e.skillId)
    requires i < |Next(s, e).workers|
    ensures var t := Next(s, e);
            t.workers[i].summary.id in t.listing.operations
            <==> t.workers[i].summary.status in {Queued, Running} || Count(Done(t), i + 1) < 50
  {
    hide OperationId, Linked, Overtaken, Trimmed, Added, Newest, Leads, IsActive, OneHolder, NoTwins, AllInStep, Busy;
    ReachableInv(s, run);
    var g := Grown(s, e.kind, e.source, e.skillId, e.now);
    var t := Next(s, e);
    CreateTrims(s, e.kind, e.source, e.skillId, e.now);
    assert t == g.(listing := Trimmed(g.listing));
    GrownIsLinked(s, e.kind, e.source, e.skillId, e.now);
    OvertakenMore(Shown(s), Done(s), MAX_COMPLETED);
    NewestOfAll(Shown(g), Done(g), MAX_COMPLETED, i);
    ActiveIs(t.workers[i].summary);
  }

  lemma {:induction false} ActiveIs(s: Summary)
    ensures IsActive(s) <==> s.status in {Queued, Running}
  {
  }

  // ----- everything asked for is done -----

  function Remaining(phase: Phase): nat {
    match phase
    case Waiting => 4
    case Locked => 3
    case Working => 2
    case Recorded => 1
    case Gone => 0
  }

  function StepsLeft(workers: seq<Worker>): nat {
    if workers == [] then 0
    else StepsLeft(workers[..|workers| - 1]) + Remaining(workers[|workers| - 1].phase)
  }

  lemma {:induction false} StepsLeftOfOne(workers: seq<Worker>, w: nat, worker: Worker)
    requires w < |workers|
    ensures StepsLeft(workers[w := worker]) + Remaining(workers[w].phase) == StepsLeft(workers) + Remaining(worker.phase)
    decreases |workers|
  {
    var n := |workers| - 1;
    var changed := workers[w := worker];
    if w < n {
      assert changed[..n] == workers[..n][w := worker];
      StepsLeftOfOne(workers[..n], w, worker);
    } else {
      assert changed[..n] == workers[..n];
    }
  }

  // Unless every worker has gone, one of them can take a step, and each step
  // of a worker leaves one less to take.
  lemma {:induction false} WorkersProgress(s: System, e: Event)
    requires Inv(s) && Enabled(s, e) && !e.Call?
    ensures StepsLeft(Next(s, e).workers) == StepsLeft(s.workers) - 1
  {
    hide Inv, StepsLeft, Update;
    StepsLeftOfOne(s.workers, e.worker, Next(s, e).workers[e.worker]);
  }

  lemma {:induction false} SomeWorkerCanStep(s: System, i: nat, outcome: Outcome, now: string)
    requires i < |s.workers| && s.workers[i].phase != Gone
    ensures exists e: Event :: !e.Call? && Enabled(s, e)
  {
    if LockIsFree(s) {
      assert Enabled(s, Lock(i));
    } else {
      var w :| 0 <= w < |s.workers| && Holds(s.workers[w].phase);
      if s.workers[w].phase == Locked {
        assert Enabled(s, Mark(w, now));
      } else if s.workers[w].phase == Working {
        assert Enabled(s, Record(w, outcome, now));
      } else {
        assert Enabled(s, Unlock(w));
      }
    }
  }

  ghost predicate WorkersOnly(run: seq<Event>) {
    forall k :: 0 <= k < |run| ==> !run[k].Call?
  }

  // Left alone, the workers take as many steps as are left and then every
  // operation ever asked for has ended, with its channel closed once.
  lemma {:induction false} AllAreServed(s: System, run: seq<Event>, t: System)
    requires Inv(s) && WorkersOnly(run) && Leads(s, run, t)
    ensures |run| <= StepsLeft(s.workers)
    ensures |run| == StepsLeft(s.workers) ==>
              forall i :: 0 <= i < |t.workers| ==> !IsActive(t.workers[i].summary) && t.workers[i].closes == 1
    decreases |run|
  {
    hide Inv, Next, Enabled, StepsLeft, IsActive;
    if run == [] {
      InvParts(s);
      forall i | 0 <= i < |s.workers| && StepsLeft(s.workers) == 0
        ensures !IsActive(s.workers[i].summary) && s.workers[i].closes == 1
      {
        NoneLeft(s.workers, i);
        assert InStep(s.workers[i]);
      }
    } else {
      StepKeepsInv(s, run[0]);
      WorkersProgress(s, run[0]);
      AllAreServed(Next(s, run[0]), run[1..], t);
    }
  }

  lemma {:induction false} NoneLeft(workers: seq<Worker>, i: nat)
    requires i < |workers| && StepsLeft(workers) == 0
    ensures workers[i].phase == Gone
    decreases |workers|
  {
    if i < |workers| - 1 {
      NoneLeft(workers[..|workers| - 1], i);
    }
  }
}
