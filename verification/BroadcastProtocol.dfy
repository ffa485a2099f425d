// Every interleaving of schedulers and workers of the chat broadcaster.
//
// A system is the registry, the clock, the workers that have been started, and
// two counters per chat that the code does not keep: how often the chat was
// scheduled, and how many of those calls came before the last broadcast began.
module BroadcastProtocol {
  import opened WorkspaceRegistry

  type WorkerId = nat

  // Where a worker is: about to take the lock, waiting for its timer, or
  // sending the snapshot.
  datatype Phase = Checking | Sleeping(until: Time) | Sending
  datatype Worker = Worker(chat: ChatId, phase: Phase)
  datatype Stamp = Stamp(chat: ChatId, time: Time)

  datatype System = System(
    reg: Broadcasts,
    clock: Time,
    workers: map<WorkerId, Worker>,
    started: nat,
    scheduled: map<ChatId, nat>,
    covered: map<ChatId, nat>,
    stamps: seq<Stamp>
  )

  // One atomic step, at a time not before the last one.
  datatype Event =
    | Call(at: Time, chat: ChatId, status: Status)
    | TakeTurn(at: Time, worker: WorkerId, stamp: Time)
    | Wake(at: Time, worker: WorkerId)
    | Sent(at: Time, worker: WorkerId)

  function Count(m: map<ChatId, nat>, chat: ChatId): nat {
    if chat in m then m[chat] else 0
  }

  const START: System := System(Broadcasts(map[], {}, {}, map[]), 0, map[], 0, map[], map[], [])

  predicate Enabled(s: System, e: Event) {
    && s.clock <= e.at
    && match e
       case Call(_, _, _) => true
       case TakeTurn(at, w, stamp) => at <= stamp && w in s.workers && s.workers[w].phase.Checking?
       case Wake(at, w) => w in s.workers && s.workers[w].phase.Sleeping? && s.workers[w].phase.until <= at
       case Sent(_, w) => w in s.workers && s.workers[w].phase.Sending?
  }

  function Next(s: System, e: Event): System
    requires Enabled(s, e)
  {
    match e
    case Call(at, chat, status) =>
      var t := s.(reg := Schedule(s.reg, chat, status), clock := at,
                  scheduled := s.scheduled[chat := Count(s.scheduled, chat) + 1]);
      if chat in s.reg.running then t
      else t.(workers := s.workers[s.started := Worker(chat, Checking)], started := s.started + 1)
    case TakeTurn(at, w, stamp) =>
      var chat := s.workers[w].chat;
      var t := s.(reg := Turn(s.reg, chat, at, stamp));
      (match Decide(s.reg, chat, at)
       case Exit => t.(clock := at, workers := s.workers - {w})
       case Wait(until) => t.(clock := at, workers := s.workers[w := Worker(chat, Sleeping(until))])
       case Broadcast => t.(clock := stamp, workers := s.workers[w := Worker(chat, Sending)],
                            covered := s.covered[chat := Count(s.scheduled, chat)],
                            stamps := s.stamps + [Stamp(chat, stamp)]))
    case Wake(at, w) => s.(clock := at, workers := s.workers[w := s.workers[w].(phase := Checking)])
    case Sent(at, w) => s.(clock := at, workers := s.workers[w := s.workers[w].(phase := Checking)])
  }

  // ----- the invariant -----

  // The workers are exactly one per running chat.
  ghost predicate OneWorkerEach(s: System) {
    && (forall w :: w in s.workers ==> w < s.started && s.workers[w].chat in s.reg.running)
    && (forall v, w :: v in s.workers && w in s.workers && s.workers[v].chat == s.workers[w].chat ==> v == w)
    && (forall c :: c in s.reg.running ==> exists w :: w in s.workers && s.workers[w].chat == c)
  }

  // No update is lost: what is not pending is covered.
  ghost predicate NothingForgotten(s: System) {
    && s.reg.pending <= s.reg.running
    && (forall c :: c !in s.reg.pending ==> Count(s.covered, c) == Count(s.scheduled, c))
    && (forall c :: Count(s.covered, c) <= Count(s.scheduled, c))
  }

  // Stamps of one chat are at least the interval apart, and the registry
  // remembers the last one.
  ghost predicate Spaced(s: System) {
    && (forall i, j :: 0 <= i < j < |s.stamps| && s.stamps[i].chat == s.stamps[j].chat ==>
                         s.stamps[i].time + MIN_INTERVAL <= s.stamps[j].time)
    && (forall i :: 0 <= i < |s.stamps| ==>
                      s.stamps[i].chat in s.reg.last && s.stamps[i].time <= s.reg.last[s.stamps[i].chat])
    && (forall c :: c in s.reg.last ==> s.reg.last[c] <= s.clock)
  }

  // A sleeping worker has something to send, and wakes when it may.
  ghost predicate SleepsForAReason(s: System) {
    forall w :: w in s.workers && s.workers[w].phase.Sleeping? ==>
                  var c := s.workers[w].chat;
                  c in s.reg.pending && c in s.reg.last
                  && s.workers[w].phase.until == s.reg.last[c] + MIN_INTERVAL
  }

  ghost predicate Inv(s: System) {
    OneWorkerEach(s) && NothingForgotten(s) && Spaced(s) && SleepsForAReason(s)
  }

  lemma {:induction false} KeepsOneWorker(s: System, e: Event)
    requires OneWorkerEach(s) && Enabled(s, e)
    ensures OneWorkerEach(Next(s, e))
  {
    hide OneWorkerEach;
    match e
    case Call(_, chat, _) => CallKeepsOneWorker(s, Next(s, e), chat);
    case TakeTurn(at, w, stamp) =>
      if Decide(s.reg, s.workers[w].chat, at).Exit? {
        ExitKeepsOneWorker(s, Next(s, e), w);
      } else {
        MoveKeepsOneWorker(s, Next(s, e), w);
      }
    case Wake(_, w) => MoveKeepsOneWorker(s, Next(s, e), w);
    case Sent(_, w) => MoveKeepsOneWorker(s, Next(s, e), w);
  }

  lemma {:induction false} CallKeepsOneWorker(s: System, t: System, chat: ChatId)
    requires OneWorkerEach(s)
    requires t.reg.running == s.reg.running + {chat}
    requires if chat in s.reg.running then t.workers == s.workers && t.started == s.started
             else t.workers == s.workers[s.started := Worker(chat, Checking)] && t.started == s.started + 1
    ensures OneWorkerEach(t)
  {
    forall c | c in t.reg.running ensures exists w :: w in t.workers && t.workers[w].chat == c {
      if c in s.reg.running {
        var w :| w in s.workers && s.workers[w].chat == c;
        assert w in t.workers && t.workers[w].chat == c;
      } else {
        assert s.started in t.workers && t.workers[s.started].chat == c;
      }
    }
  }

  lemma {:induction false} ExitKeepsOneWorker(s: System, t: System, w: WorkerId)
    requires OneWorkerEach(s) && w in s.workers && t.started == s.started
    requires t.reg.running == s.reg.running - {s.workers[w].chat} && t.workers == s.workers - {w}
    ensures OneWorkerEach(t)
  {
    forall c | c in t.reg.running ensures exists v :: v in t.workers && t.workers[v].chat == c {
      var v :| v in s.workers && s.workers[v].chat == c;
      assert v in t.workers && t.workers[v].chat == c;
    }
  }

  lemma {:induction false} MoveKeepsOneWorker(s: System, t: System, w: WorkerId)
    requires OneWorkerEach(s) && w in s.workers && t.started == s.started && t.reg.running == s.reg.running
    requires exists phase :: t.workers == s.workers[w := Worker(s.workers[w].chat, phase)]
    ensures OneWorkerEach(t)
  {
    forall c | c in t.reg.running ensures exists v :: v in t.workers && t.workers[v].chat == c {
      var v :| v in s.workers && s.workers[v].chat == c;
      assert v in t.workers && t.workers[v].chat == c;
    }
  }

  lemma {:induction false} KeepsNothingForgotten(s: System, e: Event)
    requires Inv(s) && Enabled(s, e)
    ensures NothingForgotten(Next(s, e))
  {
    hide Spaced, SleepsForAReason, OneWorkerEach;
  }

  lemma {:induction false} KeepsSpaced(s: System, e: Event)
    requires Inv(s) && Enabled(s, e)
    ensures Spaced(Next(s, e))
  {
    hide NothingForgotten, SleepsForAReason, OneWorkerEach;
  }

  lemma {:induction false} KeepsSleepReason(s: System, e: Event)
    requires Inv(s) && Enabled(s, e)
    ensures SleepsForAReason(Next(s, e))
  {
    hide Spaced, NothingForgotten;
  }

  lemma {:induction false} StepKeepsInv(s: System, e: Event)
    requires Inv(s) && Enabled(s, e)
    ensures Inv(Next(s, e))
  {
    hide OneWorkerEach, NothingForgotten, Spaced, SleepsForAReason;
    KeepsOneWorker(s, e);
    KeepsNothingForgotten(s, e);
    KeepsSpaced(s, e);
    KeepsSleepReason(s, e);
  }

  // ----- runs -----

  predicate IsRun(s: System, events: seq<Event>)
    decreases |events|
  {
    events == [] || (Enabled(s, events[0]) && IsRun(Next(s, events[0]), events[1..]))
  }

  function After(s: System, events: seq<Event>): System
    requires IsRun(s, events)
    decreases |events|
  {
    if events == [] then s else After(Next(s, events[0]), events[1..])
  }

  ghost predicate Reachable(s: System) {
    exists events :: IsRun(START, events) && After(START, events) == s
  }

  lemma {:induction false} RunKeepsInv(s: System, events: seq<Event>)
    requires Inv(s) && IsRun(s, events)
    ensures Inv(After(s, events))
    decreases |events|
  {
    hide Inv, Next, Enabled;
    if events != [] {
      StepKeepsInv(s, events[0]);
      RunKeepsInv(Next(s, events[0]), events[1..]);
    }
  }

  lemma {:induction false} ReachableInv(s: System)
    requires Reachable(s)
    ensures Inv(s)
  {
    hide Next, Enabled;
    var events :| IsRun(START, events) && After(START, events) == s;
    assert Inv(START);
    RunKeepsInv(START, events);
  }

  // ----- what a maintainer relies on -----

  // In every reachable state: a pending chat has its worker, no chat has two
  // (so snapshots of one chat never overlap), and no two broadcasts of a chat
  // are stamped less than the interval apart.
  lemma {:induction false} Safety(s: System)
    requires Reachable(s)
    ensures s.reg.pending <= s.reg.running
    ensures forall c :: c in s.reg.running <==> exists w :: w in s.workers && s.workers[w].chat == c
    ensures forall v, w :: v in s.workers && w in s.workers && s.workers[v].chat == s.workers[w].chat ==> v == w
    ensures forall i, j :: 0 <= i < j < |s.stamps| && s.stamps[i].chat == s.stamps[j].chat ==>
                             s.stamps[i].time + 150 <= s.stamps[j].time
  {
    ReachableInv(s);
  }

  // When a worker exits, the last broadcast of its chat began after the last
  // call for it; and a system without workers owes nothing to any chat.
  lemma {:induction false} NoUpdateLost(s: System, e: Event)
    requires Reachable(s) && Enabled(s, e)
    ensures e.TakeTurn? && e.worker !in Next(s, e).workers ==>
              var c := s.workers[e.worker].chat;
              Count(s.covered, c) == Count(s.scheduled, c)
    ensures s.workers == map[] ==> forall c :: Count(s.covered, c) == Count(s.scheduled, c)
  {
    ReachableInv(s);
    if s.workers == map[] {
      assert forall c :: c !in s.reg.running;
    }
  }

  // ----- the sidebar -----

  // Event j is the last call for the chat.
  ghost predicate LastCall(events: seq<Event>, chat: ChatId, j: nat) {
    && j < |events| && events[j].Call? && events[j].chat == chat
    && forall k :: j < k < |events| && events[k].Call? ==> events[k].chat != chat
  }

  lemma {:induction false} RunSplits(s: System, events: seq<Event>, i: nat)
    requires IsRun(s, events) && i <= |events|
    ensures IsRun(s, events[..i]) && IsRun(After(s, events[..i]), events[i..])
    ensures After(s, events) == After(After(s, events[..i]), events[i..])
    decreases i
  {
    hide Enabled, Next;
    if i == 0 {
      assert events[..0] == [] && events[0..] == events;
    } else {
      RunSplits(Next(s, events[0]), events[1..], i - 1);
      assert events[..i][1..] == events[1..][..i - 1] && events[i..] == events[1..][i - 1..];
    }
  }

  lemma {:induction false} OneEvent(s: System, e: Event)
    requires IsRun(s, [e])
    ensures Enabled(s, e) && After(s, [e]) == Next(s, e)
  {
    hide Enabled, Next;
    assert [e][1..] == [];
  }

  // The registry holds for each chat the status of its last call.
  lemma {:induction false} StatusesAreLastCalls(events: seq<Event>, chat: ChatId)
    requires IsRun(START, events)
    ensures var statuses := After(START, events).reg.statuses;
            && (chat in statuses <==> exists j: nat :: LastCall(events, chat, j))
            && (forall j: nat :: LastCall(events, chat, j) ==> chat in statuses && statuses[chat] == events[j].status)
    decreases |events|
  {
    hide IsRun, After, Enabled, Next, LastCall;
    if events == [] {
      NoCalls(chat);
    } else {
      var n := |events| - 1;
      RunSplits(START, events, n);
      assert events[n..] == [events[n]];
      var s := After(START, events[..n]);
      OneEvent(s, events[n]);
      StatusesAreLastCalls(events[..n], chat);
      StatusAfter(s, events[n], chat);
      assert events == events[..n] + [events[n]];
      if events[n].Call? && events[n].chat == chat {
        LastCallNow(events, chat);
        assert LastCall(events, chat, n);
      } else {
        forall j: nat
          ensures LastCall(events, chat, j) <==> LastCall(events[..n], chat, j)
          ensures LastCall(events, chat, j) ==> j < n && events[..n][j] == events[j]
        {
          LastCallBefore(events, chat, j);
        }
      }
    }
  }

  lemma {:induction false} NoCalls(chat: ChatId)
    ensures IsRun(START, []) && After(START, []).reg.statuses == map[]
    ensures forall j: nat :: !LastCall([], chat, j)
  {
  }

  lemma {:induction false} StatusAfter(s: System, e: Event, chat: ChatId)
    requires Enabled(s, e)
    ensures var before, after := s.reg.statuses, Next(s, e).reg.statuses;
            if e.Call? && e.chat == chat then chat in after && after[chat] == e.status
            else (chat in after <==> chat in before) && (chat in before ==> after[chat] == before[chat])
  {
  }

  lemma {:induction false} LastCallNow(events: seq<Event>, chat: ChatId)
    requires events != [] && events[|events| - 1].Call? && events[|events| - 1].chat == chat
    ensures forall j: nat :: LastCall(events, chat, j) <==> j == |events| - 1
  {
  }

  lemma {:induction false} LastCallBefore(events: seq<Event>, chat: ChatId, j: nat)
    requires events != [] && !(events[|events| - 1].Call? && events[|events| - 1].chat == chat)
    ensures LastCall(events, chat, j) <==> LastCall(events[..|events| - 1], chat, j)
    ensures LastCall(events, chat, j) ==> j < |events| - 1
  {
    var front := events[..|events| - 1];
    assert forall k :: 0 <= k < |front| ==> front[k] == events[k];
  }

  // In every run a call asks for a refresh of the sidebar unless the call for
  // the same chat before it had the same status.
  lemma {:induction false} RefreshAsked(events: seq<Event>, i: nat)
    requires IsRun(START, events) && i < |events| && events[i].Call?
    ensures IsRun(START, events[..i])
    ensures AsksRefresh(After(START, events[..i]).reg, events[i].chat, events[i].status) <==>
              !exists j: nat :: LastCall(events[..i], events[i].chat, j) && events[..i][j].status == events[i].status
  {
    hide IsRun, After, LastCall;
    RunSplits(START, events, i);
    StatusesAreLastCalls(events[..i], events[i].chat);
  }

  // ----- progress -----

  predicate Ready(s: System, c: ChatId) {
    c !in s.reg.last || s.reg.last[c] + MIN_INTERVAL <= s.clock
  }

  // How many more steps of its own a worker has before it can exit, if its
  // chat is not scheduled again.
  function StepsLeft(s: System, w: WorkerId): (n: nat)
    requires w in s.workers
    ensures 1 <= n <= 6
  {
    var c := s.workers[w].chat;
    match s.workers[w].phase
    case Checking => if c !in s.reg.pending then 1 else if Ready(s, c) then 3 else 5
    case Sleeping(_) => 4
    case Sending => if c !in s.reg.pending then 2 else 6
  }

  predicate Of(e: Event, w: WorkerId) {
    !e.Call? && e.worker == w
  }

  // A worker always has a step to take, once the clock allows it.
  lemma {:induction false} WorkerCanStep(s: System, w: WorkerId, at: Time)
    requires Inv(s) && w in s.workers && s.clock <= at
    requires s.workers[w].phase.Sleeping? ==> s.workers[w].phase.until <= at
    ensures exists e :: Of(e, w) && e.at == at && Enabled(s, e)
  {
    match s.workers[w].phase
    case Checking => assert Enabled(s, TakeTurn(at, w, at)) && Of(TakeTurn(at, w, at), w);
    case Sleeping(_) => assert Enabled(s, Wake(at, w)) && Of(Wake(at, w), w);
    case Sending => assert Enabled(s, Sent(at, w)) && Of(Sent(at, w), w);
  }

  // Its own steps bring it closer to the exit, the others' do not take it
  // further away unless they schedule its chat.
  lemma {:induction false} StepsLeftFall(s: System, e: Event, w: WorkerId)
    requires Inv(s) && Enabled(s, e) && w in s.workers
    requires e.Call? ==> e.chat != s.workers[w].chat
    ensures var t := Next(s, e);
            if w in t.workers then
              && t.workers[w].chat == s.workers[w].chat
              && StepsLeft(t, w) <= StepsLeft(s, w)
              && (Of(e, w) ==> StepsLeft(t, w) < StepsLeft(s, w))
            else Of(e, w)
  {
    hide NothingForgotten, Spaced;
    if Of(e, w) {
      hide OneWorkerEach;
      OwnStepFalls(s, e, w);
    } else {
      hide SleepsForAReason;
      OtherStepKeeps(s, e, w);
    }
  }

  lemma {:induction false} OwnStepFalls(s: System, e: Event, w: WorkerId)
    requires SleepsForAReason(s) && Enabled(s, e) && w in s.workers && Of(e, w)
    ensures var t := Next(s, e);
            w in t.workers ==> t.workers[w].chat == s.workers[w].chat && StepsLeft(t, w) < StepsLeft(s, w)
  {
  }

  lemma {:induction false} OtherStepKeeps(s: System, e: Event, w: WorkerId)
    requires OneWorkerEach(s) && Enabled(s, e) && w in s.workers && !Of(e, w)
    requires e.Call? ==> e.chat != s.workers[w].chat
    ensures var t := Next(s, e);
            w in t.workers && t.workers[w] == s.workers[w] && StepsLeft(t, w) <= StepsLeft(s, w)
  {
    hide StepsLeft;
    var t := Next(s, e);
    var c := s.workers[w].chat;
    assert t.workers[w] == s.workers[w];
    assert c in t.reg.pending <==> c in s.reg.pending;
    assert Ready(s, c) ==> Ready(t, c);
    SameStepsLeft(s, t, w);
  }

  lemma {:induction false} SameStepsLeft(s: System, t: System, w: WorkerId)
    requires w in s.workers && w in t.workers && t.workers[w] == s.workers[w]
    requires var c := s.workers[w].chat; (c in t.reg.pending <==> c in s.reg.pending) && (Ready(s, c) ==> Ready(t, c))
    ensures StepsLeft(t, w) <= StepsLeft(s, w)
  {
  }

  function OwnSteps(events: seq<Event>, w: WorkerId): nat {
    if events == [] then 0 else (if Of(events[0], w) then 1 else 0) + OwnSteps(events[1..], w)
  }

  // A chat that is not scheduled any more is served within six steps of its
  // worker: after them the worker is gone, and at some point of the run every
  // call was covered by a broadcast.
  lemma {:induction false} ServedWithinSixSteps(s: System, events: seq<Event>, w: WorkerId)
    requires Inv(s) && IsRun(s, events) && w in s.workers
    requires forall i :: 0 <= i < |events| && events[i].Call? ==> events[i].chat != s.workers[w].chat
    requires OwnSteps(events, w) >= StepsLeft(s, w)
    ensures var c, t := s.workers[w].chat, After(s, events);
            && w !in t.workers && c !in t.reg.running
            && Count(t.covered, c) == Count(t.scheduled, c) == Count(s.scheduled, c)
    decreases |events|
  {
    hide Inv, Next, Enabled, StepsLeft;
    assert events != [];
    var t := Next(s, events[0]);
    StepKeepsInv(s, events[0]);
    StepsLeftFall(s, events[0], w);
    ScheduledOnlyByCalls(s, events[0], s.workers[w].chat);
    if w in t.workers {
      ServedWithinSixSteps(t, events[1..], w);
    } else {
      ExitIsFinal(s, events[0], w);
      StaysServed(t, events[1..], w, s.workers[w].chat);
    }
  }

  lemma {:induction false} ScheduledOnlyByCalls(s: System, e: Event, c: ChatId)
    requires Enabled(s, e) && (e.Call? ==> e.chat != c)
    ensures Count(Next(s, e).scheduled, c) == Count(s.scheduled, c)
  {
  }

  lemma {:induction false} ExitIsFinal(s: System, e: Event, w: WorkerId)
    requires Inv(s) && Enabled(s, e) && w in s.workers && w !in Next(s, e).workers
    ensures var c, t := s.workers[w].chat, Next(s, e);
            && c !in t.reg.running && w < t.started
            && Count(t.covered, c) == Count(t.scheduled, c) == Count(s.scheduled, c)
  {
  }

  lemma {:induction false} StaysServed(s: System, events: seq<Event>, w: WorkerId, c: ChatId)
    requires Inv(s) && IsRun(s, events) && c !in s.reg.running && w !in s.workers && w < s.started
    requires forall i :: 0 <= i < |events| && events[i].Call? ==> events[i].chat != c
    ensures var t := After(s, events);
            && w !in t.workers && c !in t.reg.running
            && Count(t.covered, c) == Count(t.scheduled, c) == Count(s.scheduled, c)
    decreases |events|
  {
    hide Inv, Enabled;
    if events != [] {
      StepKeepsInv(s, events[0]);
      StaysServedOnce(s, events[0], w, c);
      StaysServed(Next(s, events[0]), events[1..], w, c);
    } else {
      NotRunningIsCovered(s, c);
    }
  }

  lemma {:induction false} StaysServedOnce(s: System, e: Event, w: WorkerId, c: ChatId)
    requires Inv(s) && Enabled(s, e) && c !in s.reg.running && w !in s.workers && w < s.started
    requires e.Call? ==> e.chat != c
    ensures var t := Next(s, e);
            && c !in t.reg.running && w !in t.workers && w < t.started
            && Count(t.scheduled, c) == Count(s.scheduled, c)
  {
    hide Spaced, SleepsForAReason, NothingForgotten, OneWorkerEach;
  }

  lemma {:induction false} NotRunningIsCovered(s: System, c: ChatId)
    requires Inv(s) && c !in s.reg.running
    ensures Count(s.covered, c) == Count(s.scheduled, c)
  {
    hide Spaced, SleepsForAReason, OneWorkerEach;
  }
}
