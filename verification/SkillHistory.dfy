// What trimming keeps, told by position: every operation ever made has a
// number, and flags say which are still listed and which are completed.
module SkillHistory {
  import opened SkillOperations

  type Flags = seq<bool>

  // How many flags are set from position `from` on.
  function Count(flags: Flags, from: nat): nat
    decreases |flags| - from
  {
    if from >= |flags| then 0 else (if flags[from] then 1 else 0) + Count(flags, from + 1)
  }

  function Both(a: Flags, b: Flags): (r: Flags)
    requires |a| == |b|
    ensures |r| == |a| && forall i :: 0 <= i < |r| ==> r[i] == (a[i] && b[i])
  {
    seq(|a|, i requires 0 <= i < |a| => a[i] && b[i])
  }

  // The ids among the first m whose flag is set, in order.
  function Select(ids: seq<string>, flags: Flags, m: nat): seq<string>
    requires |ids| == |flags| && m <= |ids|
  {
    if m == 0 then [] else Select(ids, flags, m - 1) + (if flags[m - 1] then [ids[m - 1]] else [])
  }

  // Listed, and active or among the newest `room` completed ones listed.
  function Newest(listed: Flags, done: Flags, room: nat): (r: Flags)
    requires |listed| == |done|
    ensures |r| == |listed|
    ensures forall i :: 0 <= i < |r| ==> r[i] == (listed[i] && (!done[i] || Count(Both(listed, done), i + 1) < room))
  {
    seq(|listed|, i requires 0 <= i < |listed| => listed[i] && (!done[i] || Count(Both(listed, done), i + 1) < room))
  }

  function Left(room: nat, used: nat): nat {
    if used <= room then room - used else 0
  }

  lemma {:induction false} CountIs(flags: Flags, from: nat)
    ensures Count(flags, from) == |set k: nat | from <= k < |flags| && flags[k]|
    decreases |flags| - from
  {
    if from < |flags| {
      CountIs(flags, from + 1);
    }
    OneMoreSet(flags, from, set k: nat | from <= k < |flags| && flags[k], set k: nat | from + 1 <= k < |flags| && flags[k]);
  }

  lemma {:induction false} OneMoreSet(flags: Flags, from: nat, here: set<nat>, later: set<nat>)
    requires here == set k: nat | from <= k < |flags| && flags[k]
    requires later == set k: nat | from + 1 <= k < |flags| && flags[k]
    ensures |here| == if from >= |flags| then 0 else (if flags[from] then 1 else 0) + |later|
  {
    assert here == if from < |flags| && flags[from] then later + {from} else later;
    assert from >= |flags| ==> here == {};
  }

  lemma {:induction false} SelectMember(ids: seq<string>, flags: Flags, m: nat, id: string)
    requires |ids| == |flags| && m <= |ids|
    ensures id in Select(ids, flags, m) <==> exists k :: 0 <= k < m && flags[k] && ids[k] == id
  {
    if m > 0 {
      SelectMember(ids, flags, m - 1, id);
    }
  }

  // Walking the order from its end keeps exactly the newest completed ones.
  lemma {:induction false} KeepIsNewest(ids: seq<string>, listed: Flags, done: Flags, ops: Operations, m: nat, room: nat)
    requires |ids| == |listed| == |done| && m <= |ids|
    requires forall k :: 0 <= k < |ids| && listed[k] ==> (Completed(ops, ids[k]) <==> done[k])
    ensures Keep(Select(ids, listed, m), ops, Left(room, Count(Both(listed, done), m)))
            == Select(ids, Newest(listed, done, room), m)
  {
    hide Completed, Keep, Select, Count;
    if m == 0 {
      SelectNone(ids, listed);
      SelectNone(ids, Newest(listed, done, room));
      KeepNothing(ops, Left(room, Count(Both(listed, done), m)));
    } else {
      var k := m - 1;
      var both, newest := Both(listed, done), Newest(listed, done, room);
      KeepIsNewest(ids, listed, done, ops, k, room);
      CountNext(both, k);
      SelectNext(ids, listed, k);
      SelectNext(ids, newest, k);
      if listed[k] {
        KeepNext(Select(ids, listed, k), ids[k], ops, Left(room, Count(both, m)));
      }
    }
  }

  lemma {:induction false} SelectNone(ids: seq<string>, flags: Flags)
    requires |ids| == |flags|
    ensures Select(ids, flags, 0) == []
  {
  }

  lemma {:induction false} SelectNext(ids: seq<string>, flags: Flags, k: nat)
    requires |ids| == |flags| && k < |ids|
    ensures Select(ids, flags, k + 1) == if flags[k] then Select(ids, flags, k) + [ids[k]] else Select(ids, flags, k)
  {
    var before := Select(ids, flags, k);
    assert before + [] == before;
  }

  lemma {:induction false} CountNext(flags: Flags, k: nat)
    requires k < |flags|
    ensures Count(flags, k) == (if flags[k] then 1 else 0) + Count(flags, k + 1)
  {
  }

  lemma {:induction false} KeepNext(older: seq<string>, last: string, ops: Operations, room: nat)
    ensures Keep(older + [last], ops, room) ==
              if !Completed(ops, last) then Keep(older, ops, room) + [last]
              else if room > 0 then Keep(older, ops, room - 1) + [last]
              else Keep(older, ops, 0)
  {
    hide Completed;
    var order := older + [last];
    assert order[..|order| - 1] == older && order[|order| - 1] == last;
  }

  lemma {:induction false} CountPast(flags: Flags)
    ensures Count(flags, |flags|) == 0
  {
  }

  // Every order is the selection of itself, so trimming any list keeps an
  // operation exactly if it is not completed or has fewer than fifty completed
  // ones after it.
  lemma {:induction false} TrimIsExact(l: Listing, done: Flags)
    requires Listed(l) && |done| == |l.order|
    requires forall k :: 0 <= k < |done| ==> done[k] == Completed(l.operations, l.order[k])
    ensures var kept := seq(|done|, k requires 0 <= k < |done| => !done[k] || Count(done, k + 1) < MAX_COMPLETED);
            && Trimmed(l).order == Select(l.order, kept, |done|)
            && forall k :: 0 <= k < |done| ==> (l.order[k] in Trimmed(l).operations <==> kept[k])
  {
    hide Completed, Keep, Count, Select, Both;
    var all := seq(|done|, k => true);
    var kept := seq(|done|, k requires 0 <= k < |done| => !done[k] || Count(done, k + 1) < MAX_COMPLETED);
    SelectAll(l.order, all, |done|);
    Whole(l.order);
    KeepIsNewest(l.order, all, done, l.operations, |done|, MAX_COMPLETED);
    assert Both(all, done) == done;
    CountPast(done);
    assert Newest(all, done, MAX_COMPLETED) == kept;
    forall k | 0 <= k < |done| ensures l.order[k] in Trimmed(l).operations <==> kept[k] {
      SelectMember(l.order, kept, |done|, l.order[k]);
      assert l.order[k] in l.order;
    }
  }

  lemma {:induction false} Whole(order: seq<string>)
    ensures order[..|order|] == order
  {
  }

  lemma {:induction false} SelectAll(ids: seq<string>, flags: Flags, m: nat)
    requires |ids| == |flags| && m <= |ids| && forall k :: 0 <= k < |flags| ==> flags[k]
    ensures Select(ids, flags, m) == ids[..m]
  {
    if m > 0 {
      SelectAll(ids, flags, m - 1);
      assert ids[..m] == ids[..m - 1] + [ids[m - 1]];
    }
  }

  // ----- when completed ones leave the list only for enough newer ones -----

  // What is not listed is completed, and `room` newer listed ones are too.
  ghost predicate Overtaken(listed: Flags, done: Flags, room: nat)
    requires |listed| == |done|
  {
    forall i :: 0 <= i < |listed| && !listed[i] ==> done[i] && Count(Both(listed, done), i + 1) >= room
  }

  lemma {:induction false} CountAntitone(flags: Flags, i: nat, j: nat)
    requires i <= j
    ensures Count(flags, i) >= Count(flags, j)
    decreases j - i
  {
    if i < j {
      CountAntitone(flags, i + 1, j);
    }
  }

  lemma {:induction false} CountMonotone(a: Flags, b: Flags, from: nat)
    requires |a| == |b| && forall i :: 0 <= i < |a| && a[i] ==> b[i]
    ensures Count(a, from) <= Count(b, from)
    decreases |a| - from
  {
    if from < |a| {
      CountMonotone(a, b, from + 1);
    }
  }

  lemma {:induction false} OvertakenAt(listed: Flags, done: Flags, room: nat, i: nat)
    requires |listed| == |done| && Overtaken(listed, done, room) && i < |listed|
    ensures !listed[i] ==> done[i] && Count(Both(listed, done), i + 1) >= room
  {
    hide Count, Both;
  }

  // Below the room, the listed completed ones are all the completed ones.
  lemma {:induction false} NothingMissing(listed: Flags, done: Flags, room: nat, from: nat)
    requires |listed| == |done| && Overtaken(listed, done, room)
    requires Count(Both(listed, done), from) < room
    ensures Count(Both(listed, done), from) == Count(done, from)
    decreases |listed| - from
  {
    hide Overtaken;
    if from < |listed| {
      CountAntitone(Both(listed, done), from, from + 1);
      NothingMissing(listed, done, room, from + 1);
      OvertakenAt(listed, done, room, from);
    }
  }

  // So the newest listed ones are the newest of all.
  lemma {:induction false} NewestOfAll(listed: Flags, done: Flags, room: nat, i: nat)
    requires |listed| == |done| && Overtaken(listed, done, room) && i < |listed| && room > 0
    ensures Newest(listed, done, room)[i] <==> !done[i] || Count(done, i + 1) < room
  {
    hide Count, Overtaken;
    CountMonotone(Both(listed, done), done, i + 1);
    if Count(Both(listed, done), i + 1) < room {
      NothingMissing(listed, done, room, i + 1);
    }
    OvertakenAt(listed, done, room, i);
  }

  // Trimming again leaves as many completed ones as there are, up to the room.
  lemma {:induction false} NewestCount(listed: Flags, done: Flags, room: nat, from: nat)
    requires |listed| == |done|
    ensures var n := Count(Both(listed, done), from);
            Count(Both(Newest(listed, done, room), done), from) == if n <= room then n else room
    decreases |listed| - from
  {
    if from < |listed| {
      NewestCount(listed, done, room, from + 1);
    }
  }

  lemma {:induction false} TrimKeepsOvertaken(listed: Flags, done: Flags, room: nat)
    requires |listed| == |done| && Overtaken(listed, done, room) && room > 0
    ensures Overtaken(Newest(listed, done, room), done, room)
  {
    hide Count, Overtaken;
    forall i | 0 <= i < |listed| && !Newest(listed, done, room)[i]
      ensures done[i] && Count(Both(Newest(listed, done, room), done), i + 1) >= room
    {
      NewestCount(listed, done, room, i + 1);
      OvertakenAt(listed, done, room, i);
    }
    OvertakenIf(Newest(listed, done, room), done, room);
  }

  lemma {:induction false} OvertakenIf(listed: Flags, done: Flags, room: nat)
    requires |listed| == |done|
    requires forall i :: 0 <= i < |listed| && !listed[i] ==> done[i] && Count(Both(listed, done), i + 1) >= room
    ensures Overtaken(listed, done, room)
  {
    hide Count, Both;
  }
}
