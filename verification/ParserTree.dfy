// Which objects of a structured transcript are its messages: told by paths
// through the tree.
module ParserTree {
  import opened Options
  import opened ParserStream

  // Into an item of a list, or into the child under one of the eight keys.
  datatype Step = Item(at: nat) | Child(at: nat)

  type Path = seq<Step>

  // The path leads through lists, and through objects that are no messages
  // themselves, to an object that is the message m, in at most `room` steps.
  ghost predicate LeadsTo(extract: ObjectExtractor, value: Json, path: Path, room: int, m: Msg)
    decreases |path|
  {
    && |path| <= room
    && if path == [] then value.Object? && extract(value) == Some(m)
       else
         match path[0]
         case Item(i) => value.Array? && i < |value.items| && LeadsTo(extract, value.items[i], path[1..], room - 1, m)
         case Child(k) =>
           && value.Object? && extract(value).None?
           && k < 8 && KeyOf(k) in value.fields
           && LeadsTo(extract, value.fields[KeyOf(k)], path[1..], room - 1, m)
  }

  function KeyOf(k: nat): string
    requires k < 8
  {
    match k
    case 0 => "messages"
    case 1 => "history"
    case 2 => "turns"
    case 3 => "contents"
    case 4 => "conversation"
    case 5 => "entries"
    case 6 => "items"
    case 7 => "curatedHistory"
  }

  lemma {:induction false} KeysAre()
    ensures |CHILD_KEYS| == 8 && forall k :: 0 <= k < 8 ==> CHILD_KEYS[k] == KeyOf(k)
  {
  }

  // p is to the left of q.
  ghost predicate Before(p: Path, q: Path)
    decreases |p|
  {
    && p != [] && q != []
    && (p[0].at < q[0].at || (p[0] == q[0] && Before(p[1..], q[1..])))
  }

  ghost predicate Sorted(paths: seq<Path>) {
    forall i, j :: 0 <= i < j < |paths| ==> Before(paths[i], paths[j])
  }

  // The paths lead to the messages, one each, from left to right.
  ghost predicate Lead(extract: ObjectExtractor, value: Json, paths: seq<Path>, room: int, messages: seq<Msg>) {
    && |paths| == |messages|
    && (forall i :: 0 <= i < |paths| ==> LeadsTo(extract, value, paths[i], room, messages[i]))
    && Sorted(paths)
  }

  ghost predicate All(extract: ObjectExtractor, value: Json, paths: seq<Path>, room: int) {
    forall p: Path, m: Msg :: LeadsTo(extract, value, p, room, m) ==> p in paths
  }

  // The messages of a tree are exactly the message objects that a path of at
  // most eight steps leads to, from left to right.
  lemma {:induction false} TreeMessagesAre(extract: ObjectExtractor, value: Json)
    ensures exists paths :: Lead(extract, value, paths, 8, TreeMessages(extract, value, 0)) && All(extract, value, paths, 8)
  {
    hide Lead, All, TreeMessages;
    var paths := PathsOf(extract, value, 0);
  }

  lemma {:induction false} PathsOf(extract: ObjectExtractor, value: Json, depth: nat) returns (paths: seq<Path>)
    ensures Lead(extract, value, paths, 8 - depth, TreeMessages(extract, value, depth))
    ensures All(extract, value, paths, 8 - depth)
    decreases 2 * (9 - depth), 0
  {
    hide Lead, All, ListPaths, ListAll, ListMessages, Children;
    if depth > 8 {
      paths := [];
      NoRoom(extract, value, 8 - depth);
    } else {
      match value
      case Scalar =>
        paths := [];
        NothingIn(extract, value, 8 - depth);
      case Array(items) =>
        var steps := seq(|items|, i requires 0 <= i < |items| => Item(i));
        paths := PathsOfList(extract, items, steps, depth);
        OfArray(extract, value, steps, paths, 8 - depth, ListMessages(extract, items, depth));
      case Object(fields) =>
        match extract(value) {
          case Some(m) =>
            paths := [[]];
            ItIsAMessage(extract, value, 8 - depth, m);
          case None =>
            var steps := ChildSteps(fields, CHILD_KEYS, 0);
            assert CHILD_KEYS[0..] == CHILD_KEYS;
            paths := PathsOfList(extract, Children(fields, CHILD_KEYS), steps, depth);
            OfObject(extract, value, steps, paths, 8 - depth, ListMessages(extract, Children(fields, CHILD_KEYS), depth));
        }
    }
  }

  lemma {:induction false} NoRoom(extract: ObjectExtractor, value: Json, room: int)
    requires room < 0
    ensures Lead(extract, value, [], room, []) && All(extract, value, [], room)
  {
  }

  lemma {:induction false} NothingIn(extract: ObjectExtractor, value: Json, room: int)
    requires value.Scalar?
    ensures Lead(extract, value, [], room, []) && All(extract, value, [], room)
  {
  }

  lemma {:induction false} ItIsAMessage(extract: ObjectExtractor, value: Json, room: int, m: Msg)
    requires value.Object? && extract(value) == Some(m) && room >= 0
    ensures Lead(extract, value, [[]], room, [m]) && All(extract, value, [[]], room)
  {
    forall p: Path, n: Msg | LeadsTo(extract, value, p, room, n) ensures p in [[]] {
      assert p == [];
    }
  }

  // ----- lists of children, each under its step -----

  ghost predicate Ordered(steps: seq<Step>) {
    forall i, j :: 0 <= i < j < |steps| ==> steps[i].at < steps[j].at
  }

  // The paths lead to the messages through one of the children.
  ghost predicate ListPaths(extract: ObjectExtractor, items: seq<Json>, steps: seq<Step>, paths: seq<Path>, room: int,
                            messages: seq<Msg>) {
    && |paths| == |messages| && |steps| == |items|
    && (forall i :: 0 <= i < |paths| ==> Through(extract, items, steps, paths[i], room, messages[i]))
    && Sorted(paths)
  }

  ghost predicate Through(extract: ObjectExtractor, items: seq<Json>, steps: seq<Step>, path: Path, room: int, m: Msg)
    requires |steps| == |items|
  {
    path != [] && exists j :: 0 <= j < |items| && path[0] == steps[j] && LeadsTo(extract, items[j], path[1..], room, m)
  }

  ghost predicate ListAll(extract: ObjectExtractor, items: seq<Json>, steps: seq<Step>, paths: seq<Path>, room: int) {
    |steps| == |items| &&
    forall p: Path, m: Msg :: Through(extract, items, steps, p, room, m) ==> p in paths
  }

  lemma {:induction false} PathsOfList(extract: ObjectExtractor, items: seq<Json>, steps: seq<Step>, depth: nat)
    returns (paths: seq<Path>)
    requires depth <= 8 && |steps| == |items| && Ordered(steps)
    ensures ListPaths(extract, items, steps, paths, 7 - depth, ListMessages(extract, items, depth))
    ensures ListAll(extract, items, steps, paths, 7 - depth)
    decreases 2 * (9 - depth) - 1, |items|
  {
    hide Lead, All, ListPaths, ListAll, TreeMessages, ListMessages;
    ListNext(extract, items, depth);
    if items == [] {
      paths := [];
      EmptyList(extract, 7 - depth);
    } else {
      var first := PathsOf(extract, items[0], depth + 1);
      var rest := PathsOfList(extract, items[1..], steps[1..], depth);
      paths := Prefixed(steps[0], first) + rest;
      Together(extract, items, steps, first, rest, 7 - depth, TreeMessages(extract, items[0], depth + 1),
               ListMessages(extract, items[1..], depth));
    }
  }

  lemma {:induction false} EmptyList(extract: ObjectExtractor, room: int)
    ensures ListPaths(extract, [], [], [], room, []) && ListAll(extract, [], [], [], room)
  {
  }

  function Prefixed(step: Step, paths: seq<Path>): (r: seq<Path>)
    ensures |r| == |paths| && forall i :: 0 <= i < |r| ==> r[i] == [step] + paths[i]
  {
    seq(|paths|, i requires 0 <= i < |paths| => [step] + paths[i])
  }

  lemma {:induction false} Together(extract: ObjectExtractor, items: seq<Json>, steps: seq<Step>, first: seq<Path>,
                                    rest: seq<Path>, room: int, a: seq<Msg>, b: seq<Msg>)
    requires items != [] && |steps| == |items| && Ordered(steps)
    requires Lead(extract, items[0], first, room, a) && All(extract, items[0], first, room)
    requires ListPaths(extract, items[1..], steps[1..], rest, room, b) && ListAll(extract, items[1..], steps[1..], rest, room)
    ensures ListPaths(extract, items, steps, Prefixed(steps[0], first) + rest, room, a + b)
    ensures ListAll(extract, items, steps, Prefixed(steps[0], first) + rest, room)
  {
    hide LeadsTo, Through, Sorted, ListAll, All, Before;
    var front := Prefixed(steps[0], first);
    forall i | 0 <= i < |front + rest| ensures Through(extract, items, steps, (front + rest)[i], room, (a + b)[i]) {
      ThroughFirst(extract, items, steps, (front + rest)[i], room, (a + b)[i]);
      if i < |front| {
        assert front[i] == [steps[0]] + first[i] && front[i][1..] == first[i];
      }
    }
    FrontThenRest(extract, items, steps, front, first, rest, room, b);
    NoneLeftOut(extract, items, steps, first, rest, room);
  }

  lemma {:induction false} NoneLeftOut(extract: ObjectExtractor, items: seq<Json>, steps: seq<Step>, first: seq<Path>,
                                       rest: seq<Path>, room: int)
    requires items != [] && |steps| == |items| && All(extract, items[0], first, room)
    requires ListAll(extract, items[1..], steps[1..], rest, room)
    ensures ListAll(extract, items, steps, Prefixed(steps[0], first) + rest, room)
  {
    hide LeadsTo, Through;
    var front := Prefixed(steps[0], first);
    forall p: Path, m: Msg | Through(extract, items, steps, p, room, m) ensures p in front + rest {
      ThroughFirst(extract, items, steps, p, room, m);
      if p != [] && p[0] == steps[0] && LeadsTo(extract, items[0], p[1..], room, m) {
        var i :| 0 <= i < |first| && first[i] == p[1..];
        assert front[i] == p;
      }
    }
  }

  lemma {:induction false} ThroughFirst(extract: ObjectExtractor, items: seq<Json>, steps: seq<Step>, p: Path, room: int, m: Msg)
    requires items != [] && |steps| == |items|
    ensures Through(extract, items, steps, p, room, m) <==>
              (p != [] && p[0] == steps[0] && LeadsTo(extract, items[0], p[1..], room, m))
              || Through(extract, items[1..], steps[1..], p, room, m)
  {
    hide LeadsTo;
    if Through(extract, items[1..], steps[1..], p, room, m) {
      var j :| 0 <= j < |items[1..]| && p[0] == steps[1..][j] && LeadsTo(extract, items[1..][j], p[1..], room, m);
      assert p[0] == steps[j + 1] && LeadsTo(extract, items[j + 1], p[1..], room, m);
    }
    if Through(extract, items, steps, p, room, m) {
      var j :| 0 <= j < |items| && p[0] == steps[j] && LeadsTo(extract, items[j], p[1..], room, m);
      assert j > 0 ==> steps[1..][j - 1] == steps[j] && items[1..][j - 1] == items[j];
    }
  }

  lemma {:induction false} FrontThenRest(extract: ObjectExtractor, items: seq<Json>, steps: seq<Step>, front: seq<Path>,
                                         first: seq<Path>, rest: seq<Path>, room: int, b: seq<Msg>)
    requires items != [] && |steps| == |items| && Ordered(steps) && front == Prefixed(steps[0], first) && Sorted(first)
    requires ListPaths(extract, items[1..], steps[1..], rest, room, b)
    ensures Sorted(front + rest)
  {
    hide LeadsTo;
    var all := front + rest;
    forall i, j | 0 <= i < j < |all| ensures Before(all[i], all[j]) {
      if j < |front| {
        assert all[i][1..] == first[i] && all[j][1..] == first[j];
      } else if i < |front| {
        assert Through(extract, items[1..], steps[1..], rest[j - |front|], room, b[j - |front|]);
      }
    }
  }

  // ----- a list and an object as such lists -----

  lemma {:induction false} OfArray(extract: ObjectExtractor, value: Json, steps: seq<Step>, paths: seq<Path>, room: int,
                                   messages: seq<Msg>)
    requires value.Array? && |steps| == |value.items| && room >= 0
    requires forall i :: 0 <= i < |steps| ==> steps[i] == Item(i)
    requires ListPaths(extract, value.items, steps, paths, room - 1, messages)
    requires ListAll(extract, value.items, steps, paths, room - 1)
    ensures Lead(extract, value, paths, room, messages) && All(extract, value, paths, room)
  {
    hide Through;
    forall p: Path, m: Msg ensures LeadsTo(extract, value, p, room, m) <==> Through(extract, value.items, steps, p, room - 1, m) {
      ArraySteps(extract, value, steps, p, room, m);
    }
  }

  lemma {:induction false} ArraySteps(extract: ObjectExtractor, value: Json, steps: seq<Step>, p: Path, room: int, m: Msg)
    requires value.Array? && |steps| == |value.items| && forall i :: 0 <= i < |steps| ==> steps[i] == Item(i)
    ensures LeadsTo(extract, value, p, room, m) <==> Through(extract, value.items, steps, p, room - 1, m)
  {
    if p != [] && p[0].Item? && p[0].at < |steps| {
      assert steps[p[0].at] == p[0];
    }
  }

  lemma {:induction false} OfObject(extract: ObjectExtractor, value: Json, steps: seq<Step>, paths: seq<Path>, room: int,
                                    messages: seq<Msg>)
    requires value.Object? && extract(value).None? && room >= 0
    requires ChildrenAre(value.fields, CHILD_KEYS, steps, Children(value.fields, CHILD_KEYS))
    requires ListPaths(extract, Children(value.fields, CHILD_KEYS), steps, paths, room - 1, messages)
    requires ListAll(extract, Children(value.fields, CHILD_KEYS), steps, paths, room - 1)
    ensures Lead(extract, value, paths, room, messages) && All(extract, value, paths, room)
  {
    hide Through, Children, ChildrenAre, KeyOf;
    forall p: Path, m: Msg ensures LeadsTo(extract, value, p, room, m) <==>
                          Through(extract, Children(value.fields, CHILD_KEYS), steps, p, room - 1, m)
    {
      ObjectSteps(extract, value, steps, p, room, m);
    }
  }

  lemma {:induction false} ObjectSteps(extract: ObjectExtractor, value: Json, steps: seq<Step>, p: Path, room: int, m: Msg)
    requires value.Object? && extract(value).None?
    requires ChildrenAre(value.fields, CHILD_KEYS, steps, Children(value.fields, CHILD_KEYS))
    ensures LeadsTo(extract, value, p, room, m) <==>
              Through(extract, Children(value.fields, CHILD_KEYS), steps, p, room - 1, m)
  {
    hide Children, KeyOf;
    KeysAre();
    var children := Children(value.fields, CHILD_KEYS);
    if LeadsTo(extract, value, p, room, m) {
      var j :| 0 <= j < |steps| && steps[j] == p[0];
      assert children[j] == value.fields[CHILD_KEYS[p[0].at]];
    }
  }

  // The steps are those to the children there are, in the order of the keys.
  ghost predicate ChildrenAre(fields: map<string, Json>, keys: seq<string>, steps: seq<Step>, children: seq<Json>) {
    && |steps| == |children|
    && (forall i :: 0 <= i < |steps| ==> steps[i].Child? && steps[i].at < |keys| && keys[steps[i].at] in fields
                                         && children[i] == fields[keys[steps[i].at]])
    && (forall k :: 0 <= k < |keys| && keys[k] in fields ==> Child(k) in steps)
    && Ordered(steps)
  }

  lemma {:induction false} ChildSteps(fields: map<string, Json>, keys: seq<string>, from: nat) returns (steps: seq<Step>)
    requires from <= |keys|
    ensures |steps| == |Children(fields, keys[from..])|
    ensures forall i :: 0 <= i < |steps| ==>
              && steps[i].Child? && from <= steps[i].at < |keys| && keys[steps[i].at] in fields
              && Children(fields, keys[from..])[i] == fields[keys[steps[i].at]]
    ensures forall k :: from <= k < |keys| && keys[k] in fields ==> Child(k) in steps
    ensures Ordered(steps)
    ensures from == 0 ==> ChildrenAre(fields, keys, steps, Children(fields, keys))
    decreases |keys| - from
  {
    if from == |keys| {
      steps := [];
    } else {
      var rest := ChildSteps(fields, keys, from + 1);
      assert keys[from..][1..] == keys[from + 1..] && keys[from..][0] == keys[from];
      steps := (if keys[from] in fields then [Child(from)] else []) + rest;
    }
    assert from == 0 ==> keys[from..] == keys;
  }
}
