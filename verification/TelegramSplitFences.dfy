// Code fences across cuts: what is closed, what is reopened, and why the room
// left for a marker is always enough.
module TelegramSplitFences {
  import opened Text
  import opened TelegramFence
  import opened TelegramSplit
  import opened TelegramSplitStep

  // ----- white space does not matter to fences -----

  lemma {:induction false} TrimIgnoresMargin(line: string, space: string)
    requires AllSpace(space)
    ensures Trim(line + space) == Trim(line) && Trim(space + line) == Trim(line)
  {
    hide TrimLeft, TrimRight, Trim, Clean;
    TrimParts(line);
    var p, t, q :| line == p + t + q && AllSpace(p) && AllSpace(q) && t == Trim(line) && (t == "" ==> q == "");
    TrimAfter(line, p, t, q, space);
    TrimBefore(line, p, t, q, space);
  }

  lemma {:induction false} TrimAfter(line: string, p: string, t: string, q: string, space: string)
    requires line == p + t + q && AllSpace(p) && AllSpace(q) && AllSpace(space)
    requires (t == "" ==> q == "") && (t == "" || Clean(t))
    ensures Trim(line + space) == t
  {
    hide TrimLeft, TrimRight, Trim, Clean;
    if t == "" {
      assert line + space == (p + space) + "" + "";
      TrimIs(line + space, p + space, "", "");
    } else {
      assert line + space == p + t + (q + space);
      TrimIs(line + space, p, t, q + space);
    }
  }

  lemma {:induction false} TrimBefore(line: string, p: string, t: string, q: string, space: string)
    requires line == p + t + q && AllSpace(p) && AllSpace(q) && AllSpace(space)
    requires (t == "" ==> q == "") && (t == "" || Clean(t))
    ensures Trim(space + line) == t
  {
    hide TrimLeft, TrimRight, Trim, Clean;
    assert space + line == (space + p) + t + q;
    TrimIs(space + line, space + p, t, q);
  }

  lemma {:induction false} TrimParts(line: string)
    ensures exists p, t, q :: line == p + t + q && AllSpace(p) && AllSpace(q) && t == Trim(line) && (t == "" ==> q == "")
  {
    hide TrimLeft, TrimRight;
    var left := TrimLeft(line);
    var t := Trim(line);
    var p, q := line[..|line| - |left|], left[|t|..];
    assert line == p + t + q;
    if t == "" {
      assert left[0..] == left;
      assert left == "";
    }
  }

  lemma {:induction false} FenceLineIgnoresMargin(line: string, space: string)
    requires AllSpace(space)
    ensures FenceLine(line + space) == FenceLine(line) && FenceLine(space + line) == FenceLine(line)
    ensures forall open :: FenceStep(open, line + space) == FenceStep(open, line)
    ensures forall open :: FenceStep(open, space + line) == FenceStep(open, line)
  {
    hide Trim, RunLength;
    TrimIgnoresMargin(line, space);
  }

  lemma {:induction false} BlankLines(open: Fence, lines: seq<string>)
    requires forall i :: 0 <= i < |lines| ==> AllSpace(lines[i])
    ensures FenceAfter(open, lines) == open
    decreases |lines|
  {
    hide Trim, RunLength, AllSpace;
    if lines != [] {
      assert lines[0] == lines[0] + "";
      BlankFence(lines[0]);
      BlankLines(open, lines[1..]);
    }
  }

  lemma {:induction false} BlankFence(line: string)
    requires AllSpace(line)
    ensures FenceLine(line) == NoFence && Trim(line) == ""
  {
    hide TrimLeft, TrimRight, Trim;
    assert line == line + "" + "";
    TrimIs(line, line, "", "");
  }

  lemma {:induction false} LinesOfSpace(space: string)
    requires AllSpace(space)
    ensures forall i :: 0 <= i < |Lines(space)| ==> AllSpace(Lines(space)[i])
  {
    if space != "" {
      assert forall i :: 0 <= i < |space[1..]| ==> space[1..][i] == space[i + 1];
      LinesOfSpace(space[1..]);
    }
  }

  lemma {:induction false} OpenFenceIgnoresTrail(s: string, space: string)
    requires AllSpace(space)
    ensures OpenFence(s + space) == OpenFence(s)
  {
    hide Lines, FenceStep, AllSpace;
    LinesAppend(s, space);
    LinesOfSpace(space);
    var ls, lp := Lines(s), Lines(space);
    var last := |ls| - 1;
    var all := RunOn(ls, lp);
    assert all == (ls[..last] + [ls[last] + lp[0]]) + lp[1..];
    FenceAfterConcat(NoFence, ls[..last] + [ls[last] + lp[0]], lp[1..]);
    FenceAfterLast(NoFence, ls[..last], ls[last] + lp[0]);
    FenceAfterLast(NoFence, ls[..last], ls[last]);
    assert ls == ls[..last] + [ls[last]];
    FenceLineIgnoresMargin(ls[last], lp[0]);
    BlankLines(OpenFence(s), lp[1..]);
  }

  lemma {:induction false} FenceIgnoresLead(open: Fence, space: string, s: string)
    requires AllSpace(space)
    ensures FenceAfter(open, Lines(space + s)) == FenceAfter(open, Lines(s))
  {
    hide Lines, FenceStep, AllSpace;
    LinesAppend(space, s);
    LinesOfSpace(space);
    var ls, lp := Lines(s), Lines(space);
    var last := |lp| - 1;
    Assoc(lp[..last], [lp[last] + ls[0]], ls[1..]);
    FenceAfterConcat(open, lp[..last], [lp[last] + ls[0]] + ls[1..]);
    BlankLines(open, lp[..last]);
    IndentedFirst(open, lp[last], ls);
  }

  lemma {:induction false} IndentedFirst(open: Fence, space: string, lines: seq<string>)
    requires |lines| > 0 && AllSpace(space)
    ensures FenceAfter(open, [space + lines[0]] + lines[1..]) == FenceAfter(open, lines)
  {
    hide *;
    FenceLineIgnoresMargin(lines[0], space);
    FenceAfterFirst(open, space + lines[0], lines[1..]);
    FenceAfterFirst(open, lines[0], lines[1..]);
    assert lines == [lines[0]] + lines[1..];
  }

  lemma {:induction false} FenceAfterFirst(open: Fence, line: string, lines: seq<string>)
    ensures FenceAfter(open, [line] + lines) == FenceAfter(FenceStep(open, line), lines)
  {
    hide FenceStep;
    assert ([line] + lines)[1..] == lines;
  }

  // ----- closing and reopening -----

  // A dressed chunk leaves no fence open.
  lemma {:induction false} ClosingCloses(body: string)
    ensures OpenFence(body + Closing(body)) == NoFence
  {
    hide Lines, FenceLine, Trim;
    var f := OpenFence(body);
    if f.Fence? {
      FenceCameFrom(NoFence, Lines(body));
      var l :| l in Lines(body) && FenceLine(l) == f;
      OpeningAndMarker(l);
      NoBreakInMarker(l);
      assert body + Closing(body) == body + "\n" + f.marker;
      LinesConcat(body, f.marker);
      LinesOfLine(f.marker);
      FenceAfterLast(NoFence, Lines(body), f.marker);
    } else {
      assert body + "" == body;
    }
  }

  lemma {:induction false} NoBreakInMarker(line: string)
    requires FenceLine(line).Fence?
    ensures '\n' !in FenceLine(line).marker
  {
    hide Trim;
    var f := FenceLine(line);
    assert forall i :: 0 <= i < |f.marker| ==> f.marker[i] == f.opening[0];
  }

  // The remainder opens with the fence that was open at the cut.
  lemma {:induction false} PrefixReopens(body: string, tail: string)
    requires FenceLine(FirstLine(Prefix(body))).NoFence? || OpenFence(body).Fence?
    requires Clean(body)
    ensures OpenFence(Prefix(body) + tail) == FenceAfter(OpenFence(body), Lines(tail))
  {
    hide *;
    var first, second := PrefixShape(body);
    TrimOfClean(body);
    OpenFenceIs(tail);
    var f := OpenFence(body);
    if f.Fence? {
      FenceReopens(body, first, tail);
    } else if TableHeader(body) == "" {
      assert Prefix(body) + tail == tail;
    } else {
      HeaderIsTwoLines(body, first, second);
      HeaderOpensNothing(Trim(first), Trim(second), tail);
    }
  }

  lemma {:induction false} FenceReopens(body: string, l: string, tail: string)
    requires l in Lines(body) && FenceLine(l).Fence?
    ensures OpenFence(FenceLine(l).opening + "\n" + tail) == FenceAfter(FenceLine(l), Lines(tail))
  {
    hide *;
    var opening := FenceLine(l).opening;
    OpenFenceIs(opening + "\n" + tail);
    OpeningIsOneLine(body, l);
    LinesConcat(opening, tail);
    FenceAfterFirst(NoFence, opening, Lines(tail));
    StepOpens(l);
  }

  lemma {:induction false} HeaderOpensNothing(a: string, b: string, tail: string)
    requires Lines(a) == [a] && Lines(b) == [b] && FenceLine(a).NoFence? && FenceLine(b).NoFence?
    ensures OpenFence(a + "\n" + b + "\n" + tail) == FenceAfter(NoFence, Lines(tail))
  {
    hide *;
    assert a + "\n" + b + "\n" + tail == a + "\n" + (b + "\n" + tail);
    OpenFenceIs(a + "\n" + (b + "\n" + tail));
    LinesConcat(a, b + "\n" + tail);
    LinesConcat(b, tail);
    FenceAfterFirst(NoFence, a, Lines(b + "\n" + tail));
    FenceAfterFirst(NoFence, b, Lines(tail));
    StepKeeps(a);
    StepKeeps(b);
  }

  function FirstLine(s: string): string {
    Lines(s)[0]
  }

  lemma {:induction false} OpenFenceIs(s: string)
    ensures OpenFence(s) == FenceAfter(NoFence, Lines(s))
  {
    hide Lines, FenceAfter;
  }

  lemma {:induction false} StepOpens(line: string)
    requires FenceLine(line).Fence?
    ensures FenceStep(NoFence, FenceLine(line).opening) == FenceLine(line)
  {
    hide FenceLine, Trim;
    OpeningAndMarker(line);
  }

  lemma {:induction false} StepKeeps(line: string)
    requires FenceLine(line).NoFence?
    ensures forall open :: FenceStep(open, line) == open
  {
    hide FenceLine, Trim;
  }

  lemma {:induction false} OpeningIsOneLine(body: string, l: string)
    requires l in Lines(body) && FenceLine(l).Fence?
    ensures Lines(FenceLine(l).opening) == [FenceLine(l).opening]
  {
    hide Lines, Trim;
    JoinLines(body);
    NoBreakTrim(l);
    LinesOfLine(Trim(l));
  }

  lemma {:induction false} NoBreakTrim(line: string)
    requires '\n' !in line
    ensures '\n' !in Trim(line)
  {
    hide Trim, AllSpace;
    TrimParts(line);
    var p, t, q :| line == p + t + q && AllSpace(p) && AllSpace(q) && t == Trim(line) && (t == "" ==> q == "");
    assert forall c :: c in t ==> c in line;
  }

  lemma {:induction false} HeaderIsTwoLines(body: string, a: string, b: string)
    requires a in Lines(body) && b in Lines(body) && TableDivider(b)
    requires Prefix(body) == Trim(a) + "\n" + Trim(b) + "\n"
    requires FenceLine(FirstLine(Prefix(body))).NoFence?
    ensures Lines(Trim(a)) == [Trim(a)] && Lines(Trim(b)) == [Trim(b)]
    ensures FenceLine(Trim(a)).NoFence? && FenceLine(Trim(b)).NoFence?
  {
    hide Lines, Trim, Prefix, FenceLine, TableDivider;
    JoinLines(body);
    NoBreakTrim(a);
    NoBreakTrim(b);
    LinesOfLine(Trim(a));
    LinesOfLine(Trim(b));
    assert Prefix(body) == Trim(a) + "\n" + (Trim(b) + "\n");
    LinesConcat(Trim(a), Trim(b) + "\n");
    DividerIsNoFence(b);
  }

  lemma {:induction false} TrimStartsVisible(line: string)
    ensures Trim(line) == "" || !IsSpace(Trim(line)[0])
  {
    hide Trim;
  }

  lemma {:induction false} DividerIsNoFence(line: string)
    requires TableDivider(line)
    ensures FenceLine(Trim(line)).NoFence?
  {
    hide Trim, FenceLine, TableDivider, IsSpace;
    TrimOfClean(Trim(line));
    DividerStarts(line);
    if FenceLine(Trim(line)).Fence? {
      FenceStarts(Trim(line));
    }
    TrimStartsVisible(line);
  }

  lemma {:induction false} DividerStarts(line: string)
    requires TableDivider(line)
    ensures var t := Trim(line); t == "" || t[0] == '|' || t[0] == '-' || t[0] == ':' || IsSpace(t[0])
  {
    hide Trim, IsSpace;
    assert Trim(line) == "" || DividerRune(Trim(line)[0]);
  }

  lemma {:induction false} FenceStarts(line: string)
    requires FenceLine(line).Fence?
    ensures var t := Trim(line); t != "" && (t[0] == '`' || t[0] == '~')
  {
    hide Trim, RunLength;
  }

  // A cut at a line break loses nothing of the fence state: the remainder
  // ends with the same fence open as the text it is the remainder of.
  lemma {:induction false} FenceStateKept(v: string, cut: int)
    requires Clean(v) && 0 < cut < |v| && v[cut - 1] == '\n'
    requires FenceLine(FirstLine(Prefix(Body(v, cut)))).NoFence? || OpenFence(Body(v, cut)).Fence?
    ensures OpenFence(Prefix(Body(v, cut)) + Tail(v, cut)) == OpenFence(v)
  {
    hide *;
    var body, tail := Body(v, cut), Tail(v, cut);
    CutParts(v, cut);
    PrefixReopens(body, tail);
    var front, back := v[..cut - 1], v[cut..];
    assert v == front + "\n" + back;
    LinesConcat(front, back);
    OpenFenceIs(v);
    OpenFenceIs(front);
    FenceAfterConcat(NoFence, Lines(front), Lines(back));
    FrontFence(v, cut);
    BackFence(v, cut, OpenFence(body));
  }

  lemma {:induction false} FrontFence(v: string, cut: int)
    requires 0 < cut < |v| && v[cut - 1] == '\n'
    ensures OpenFence(v[..cut - 1]) == OpenFence(Body(v, cut))
  {
    hide TrimRight, OpenFence, AllSpace;
    var body, front := Body(v, cut), v[..cut - 1];
    assert |body| <= cut - 1 by {
      assert body == "" || !IsSpace(body[|body| - 1]);
    }
    SliceOfSpace(v[..cut], |body|, cut - 1);
    assert front == body + v[..cut][|body|..cut - 1];
    OpenFenceIgnoresTrail(body, v[..cut][|body|..cut - 1]);
  }

  lemma {:induction false} BackFence(v: string, cut: int, open: Fence)
    requires 0 < cut < |v|
    ensures FenceAfter(open, Lines(v[cut..])) == FenceAfter(open, Lines(Tail(v, cut)))
  {
    hide TrimLeft, Lines, FenceAfter, AllSpace;
    var back, tail := v[cut..], Tail(v, cut);
    assert back == back[..|back| - |tail|] + tail;
    FenceIgnoresLead(open, back[..|back| - |tail|], tail);
  }

  lemma {:induction false} SliceOfSpace(s: string, from: nat, to: nat)
    requires from <= to <= |s| && AllSpace(s[from..])
    ensures AllSpace(s[from..to])
  {
    assert forall i :: 0 <= i < to - from ==> s[from..to][i] == s[from..][i];
  }
}
