// When the splitting loop stops: it does for every text whose fence lines are
// at most 1748 runes and whose table lines are at most 873, and no larger
// bounds will do.
module TelegramSplitHalts {
  import opened Text
  import opened TelegramFence
  import opened TelegramSplit
  import opened TelegramSplitStep

  const MAX_FENCE_LINE: nat := 1748
  const MAX_PIPE_LINE: nat := 873

  predicate TripleAt(s: string, i: nat)
    requires i + 3 <= |s|
  {
    (s[i] == '`' || s[i] == '~') && s[i] == s[i + 1] == s[i + 2]
  }

  // The line holds three backticks or three tildes: a part of it may be a
  // fence line.
  predicate Ticked(line: string) {
    exists i: nat :: i + 3 <= |line| && TripleAt(line, i)
  }

  predicate WithinBounds(line: string, fence: nat, pipe: nat) {
    (Ticked(line) ==> |line| <= fence) && ('|' in line ==> |line| <= pipe)
  }

  predicate AllWithin(lines: seq<string>, fence: nat, pipe: nat) {
    forall i :: 0 <= i < |lines| ==> WithinBounds(lines[i], fence, pipe)
  }

  predicate BoundedLines(s: string, fence: nat, pipe: nat) {
    AllWithin(Lines(s), fence, pipe)
  }

  predicate Bounded(s: string) {
    BoundedLines(s, MAX_FENCE_LINE, MAX_PIPE_LINE)
  }

  // What is part of a line within bounds is within them.
  lemma {:induction false} PartWithinBounds(p: string, s: string, q: string, fence: nat, pipe: nat)
    requires WithinBounds(p + s + q, fence, pipe)
    ensures WithinBounds(s, fence, pipe)
  {
    var t := p + s + q;
    assert forall j :: 0 <= j < |s| ==> t[|p| + j] == s[j];
    if Ticked(s) {
      var i: nat :| i + 3 <= |s| && TripleAt(s, i);
      assert TripleAt(t, |p| + i);
    }
    if '|' in s {
      var i :| 0 <= i < |s| && s[i] == '|';
      assert t[|p| + i] == '|';
    }
  }

  // A part of a bounded text is bounded: a cut line is a part of a line.
  lemma {:induction false} BoundedParts(a: string, b: string, fence: nat, pipe: nat)
    requires BoundedLines(a + b, fence, pipe)
    ensures BoundedLines(a, fence, pipe) && BoundedLines(b, fence, pipe)
  {
    hide Lines, WithinBounds;
    LinesAppend(a, b);
    var la, lb := Lines(a), Lines(b);
    var all := RunOn(la, lb);
    var last := |la| - 1;
    assert all == Lines(a + b);
    forall i | 0 <= i < |la| ensures WithinBounds(la[i], fence, pipe) {
      if i == last {
        assert all[i] == "" + la[i] + lb[0];
        PartWithinBounds("", la[i], lb[0], fence, pipe);
      } else {
        assert all[i] == la[i];
      }
    }
    forall i | 0 <= i < |lb| ensures WithinBounds(lb[i], fence, pipe) {
      if i == 0 {
        assert all[last] == la[last] + lb[0] + "";
        PartWithinBounds(la[last], lb[0], "", fence, pipe);
      } else {
        assert all[last + i] == lb[i];
      }
    }
  }

  lemma {:induction false} TrimWithin(s: string)
    ensures exists p, q :: s == p + Trim(s) + q
    ensures |Trim(s)| <= |s|
  {
    hide TrimLeft, TrimRight;
    var left := TrimLeft(s);
    var p := s[..|s| - |left|];
    var q := left[|Trim(s)|..];
    assert s == p + Trim(s) + q;
  }

  lemma {:induction false} TrimmedLine(body: string, l: string, fence: nat, pipe: nat)
    requires BoundedLines(body, fence, pipe) && l in Lines(body)
    ensures WithinBounds(l, fence, pipe) && WithinBounds(Trim(l), fence, pipe)
    ensures '\n' !in Trim(l) && Lines(Trim(l)) == [Trim(l)] && |Trim(l)| <= |l|
  {
    hide Lines, Trim, WithinBounds;
    var i :| 0 <= i < |Lines(body)| && Lines(body)[i] == l;
    NoBreakInLine(body, i);
    NoBreakInTrim(l);
    LinesOfLine(Trim(l));
    TrimWithin(l);
    var p, q :| l == p + Trim(l) + q;
    PartWithinBounds(p, Trim(l), q, fence, pipe);
  }

  lemma {:induction false} FenceLineIsTicked(line: string)
    requires FenceLine(line).Fence?
    ensures Ticked(Trim(line)) && |FenceLine(line).marker| <= |FenceLine(line).opening|
    ensures FenceLine(line).opening == Trim(line)
  {
    hide Trim, RunLength;
    assert TripleAt(Trim(line), 0);
  }

  // What is put before the remainder is short, and its lines are within the
  // bounds too.
  lemma {:induction false} PrefixBounded(body: string, fence: nat, pipe: nat)
    requires Clean(body) && BoundedLines(body, fence, pipe)
    ensures |Prefix(body)| <= fence + 1 || |Prefix(body)| <= 2 * pipe + 2
    ensures Prefix(body) == "" || exists lines :: PrefixLines(body, lines, fence, pipe)
  {
    hide Lines, Trim, TrimRight, TableDivider, FenceLine, Ticked, OpenFence, TableHeader, Prefix, BoundedLines;
    var first, second := PrefixShape(body);
    TrimOfClean(body);
    if OpenFence(body).Fence? {
      FencePrefix(body, first, fence, pipe);
    } else if TableHeader(body) != "" {
      HeaderPrefix(body, first, second, fence, pipe);
    }
  }

  lemma {:induction false} FencePrefix(body: string, l: string, fence: nat, pipe: nat)
    requires BoundedLines(body, fence, pipe) && l in Lines(body)
    requires FenceLine(l).Fence? && Prefix(body) == FenceLine(l).opening + "\n"
    ensures |Prefix(body)| <= fence + 1 && PrefixLines(body, [Trim(l)], fence, pipe)
  {
    hide Lines, Trim, FenceLine, Ticked, Prefix, BoundedLines;
    FenceLineIsTicked(l);
    TrimmedLine(body, l, fence, pipe);
    assert Prefix(body)[..|Prefix(body)| - 1] == Trim(l);
  }

  lemma {:induction false} HeaderPrefix(body: string, a: string, b: string, fence: nat, pipe: nat)
    requires BoundedLines(body, fence, pipe) && a in Lines(body) && b in Lines(body) && '|' in a && '|' in b
    requires Prefix(body) == Trim(a) + "\n" + Trim(b) + "\n"
    ensures |Prefix(body)| <= 2 * pipe + 2 && PrefixLines(body, [Trim(a), Trim(b)], fence, pipe)
  {
    hide Lines, Trim, Ticked, Prefix, BoundedLines;
    TrimmedLine(body, a, fence, pipe);
    TrimmedLine(body, b, fence, pipe);
    LinesConcat(Trim(a), Trim(b));
    assert Prefix(body)[..|Prefix(body)| - 1] == Trim(a) + "\n" + Trim(b);
  }

  predicate PrefixLines(body: string, lines: seq<string>, fence: nat, pipe: nat) {
    && |Prefix(body)| > 0
    && Prefix(body)[|Prefix(body)| - 1] == '\n'
    && Lines(Prefix(body)[..|Prefix(body)| - 1]) == lines
    && AllWithin(lines, fence, pipe)
  }

  lemma {:induction false} NoBreakInLine(s: string, i: nat)
    requires i < |Lines(s)|
    ensures '\n' !in Lines(s)[i]
  {
    JoinLines(s);
    assert Lines(s)[i] in Lines(s);
  }

  lemma {:induction false} NoBreakInTrim(line: string)
    requires '\n' !in line
    ensures '\n' !in Trim(line)
  {
    hide Trim;
    TrimWithin(line);
    var p, q :| line == p + Trim(line) + q;
    assert forall c :: c in Trim(line) ==> c in line;
  }

  lemma {:induction false} PrefixKeepsBound(body: string, tail: string, fence: nat, pipe: nat)
    requires Clean(body) && BoundedLines(body, fence, pipe) && BoundedLines(tail, fence, pipe)
    ensures BoundedLines(Prefix(body) + tail, fence, pipe)
  {
    hide Lines, WithinBounds, Prefix;
    PrefixBounded(body, fence, pipe);
    var prefix := Prefix(body);
    if prefix == "" {
      assert prefix + tail == tail;
    } else {
      var lines :| PrefixLines(body, lines, fence, pipe);
      var front := prefix[..|prefix| - 1];
      assert prefix == front + "\n";
      assert prefix + tail == front + "\n" + tail;
      LinesConcat(front, tail);
    }
  }

  // Under the bounds a step makes the text shorter and keeps the bounds.
  lemma {:induction false} StepShrinks(v: string)
    requires Clean(v) && |v| > LIMIT && Bounded(v)
    ensures var rest := Step(v).rest; |rest| < |v| && Clean(rest) && Bounded(rest)
    ensures var cut := ChosenCut(v); |Prefix(Body(v, cut))| < LIMIT / 2 <= cut
  {
    hide BoundedLines, Step, Prefix, Closing, TrimLeft, TrimRight, Dressed, ChosenCut;
    var cut := ChosenCut(v);
    var body, gap, tail := Body(v, cut), Gap(v, cut), Tail(v, cut);
    StepShape(v);
    CutParts(v, cut);
    BoundedParts(body + gap, tail, MAX_FENCE_LINE, MAX_PIPE_LINE);
    BoundedParts(body, gap, MAX_FENCE_LINE, MAX_PIPE_LINE);
    PrefixBounded(body, MAX_FENCE_LINE, MAX_PIPE_LINE);
    PrefixKeepsBound(body, tail, MAX_FENCE_LINE, MAX_PIPE_LINE);
    CutIsDeep(v);
    PrefixClean(body, tail);
  }

  lemma {:induction false} PrefixClean(body: string, tail: string)
    requires Clean(tail)
    ensures Clean(Prefix(body) + tail)
  {
    hide Prefix, Trim, Lines, OpenFence, TableHeader, FenceLine, TableDivider, TrimRight;
    var first, second := PrefixShape(body);
    var prefix := Prefix(body);
    if OpenFence(body).NoFence? && TableHeader(body) != "" {
      TrimOfPipe(first);
      assert prefix[0] == Trim(first)[0];
    }
    assert (prefix + tail)[|prefix + tail| - 1] == tail[|tail| - 1];
    assert prefix != "" ==> (prefix + tail)[0] == prefix[0];
    assert prefix == "" ==> prefix + tail == tail;
  }

  lemma {:induction false} TrimOfPipe(line: string)
    requires '|' in line
    ensures Trim(line) != ""
  {
    hide Trim;
    if Trim(line) == "" {
      TrimIsBlank(line);
    }
  }

  lemma {:induction false} TrimIsBlank(line: string)
    requires Trim(line) == ""
    ensures AllSpace(line)
  {
    hide TrimLeft, TrimRight, IsSpace;
    var left := TrimLeft(line);
    var n := |line| - |left|;
    assert left[0..] == left;
    assert line == line[..n] + left;
    assert forall j :: 0 <= j < n ==> line[..n][j] == line[j];
  }

  // Room for the marker leaves every cut past the middle of the limit.
  lemma {:induction false} CutIsDeep(v: string)
    requires |v| > LIMIT && Bounded(v)
    ensures ChosenCut(v) >= LIMIT / 2
  {
    hide LastCut, OpenFence, BoundedLines;
    var front := v[..LIMIT];
    assert v == front + v[LIMIT..];
    BoundedParts(front, v[LIMIT..], MAX_FENCE_LINE, MAX_PIPE_LINE);
    MarkerBounded(front, MAX_FENCE_LINE, MAX_PIPE_LINE);
  }

  lemma {:induction false} MarkerBounded(text: string, fence: nat, pipe: nat)
    requires BoundedLines(text, fence, pipe)
    ensures OpenFence(text).Fence? ==> |OpenFence(text).marker| <= fence
  {
    hide FenceLine, Ticked, Lines, BoundedLines, Trim;
    var f := OpenFence(text);
    if f.Fence? {
      FenceCameFrom(NoFence, Lines(text));
      var l :| l in Lines(text) && FenceLine(l) == f;
      FenceLineIsTicked(l);
      TrimmedLine(text, l, fence, pipe);
    }
  }

  lemma {:induction false} BoundedHalts(v: string)
    requires Clean(v) && Bounded(v)
    ensures HaltsIn(v, |v|)
    decreases |v|
  {
    hide *;
    if |v| > LIMIT {
      var rest := Step(v).rest;
      StepShrinks(v);
      BoundedHalts(rest);
      MoreSteps(rest, |rest|, |v| - 1);
    }
    HaltsUnfold(v, |v|);
  }

  lemma {:induction false} HaltsUnfold(v: string, n: nat)
    ensures HaltsIn(v, n) <==> |v| <= LIMIT || (n > 0 && HaltsIn(Step(v).rest, n - 1))
  {
    hide Step;
  }

  lemma {:induction false} MoreSteps(v: string, n: nat, m: nat)
    requires HaltsIn(v, n) && n <= m
    ensures HaltsIn(v, m)
    decreases n
  {
    hide Step;
    if |v| > LIMIT {
      MoreSteps(Step(v).rest, n - 1, m - 1);
    }
  }
}
