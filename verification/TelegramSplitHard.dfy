// A text without a usable space: the room the splitter leaves for one marker
// is enough for whatever fence is open where it really cuts.
module TelegramSplitHard {
  import opened Text
  import opened TelegramFence
  import opened TelegramSplit
  import opened TelegramSplitStep
  import opened TelegramSplitFences

  // The runes of the lines and the breaks between them.
  function Extent(lines: seq<string>): nat {
    if lines == [] then 0 else |lines[0]| + 1 + Extent(lines[1..])
  }

  lemma {:induction false} ExtentOfLines(s: string)
    ensures Extent(Lines(s)) == |s| + 1
  {
    if s == "" {
      assert Extent([""]) == 0 + 1 + Extent([""][1..]);
    } else {
      ExtentOfLines(s[1..]);
      ExtentCons(s[0], Lines(s[1..]));
    }
  }

  lemma {:induction false} ExtentCons(c: char, lines: seq<string>)
    requires |lines| > 0
    ensures Extent(ConsLine(c, lines)) == 1 + Extent(lines)
  {
    var all := ConsLine(c, lines);
    if c == '\n' {
      assert all[0] == "" && all[1..] == lines;
    } else {
      assert all[0] == [c] + lines[0] && all[1..] == lines[1..];
    }
  }

  lemma {:induction false} LineFits(lines: seq<string>, j: nat)
    requires j < |lines|
    ensures |lines[j]| + 1 <= Extent(lines)
  {
    if j > 0 {
      LineFits(lines[1..], j - 1);
    }
  }

  lemma {:induction false} TwoLinesFit(lines: seq<string>, i: nat, j: nat)
    requires i < j < |lines|
    ensures |lines[i]| + 1 + |lines[j]| + 1 <= Extent(lines)
  {
    if i == 0 {
      LineFits(lines[1..], j - 1);
    } else {
      TwoLinesFit(lines[1..], i - 1, j - 1);
    }
  }

  // A fence open at the end that was not open before was opened by a line,
  // after another line closed the one before.
  ghost predicate Reopened(open: Fence, lines: seq<string>, i: int, j: int) {
    && 0 <= j < |lines|
    && FenceLine(lines[j]) == FenceAfter(open, lines)
    && (open.Fence? ==> 0 <= i < j && |open.marker| <= |lines[i]|)
  }

  lemma {:induction false} HowReopened(open: Fence, lines: seq<string>) returns (i: int, j: int)
    requires FenceAfter(open, lines).Fence? && FenceAfter(open, lines) != open
    ensures Reopened(open, lines, i, j)
    decreases |lines|
  {
    hide FenceLine, Trim;
    assert lines != [];
    var next := FenceStep(open, lines[0]);
    var rest := lines[1..];
    if FenceAfter(next, rest) == next && open.NoFence? {
      i, j := -1, 0;
    } else {
      i, j := HowReopened(next, rest);
      assert rest[j] == lines[j + 1];
      i, j := i + 1, j + 1;
      if open.Fence? && next.NoFence? {
        TrimShortens(lines[0]);
        i := 0;
      }
    }
  }

  lemma {:induction false} TrimShortens(line: string)
    ensures |Trim(line)| <= |line|
  {
    hide TrimLeft, TrimRight;
  }

  lemma {:induction false} MarkerWithinLine(line: string)
    requires FenceLine(line).Fence?
    ensures |FenceLine(line).marker| <= |line|
  {
    hide Trim;
    TrimShortens(line);
  }

  // Running on, a fence line stays one and its marker does not get shorter.
  lemma {:induction false} FenceLineRunsOn(a: string, b: string)
    requires FenceLine(a).Fence?
    ensures FenceLine(a + b).Fence? && |FenceLine(a).marker| <= |FenceLine(a + b).marker|
  {
    hide Trim;
    var t, u := Trim(a), Trim(a + b);
    TrimRunsOn(a, b);
    RunLengthMonotone(t, u, t[0]);
  }

  lemma {:induction false} TrimRunsOn(a: string, b: string)
    requires Trim(a) != ""
    ensures Trim(a) <= Trim(a + b)
  {
    hide TrimLeft, TrimRight;
    var left := TrimLeft(a);
    var n := |a| - |left|;
    assert (a + b)[n..] == left + b;
    assert (a + b)[..n] == a[..n];
    TrimLeftAt(a + b, n);
    var t, u := Trim(a), TrimRight(left + b);
    assert t == left[..|t|];
    assert forall i :: |u| <= i < |left + b| ==> (left + b)[i] == (left + b)[|u|..][i - |u|];
    assert (left + b)[|t| - 1] == t[|t| - 1];
  }

  lemma {:induction false} RunLengthMonotone(s: string, t: string, c: char)
    requires s <= t
    ensures RunLength(s, c) <= RunLength(t, c)
  {
    assert forall i :: 0 <= i < RunLength(s, c) ==> t[i] == s[i];
  }

  // If a fence is open after a + b, and b is no longer than its marker and a
  // break, then a fence open after a has no longer a marker.
  lemma {:induction false} MarkerNotLonger(a: string, b: string)
    requires OpenFence(a + b).Fence? && |b| <= |OpenFence(a + b).marker| + 1
    ensures OpenFence(a).Fence? ==> |OpenFence(a).marker| <= |OpenFence(a + b).marker|
  {
    hide Lines, FenceLine, FenceAfter, FenceStep;
    var la, lb := Lines(a), Lines(b);
    var last := |la| - 1;
    var before := FenceAfter(NoFence, la[..last]);
    var run := la[last] + lb[0];
    LinesAppend(a, b);
    ExtentOfLines(b);
    assert RunOn(la, lb) == la[..last] + [run] + lb[1..];
    FenceAfterConcat(NoFence, la[..last] + [run], lb[1..]);
    FenceAfterLast(NoFence, la[..last], run);
    FenceAfterLast(NoFence, la[..last], la[last]);
    assert la == la[..last] + [la[last]];
    MarkerAcross(before, la[last], lb);
  }

  lemma {:induction false} MarkerAcross(before: Fence, line: string, lb: seq<string>)
    requires |lb| > 0
    requires var f := FenceAfter(FenceStep(before, line + lb[0]), lb[1..]);
             f.Fence? && Extent(lb) <= |f.marker| + 2
    ensures var f := FenceAfter(FenceStep(before, line + lb[0]), lb[1..]);
            FenceStep(before, line).Fence? ==> |FenceStep(before, line).marker| <= |f.marker|
  {
    hide FenceLine, FenceAfter, Trim;
    var at := FenceStep(before, line);
    var mid := FenceStep(before, line + lb[0]);
    var f := FenceAfter(mid, lb[1..]);
    assert lb[0] == "" ==> line + lb[0] == line;
    if at.Fence? {
      if before.NoFence? {
        FenceLineRunsOn(line, lb[0]);
      }
      if f != mid {
        var i, j := HowReopened(mid, lb[1..]);
        MarkerWithinLine(lb[1..][j]);
        LineFits(lb[1..], j);
        if mid.Fence? {
          TwoLinesFit(lb[1..], i, j);
        }
      }
    }
  }

  // The hard cut of a text can always be rendered, unless the marker open at
  // the limit fills the message by itself.
  lemma {:induction false} HardCutFits(v: string)
    requires Clean(v) && |v| > LIMIT
    requires OpenFence(v[..LIMIT]).Fence? ==> |OpenFence(v[..LIMIT]).marker| < LIMIT - 1
    ensures Render(v, HardCut(v)).Split?
  {
    hide Lines, OpenFence, TrimLeft, TrimRight, TableHeader, Prefix;
    var cut := HardCut(v);
    var front, back := v[..cut], v[cut..LIMIT];
    var body := Body(v, cut);
    CutParts(v, cut);
    assert v[..LIMIT] == front + back;
    assert AllSpace(front[|body|..]);
    assert front == body + front[|body|..];
    OpenFenceIgnoresTrail(body, front[|body|..]);
    if OpenFence(front + back).Fence? {
      MarkerNotLonger(front, back);
    } else {
      assert back == "" && front + back == front;
    }
  }

  lemma {:induction false} AlwaysDressed(v: string)
    requires Clean(v) && |v| > LIMIT
    requires OpenFence(v[..LIMIT]).Fence? ==> |OpenFence(v[..LIMIT]).marker| < LIMIT - 1
    ensures Dressed(v)
  {
    hide Render, HardCut, LastCut, OpenFence;
    LastCutIsLargest(v, LIMIT, LIMIT / 2);
    HardCutFits(v);
  }
}
