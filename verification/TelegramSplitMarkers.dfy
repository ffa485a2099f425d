// A text without very long runs of backticks or tildes is closed and reopened
// at every cut, however long its lines are.
module TelegramSplitMarkers {
  import opened Text
  import opened TelegramFence
  import opened TelegramSplit
  import opened TelegramSplitStep
  import opened TelegramSplitHalts
  import opened TelegramSplitHard

  // A marker of so many runes leaves no room for a message in its fence.
  const FULL_MARKER: nat := LIMIT - 1

  predicate RunAt(s: string, i: nat)
    requires i + FULL_MARKER <= |s|
  {
    (s[i] == '`' || s[i] == '~') && forall j :: i <= j < i + FULL_MARKER ==> s[j] == s[i]
  }

  predicate ShortRuns(s: string) {
    forall i: nat :: i + FULL_MARKER <= |s| ==> !RunAt(s, i)
  }

  lemma {:induction false} PartShort(p: string, s: string, q: string)
    requires ShortRuns(p + s + q)
    ensures ShortRuns(s)
  {
    var t := p + s + q;
    forall i: nat | i + FULL_MARKER <= |s| ensures !RunAt(s, i) {
      assert forall j :: 0 <= j < |s| ==> t[|p| + j] == s[j];
      assert !RunAt(t, |p| + i);
      if RunAt(s, i) {
        assert forall j :: |p| + i <= j < |p| + i + FULL_MARKER ==> t[j] == s[j - |p|];
      }
    }
  }

  // A run does not go across a line break.
  lemma {:induction false} JoinShort(a: string, b: string)
    requires ShortRuns(a) && ShortRuns(b)
    ensures ShortRuns(a + "\n" + b)
  {
    var t := a + "\n" + b;
    forall i: nat | i + FULL_MARKER <= |t| ensures !RunAt(t, i) {
      if i + FULL_MARKER <= |a| {
        assert !RunAt(a, i);
        assert forall j :: 0 <= j < |a| ==> t[j] == a[j];
      } else if i > |a| {
        assert !RunAt(b, i - |a| - 1);
        assert forall j :: 0 <= j < |b| ==> t[|a| + 1 + j] == b[j];
      } else {
        assert t[|a|] == '\n';
      }
    }
  }

  lemma {:induction false} LinesShort(s: string, i: nat)
    requires ShortRuns(s) && i < |Lines(s)|
    ensures ShortRuns(Lines(s)[i])
  {
    hide Lines, ShortRuns;
    LineWithin(s, i);
    var p, q :| s == p + Lines(s)[i] + q;
    PartShort(p, Lines(s)[i], q);
  }

  lemma {:induction false} LineWithin(s: string, i: nat)
    requires i < |Lines(s)|
    ensures exists p, q :: s == p + Lines(s)[i] + q
  {
    hide Lines;
    JoinLines(s);
    JoinWithin(Lines(s), i);
  }

  lemma {:induction false} JoinWithin(lines: seq<string>, i: nat)
    requires i < |lines|
    ensures exists p, q :: Join(lines) == p + lines[i] + q
    decreases |lines|
  {
    hide Join;
    assert lines == [lines[0]] + lines[1..];
    JoinFirst(lines[0], lines[1..]);
    if i > 0 {
      JoinWithin(lines[1..], i - 1);
      var p, q :| Join(lines[1..]) == p + lines[i] + q;
      assert Join(lines) == (lines[0] + "\n" + p) + lines[i] + q;
    } else {
      var q := if |lines| == 1 then "" else "\n" + Join(lines[1..]);
      assert Join(lines) == "" + lines[0] + q;
    }
  }

  lemma {:induction false} TrimShort(s: string)
    requires ShortRuns(s)
    ensures ShortRuns(Trim(s))
  {
    hide Trim, ShortRuns;
    TrimWithin(s);
    var p, q :| s == p + Trim(s) + q;
    PartShort(p, Trim(s), q);
  }

  lemma {:induction false} TrimmedLineShort(body: string, l: string)
    requires ShortRuns(body) && l in Lines(body)
    ensures ShortRuns(Trim(l))
  {
    hide ShortRuns, Lines, Trim;
    var i :| 0 <= i < |Lines(body)| && Lines(body)[i] == l;
    LinesShort(body, i);
    TrimShort(l);
  }

  // No marker is full.
  lemma {:induction false} MarkerShort(text: string)
    requires ShortRuns(text)
    ensures OpenFence(text).Fence? ==> |OpenFence(text).marker| < FULL_MARKER
  {
    hide FenceLine, Lines, Trim, ShortRuns;
    var f := OpenFence(text);
    if f.Fence? {
      FenceCameFrom(NoFence, Lines(text));
      var l :| l in Lines(text) && FenceLine(l) == f;
      TrimmedLineShort(text, l);
      FenceLineRun(l);
    }
  }

  lemma {:induction false} FenceLineRun(l: string)
    requires FenceLine(l).Fence? && ShortRuns(Trim(l))
    ensures |FenceLine(l).marker| < FULL_MARKER
  {
    hide Trim, RunLength;
    var t, f := Trim(l), FenceLine(l);
    assert forall j :: 0 <= j < |f.marker| ==> t[j] == t[0];
    assert FULL_MARKER <= |t| ==> !RunAt(t, 0);
  }

  lemma {:induction false} PrefixShort(body: string, tail: string)
    requires ShortRuns(body) && ShortRuns(tail) && Clean(body)
    ensures ShortRuns(Prefix(body) + tail)
  {
    hide *;
    var first, second := PrefixShape(body);
    TrimOfClean(body);
    if OpenFence(body).Fence? {
      FenceLineIsTicked(first);
      TrimmedLineShort(body, first);
      JoinShort(Trim(first), tail);
    } else if TableHeader(body) != "" {
      TrimmedLineShort(body, first);
      TrimmedLineShort(body, second);
      JoinShort(Trim(first), Trim(second));
      JoinShort(Trim(first) + "\n" + Trim(second), tail);
    } else {
      assert "" + tail == tail;
    }
  }

  // Every step then closes and reopens what it cuts through, and its remainder
  // has no long runs either.
  lemma {:induction false} ShortStep(v: string)
    requires Clean(v) && |v| > LIMIT && ShortRuns(v)
    ensures var cut := ChosenCut(v);
            var body, tail := Body(v, cut), Tail(v, cut);
            && 0 < cut < |v| && Clean(body) && Clean(tail)
            && Step(v) == Split(body + Closing(body), Prefix(body) + tail)
            && Clean(Prefix(body) + tail) && ShortRuns(Prefix(body) + tail)
  {
    hide ChosenCut, Closing, Prefix, TrimLeft, TrimRight, ShortRuns, Step, Render, OpenFence;
    var cut := ChosenCut(v);
    var body, gap, tail := Body(v, cut), Gap(v, cut), Tail(v, cut);
    FrontShort(v);
    AlwaysDressed(v);
    StepShape(v);
    CutParts(v, cut);
    assert v == "" + body + (gap + tail);
    PartShort("", body, gap + tail);
    assert v == (body + gap) + tail + "";
    PartShort(body + gap, tail, "");
    PrefixShort(body, tail);
    PrefixClean(body, tail);
  }

  lemma {:induction false} FrontShort(v: string)
    requires |v| > LIMIT && ShortRuns(v)
    ensures OpenFence(v[..LIMIT]).Fence? ==> |OpenFence(v[..LIMIT]).marker| < LIMIT - 1
  {
    hide ShortRuns, OpenFence;
    assert v == "" + v[..LIMIT] + v[LIMIT..];
    PartShort("", v[..LIMIT], v[LIMIT..]);
    MarkerShort(v[..LIMIT]);
  }
}
