// The bounds of 1748 runes for fence lines and 873 for table lines are exact:
// with one rune more there is a fence line, or a table header, that is the whole
// chunk, so that the remainder is the text itself.
module TelegramSplitTight {
  import opened Text
  import opened TelegramFence
  import opened TelegramSplit
  import opened TelegramSplitStep
  import opened TelegramSplitHalts

  lemma {:induction false} SelfReproducingNeverHalts(v: string, n: nat)
    requires |v| > LIMIT && Step(v).rest == v
    ensures !HaltsIn(v, n)
  {
    hide *;
    HaltsUnfold(v, n);
    if n > 0 {
      SelfReproducingNeverHalts(v, n - 1);
    }
  }

  lemma {:induction false} TableHeaderOf(a: string, b: string)
    requires Clean(a) && Clean(b) && '|' in a && '|' in b && TableDivider(b)
    requires '\n' !in a && '\n' !in b
    ensures TableHeader(a + "\n" + b) == a + "\n" + b
  {
    hide Lines, Trim, TrimRight, TableDivider;
    var t := a + "\n" + b;
    assert Clean(t);
    TrimOfClean(t);
    TrimOfClean(a);
    TrimOfClean(b);
    LinesConcat(a, b);
    LinesOfLine(a);
    LinesOfLine(b);
    assert Lines(t) == [a, b];
    assert TableStart([a, b]) == 0;
    assert [a, b][0..] == [a, b];
  }

  lemma {:induction false} NoFenceIn(a: string, b: string)
    requires Clean(a) && Clean(b) && a[0] == '|' && b[0] == '|'
    requires '\n' !in a && '\n' !in b
    ensures OpenFence(a + "\n" + b) == NoFence
  {
    hide Lines, FenceLine, FenceAfter;
    NoFenceLine(a);
    NoFenceLine(b);
    LinesConcat(a, b);
    LinesOfLine(a);
    LinesOfLine(b);
    assert Lines(a + "\n" + b) == [a, b];
    NoFenceAfter(a, b);
  }

  lemma {:induction false} NoFenceLine(line: string)
    requires Clean(line) && line[0] == '|'
    ensures FenceLine(line) == NoFence
  {
    hide Trim, RunLength;
    TrimOfClean(line);
  }

  lemma {:induction false} NoFenceAfter(a: string, b: string)
    requires FenceLine(a) == NoFence && FenceLine(b) == NoFence
    ensures FenceAfter(NoFence, [a, b]) == NoFence
  {
    hide FenceLine;
    assert [a, b][1..] == [b] && [b][1..] == [];
    assert FenceAfter(NoFence, [b]) == FenceAfter(NoFence, []);
  }

  function Top(): (s: string)
    ensures |s| == 874
  {
    seq(874, i => '|')
  }

  function Rule(): (s: string)
    ensures |s| == 874
  {
    "||" + seq(872, i => '-')
  }

  function Word(): (s: string)
    ensures |s| == 2000
  {
    seq(2000, i => 'a')
  }

  function Stuck(): (s: string)
    ensures |s| == 3750
  {
    Top() + "\n" + Rule() + "\n" + Word()
  }

  lemma {:induction false} StuckParts()
    ensures Clean(Top()) && Clean(Rule()) && Clean(Word()) && Clean(Stuck())
    ensures '\n' !in Top() && '\n' !in Rule() && '\n' !in Word()
    ensures Top()[0] == '|' && Rule()[0] == '|'
  {
    assert Stuck()[0] == Top()[0];
    assert Stuck()[3749] == Word()[1999];
  }

  lemma {:induction false} RuleIsDivider()
    ensures TableDivider(Rule())
  {
    hide Trim;
    var dashes := seq(872, i => '-');
    StuckParts();
    TrimOfClean(Rule());
    assert multiset("||" + dashes) == multiset("||") + multiset(dashes);
    assert Rule()[2] == '-';
  }

  lemma {:induction false} StuckCut()
    ensures Body(Stuck(), 1750) == Top() + "\n" + Rule() && Tail(Stuck(), 1750) == Word()
    ensures IsSpace(Stuck()[1749])
    ensures forall i :: 1750 <= i < 3500 ==> !IsSpace(Stuck()[i])
  {
    hide TrimLeft, TrimRight, Top, Rule;
    var v, header := Stuck(), Top() + "\n" + Rule();
    StuckParts();
    assert v[..1750] == header + "\n" && v[1750..] == Word();
    assert (header + "\n")[|header|..] == "\n";
    assert header[|header| - 1] == Rule()[873];
    TrimRightIs(header + "\n", header);
    TrimOfClean(Word());
    forall i | 1750 <= i < 3500 ensures !IsSpace(v[i]) {
      assert v[i] == Word()[i - 1750];
    }
  }

  lemma {:induction false} StuckReproducesItself()
    ensures Step(Stuck()).rest == Stuck()
  {
    hide Render, Step, Stuck;
    StuckRender();
    StuckCut();
    OnlyCut(Stuck());
  }

  lemma {:induction false} StuckRender()
    ensures Render(Stuck(), 1750) == Split(Top() + "\n" + Rule(), Stuck())
  {
    hide Body, Tail, Top, Rule, Word, OpenFence, TableHeader, TableDivider;
    var header := Top() + "\n" + Rule();
    StuckParts();
    StuckCut();
    RuleIsDivider();
    NoFenceIn(Top(), Rule());
    TableHeaderOf(Top(), Rule());
    assert header + "" == header;
    assert header + "\n" + Word() == Stuck();
  }

  lemma {:induction false} StuckIsBounded(fence: nat, pipe: nat)
    requires pipe > MAX_PIPE_LINE
    ensures BoundedLines(Stuck(), fence, pipe)
  {
    hide Lines, Top, Rule, Word, Ticked;
    StuckParts();
    LinesConcat(Top() + "\n" + Rule(), Word());
    LinesConcat(Top(), Rule());
    LinesOfLine(Top());
    LinesOfLine(Rule());
    LinesOfLine(Word());
    assert Lines(Stuck()) == [Top(), Rule(), Word()];
    StuckUnticked();
  }

  lemma {:induction false} StuckUnticked()
    ensures !Ticked(Top()) && !Ticked(Rule()) && !Ticked(Word()) && '|' !in Word()
  {
  }

  // ----- a fence line -----

  function Opening(): (s: string)
    ensures |s| == 1749
  {
    "```" + seq(1746, i => 'x')
  }

  function StuckFence(): (s: string)
    ensures |s| == 3750
  {
    Opening() + "\n" + Word()
  }

  lemma {:induction false} OpeningParts()
    ensures Clean(Opening()) && '\n' !in Opening() && '|' !in Opening() && Clean(StuckFence())
    ensures forall i :: 3 <= i < 1749 ==> Opening()[i] == 'x'
    ensures Opening()[..3] == "```"
  {
    assert StuckFence()[0] == Opening()[0];
    assert StuckFence()[3749] == Word()[1999];
  }

  lemma {:induction false} OpeningIsFence()
    ensures OpenFence(Opening()) == Fence("```", Opening())
  {
    hide Trim, Lines, Opening, RunLength;
    OpeningParts();
    TrimOfClean(Opening());
    LinesOfLine(Opening());
    OpeningRun();
    var f := FenceLine(Opening());
    assert f == Fence("```", Opening());
    assert [Opening()][1..] == [];
    assert FenceAfter(NoFence, [Opening()]) == FenceAfter(f, []);
  }

  lemma {:induction false} OpeningRun()
    ensures RunLength(Opening(), '`') == 3 && Opening()[0] == '`'
  {
    hide Opening, RunLength;
    OpeningParts();
    var n := RunLength(Opening(), '`');
    assert Opening()[..3][0] == '`' && Opening()[..3][1] == '`' && Opening()[..3][2] == '`';
    assert Opening()[3] != '`';
  }

  lemma {:induction false} FenceCut()
    ensures Body(StuckFence(), 1750) == Opening() && Tail(StuckFence(), 1750) == Word()
    ensures IsSpace(StuckFence()[1749])
    ensures forall i :: 1750 <= i < 3500 ==> !IsSpace(StuckFence()[i])
  {
    hide TrimLeft, TrimRight, Opening;
    var v := StuckFence();
    StuckParts();
    OpeningParts();
    assert v[..1750] == Opening() + "\n" && v[1750..] == Word();
    assert (Opening() + "\n")[|Opening()|..] == "\n";
    TrimRightIs(Opening() + "\n", Opening());
    TrimOfClean(Word());
    forall i | 1750 <= i < 3500 ensures !IsSpace(v[i]) {
      assert v[i] == Word()[i - 1750];
    }
  }

  lemma {:induction false} FenceRender()
    ensures Render(StuckFence(), 1750) == Split(Opening() + "\n```", StuckFence())
  {
    hide Body, Tail, Opening, Word, OpenFence, TableHeader;
    FenceCut();
    OpeningIsFence();
  }

  lemma {:induction false} StuckFenceReproducesItself()
    ensures Step(StuckFence()).rest == StuckFence()
  {
    hide Render, Step, StuckFence;
    FenceRender();
    FenceCut();
    OnlyCut(StuckFence());
  }

  // A text whose only space between 1750 and 3500 is at the former is cut
  // there, if it can be.
  lemma {:induction false} OnlyCut(v: string)
    requires |v| > LIMIT && IsSpace(v[1749]) && Render(v, 1750).Split?
    requires forall i :: 1750 <= i < 3500 ==> !IsSpace(v[i])
    ensures Step(v) == Render(v, 1750)
  {
    hide Render, LastCut, HardCut, IsSpace;
    LastCutIsLargest(v, LIMIT, LIMIT / 2);
    var c := LastCut(v, LIMIT, LIMIT / 2);
    assert Usable(v, 1750);
    assert forall d :: 1750 < d <= 3500 ==> !Usable(v, d);
    assert c == 1750;
  }

  lemma {:induction false} StuckFenceIsBounded(fence: nat, pipe: nat)
    requires fence > MAX_FENCE_LINE
    ensures BoundedLines(StuckFence(), fence, pipe)
  {
    hide Lines, Opening, Word, Ticked;
    StuckParts();
    OpeningParts();
    LinesConcat(Opening(), Word());
    LinesOfLine(Opening());
    LinesOfLine(Word());
    assert Lines(StuckFence()) == [Opening(), Word()];
    StuckUnticked();
  }

  // ----- the bounds -----

  // Texts with fence lines of up to `fence` runes and table lines of up to
  // `pipe` runes are all split in finitely many steps exactly when these are at
  // most 1748 and 873.
  lemma {:induction false} BoundsAreExact(fence: nat, pipe: nat)
    ensures (forall v :: Clean(v) && BoundedLines(v, fence, pipe) ==> Halts(v))
            <==> fence <= MAX_FENCE_LINE && pipe <= MAX_PIPE_LINE
  {
    hide HaltsIn, BoundedLines, Stuck, StuckFence, Step, Clean;
    if fence <= MAX_FENCE_LINE && pipe <= MAX_PIPE_LINE {
      forall v | Clean(v) && BoundedLines(v, fence, pipe) ensures Halts(v) {
        BoundedMonotone(v, fence, pipe);
        BoundedHalts(v);
      }
    } else if pipe > MAX_PIPE_LINE {
      StuckParts();
      StuckIsBounded(fence, pipe);
      StuckReproducesItself();
      NeverHalts(Stuck());
    } else {
      OpeningParts();
      StuckFenceIsBounded(fence, pipe);
      StuckFenceReproducesItself();
      NeverHalts(StuckFence());
    }
  }

  lemma {:induction false} NeverHalts(v: string)
    requires |v| > LIMIT && Step(v).rest == v
    ensures !Halts(v)
  {
    hide HaltsIn, Step;
    forall n: nat ensures !HaltsIn(v, n) {
      SelfReproducingNeverHalts(v, n);
    }
  }

  lemma {:induction false} BoundedMonotone(v: string, fence: nat, pipe: nat)
    requires fence <= MAX_FENCE_LINE && pipe <= MAX_PIPE_LINE && BoundedLines(v, fence, pipe)
    ensures Bounded(v)
  {
    hide Lines, Ticked;
    forall i | 0 <= i < |Lines(v)| ensures WithinBounds(Lines(v)[i], MAX_FENCE_LINE, MAX_PIPE_LINE) {
      assert WithinBounds(Lines(v)[i], fence, pipe);
    }
  }
}
