// Whole runs of the Telegram splitter: every message fits, nothing is lost,
// and fences are balanced in each message.
module TelegramSplitRun {
  import opened Text
  import opened TelegramFence
  import opened TelegramSplit
  import opened TelegramSplitStep
  import opened TelegramSplitHalts
  import opened TelegramSplitFences
  import opened TelegramSplitHard
  import opened TelegramSplitMarkers

  lemma {:induction false} StepIsClean(v: string)
    requires Clean(v) && |v| > LIMIT
    ensures Step(v).chunk != "" && |Step(v).chunk| <= LIMIT && Clean(Step(v).rest)
  {
    hide ChosenCut, Closing, Prefix, TrimLeft, TrimRight, Step, Render;
    var cut := ChosenCut(v);
    StepShape(v);
    PrefixClean(Body(v, cut), Tail(v, cut));
  }

  // splitText. It returns for exactly the texts whose run halts.
  method SplitText(text: string) returns (chunks: seq<string>)
    requires Halts(Trim(text))
    ensures Trim(text) == "" ==> chunks == []
    ensures Trim(text) != "" ==> forall n: nat :: HaltsIn(Trim(text), n) ==> chunks == Chunks(Trim(text), n)
  {
    hide Step, Trim, TrimLeft, TrimRight;
    LimitIs();
    var value := Trim(text);
    if value == "" {
      return [];
    }
    ghost var n: nat := HaltingTime(value);
    ghost var m: nat := n;
    chunks := [];
    assert Clean(value);
    ghost var all := Chunks(value, n);
    assert chunks + all == all;
    while |value| > 3500
      invariant Clean(value) && HaltsIn(value, m)
      invariant chunks + Chunks(value, m) == all
      decreases m
    {
      StepIsClean(value);
      HaltsUnfold(value, m);
      ChunksUnfold(value, m);
      var chunk, rest := SplitMarkdownChunk(value);
      if chunk == "" || rest == "" {
        break;
      }
      Assoc(chunks, [chunk], Chunks(rest, m - 1));
      chunks := chunks + [chunk];
      value := rest;
      m := m - 1;
    }
    ChunksUnfold(value, m);
    chunks := chunks + [value];
    forall k: nat | HaltsIn(Trim(text), k) ensures chunks == Chunks(Trim(text), k) {
      ChunksUnique(Trim(text), n, k);
    }
  }

  lemma {:induction false} LimitIs()
    ensures LIMIT == 3500
  {
  }

  lemma {:induction false} HaltingTime(v: string) returns (n: nat)
    requires Halts(v)
    ensures HaltsIn(v, n)
  {
    hide HaltsIn;
    n :| HaltsIn(v, n);
  }

  lemma {:induction false} ChunksUnfold(v: string, n: nat)
    requires HaltsIn(v, n)
    ensures |v| <= LIMIT ==> Chunks(v, n) == [v]
    ensures |v| > LIMIT ==> n > 0 && HaltsIn(Step(v).rest, n - 1)
                            && Chunks(v, n) == [Step(v).chunk] + Chunks(Step(v).rest, n - 1)
  {
    hide Step;
  }

  // Every message is non-empty and within the limit, whatever the text.
  lemma {:induction false} MessagesFit(v: string, n: nat)
    requires Clean(v) && HaltsIn(v, n)
    ensures |Chunks(v, n)| > 0
    ensures forall i :: 0 <= i < |Chunks(v, n)| ==> 0 < |Chunks(v, n)[i]| <= LIMIT
    decreases n
  {
    hide *;
    ChunksUnfold(v, n);
    CleanIsNotEmpty(v);
    if |v| > LIMIT {
      StepIsClean(v);
      MessagesFit(Step(v).rest, n - 1);
    }
  }

  lemma {:induction false} CleanIsNotEmpty(v: string)
    requires Clean(v)
    ensures v != ""
  {
  }

  // The text s is the pieces in order, with nothing but white space between
  // them, and each chunk is its piece: after what the chunk before it made
  // necessary to repeat, and before the closing it makes necessary itself.
  ghost predicate Carries(s: string, prefix: string, chunks: seq<string>, pieces: seq<string>, gaps: seq<string>)
    decreases |chunks|
  {
    && |chunks| == |pieces| == |gaps| + 1
    && pieces[0] != ""
    && if |chunks| == 1 then s == pieces[0] && chunks[0] == prefix + s
       else
         && AllSpace(gaps[0])
         && pieces[0] + gaps[0] <= s
         && chunks[0] == (prefix + pieces[0]) + Closing(prefix + pieces[0])
         && Carries(s[|pieces[0] + gaps[0]|..], Prefix(prefix + pieces[0]), chunks[1..], pieces[1..], gaps[1..])
  }

  lemma {:induction false} CarriesFirst(s: string, prefix: string, piece: string, gap: string, rest: string,
                     chunks: seq<string>, pieces: seq<string>, gaps: seq<string>)
    requires piece != "" && AllSpace(gap) && s == piece + gap + rest
    requires Carries(rest, Prefix(prefix + piece), chunks, pieces, gaps)
    ensures Carries(s, prefix, [(prefix + piece) + Closing(prefix + piece)] + chunks, [piece] + pieces, [gap] + gaps)
  {
    hide Prefix, Closing, AllSpace;
    var cs := [(prefix + piece) + Closing(prefix + piece)] + chunks;
    var ps, gs := [piece] + pieces, [gap] + gaps;
    assert cs[1..] == chunks && ps[1..] == pieces && gs[1..] == gaps;
    assert s[|piece + gap|..] == rest;
    assert s[..|piece + gap|] == piece + gap;
  }

  lemma {:induction false} CarriesLast(s: string, prefix: string)
    requires s != ""
    ensures Carries(s, prefix, [prefix + s], [s], [])
  {
    hide Prefix, Closing;
  }

  // A prefix of a text that a cut goes past stays whole in the chunk.
  lemma {:induction false} BodyKeepsPrefix(prefix: string, s: string, cut: int)
    requires Clean(s) && Clean(prefix + s) && |prefix| < cut < |prefix + s|
    ensures var body := Body(prefix + s, cut); |prefix| < |body| && prefix == body[..|prefix|]
  {
    hide TrimLeft, TrimRight;
    var v := prefix + s;
    var front := v[..cut];
    var body := Body(v, cut);
    assert forall i :: |body| <= i < cut ==> front[i] == front[|body|..][i - |body|];
    assert front[|prefix|] == s[0];
  }

  lemma {:induction false} CarriesAll(prefix: string, s: string, n: nat) returns (pieces: seq<string>, gaps: seq<string>)
    requires Clean(s) && Clean(prefix + s) && |prefix| < LIMIT / 2
    requires Bounded(prefix + s)
    requires HaltsIn(prefix + s, n)
    ensures Carries(s, prefix, Chunks(prefix + s, n), pieces, gaps)
    decreases n
  {
    hide *;
    var v := prefix + s;
    LimitIs();
    ChunksUnfold(v, n);
    if |v| <= LIMIT {
      pieces, gaps := [s], [];
      CleanIsNotEmpty(s);
      CarriesLast(s, prefix);
    } else {
      var cut := ChosenCut(v);
      var body, gap, tail := Body(v, cut), Gap(v, cut), Tail(v, cut);
      BoundedStep(v);
      BodyKeepsPrefix(prefix, s, cut);
      var piece := body[|prefix|..];
      assert body == prefix + piece;
      assert s == piece + gap + tail by {
        assert v == prefix + (piece + gap + tail);
        assert v[|prefix|..] == s;
      }
      var ps, gs := CarriesAll(Prefix(body), tail, n - 1);
      CarriesFirst(s, prefix, piece, gap, tail, Chunks(Step(v).rest, n - 1), ps, gs);
      pieces, gaps := [piece] + ps, [gap] + gs;
    }
  }

  // One step under the bound, in the terms of the run.
  lemma {:induction false} BoundedStep(v: string)
    requires Clean(v) && |v| > LIMIT && Bounded(v)
    ensures var cut := ChosenCut(v);
            var body, gap, tail := Body(v, cut), Gap(v, cut), Tail(v, cut);
            && LIMIT / 2 <= cut <= LIMIT < |v|
            && v == body + gap + tail && AllSpace(gap) && Clean(body) && Clean(tail)
            && Step(v) == Split(body + Closing(body), Prefix(body) + tail)
            && Clean(Prefix(body) + tail) && Bounded(Prefix(body) + tail)
            && |Prefix(body)| < LIMIT / 2
  {
    hide *;
    var cut := ChosenCut(v);
    LimitIs();
    StepShape(v);
    CutParts(v, cut);
    CutIsDeep(v);
    FrontMarkerFits(v);
    AlwaysDressed(v);
    StepShrinks(v);
  }

  lemma {:induction false} FrontMarkerFits(v: string)
    requires |v| > LIMIT && Bounded(v)
    ensures OpenFence(v[..LIMIT]).Fence? ==> |OpenFence(v[..LIMIT]).marker| < LIMIT - 1
  {
    hide OpenFence, BoundedLines;
    assert v == v[..LIMIT] + v[LIMIT..];
    BoundedParts(v[..LIMIT], v[LIMIT..], MAX_FENCE_LINE, MAX_PIPE_LINE);
    MarkerBounded(v[..LIMIT], MAX_FENCE_LINE, MAX_PIPE_LINE);
  }

  lemma {:induction false} BoundedTextHalts(text: string)
    requires Trim(text) != "" && Bounded(Trim(text))
    ensures Halts(Trim(text))
  {
    hide *;
    var v := Trim(text);
    BoundedHalts(v);
    HaltsOf(v, |v|);
  }

  // Nothing is lost and nothing invented: the messages carry the trimmed text.
  lemma {:induction false} NothingLost(text: string, n: nat)
    requires Trim(text) != "" && Bounded(Trim(text)) && HaltsIn(Trim(text), n)
    ensures exists pieces, gaps :: Carries(Trim(text), "", Chunks(Trim(text), n), pieces, gaps)
  {
    hide *;
    var pieces, gaps := CarriesWhole(Trim(text), n);
  }

  lemma {:induction false} CarriesWhole(v: string, n: nat) returns (pieces: seq<string>, gaps: seq<string>)
    requires Clean(v) && Bounded(v) && HaltsIn(v, n)
    ensures Carries(v, "", Chunks(v, n), pieces, gaps)
  {
    hide *;
    assert "" + v == v;
    LimitIs();
    pieces, gaps := CarriesAll("", v, n);
  }

  lemma {:induction false} HaltsOf(v: string, n: nat)
    requires HaltsIn(v, n)
    ensures Halts(v)
  {
    hide HaltsIn;
  }

  // Every message but the last leaves no fence open, for any text that has no
  // run of 3499 backticks or tildes.
  lemma {:induction false} FencesClosed(v: string, n: nat)
    requires Clean(v) && ShortRuns(v) && HaltsIn(v, n)
    ensures var chunks := Chunks(v, n);
            forall i :: 0 <= i < |chunks| - 1 ==> OpenFence(chunks[i]) == NoFence
    decreases n
  {
    hide *;
    ChunksUnfold(v, n);
    if |v| > LIMIT {
      ShortStep(v);
      ClosingCloses(Body(v, ChosenCut(v)));
      FencesClosed(Step(v).rest, n - 1);
    }
  }

  // Every cut of the run is at a line break, and no repeated table header is
  // itself a fence line.
  ghost predicate CutsAtBreaks(v: string, n: nat)
    requires HaltsIn(v, n)
    decreases n
  {
    hide Step, ChosenCut, Body, Prefix, OpenFence, FirstLine, FenceLine;
    |v| > LIMIT ==>
      var cut := ChosenCut(v);
      && v[cut - 1] == '\n'
      && (OpenFence(Body(v, cut)).Fence? || FenceLine(FirstLine(Prefix(Body(v, cut)))).NoFence?)
      && CutsAtBreaks(Step(v).rest, n - 1)
  }

  lemma {:induction false} CutsUnfold(v: string, n: nat)
    requires HaltsIn(v, n) && CutsAtBreaks(v, n) && |v| > LIMIT
    ensures var cut := ChosenCut(v);
            && v[cut - 1] == '\n'
            && (OpenFence(Body(v, cut)).Fence? || FenceLine(FirstLine(Prefix(Body(v, cut)))).NoFence?)
            && HaltsIn(Step(v).rest, n - 1)
            && CutsAtBreaks(Step(v).rest, n - 1)
  {
    hide Step, ChosenCut, Body, Prefix, OpenFence, FirstLine, FenceLine;
  }

  // Then the last message leaves open what the whole text leaves open: a text
  // whose fences are balanced is cut into messages whose fences all are.
  lemma {:induction false} FenceStateAtEnd(v: string, n: nat)
    requires Clean(v) && ShortRuns(v) && HaltsIn(v, n) && CutsAtBreaks(v, n)
    ensures var chunks := Chunks(v, n);
            |chunks| > 0 && OpenFence(chunks[|chunks| - 1]) == OpenFence(v)
    decreases n
  {
    hide *;
    ChunksUnfold(v, n);
    if |v| > LIMIT {
      ShortStep(v);
      CutsUnfold(v, n);
      FenceStateKept(v, ChosenCut(v));
      FenceStateAtEnd(Step(v).rest, n - 1);
    }
  }

  // ----- a repeated table header is repeated again -----

  // While the table goes on, the next chunk repeats the same header.
  lemma {:induction false} HeaderRepeatsAgain(a: string, b: string, rows: string)
    requires Clean(a) && Clean(b) && '|' in a && '|' in b && TableDivider(b)
    requires '\n' !in a && '\n' !in b
    requires Clean(rows) && forall i :: 0 <= i < |Lines(rows)| ==> '|' in Lines(rows)[i]
    ensures TableHeader(a + "\n" + b + "\n" + rows) == a + "\n" + b
  {
    hide *;
    var t := a + "\n" + b + "\n" + rows;
    var lines := [a] + [b] + Lines(rows);
    CleanLines(a, b, rows);
    TrimOfClean(a);
    TrimOfClean(b);
    LinesConcat(a + "\n" + b, rows);
    LinesConcat(a, b);
    LinesOfLine(a);
    LinesOfLine(b);
    assert Lines(t) == lines;
    HeaderOfLines(t, lines);
  }

  lemma {:induction false} CleanLines(a: string, b: string, rows: string)
    requires Clean(a) && Clean(rows)
    ensures Clean(a + "\n" + b + "\n" + rows)
  {
    hide IsSpace;
    var t := a + "\n" + b + "\n" + rows;
    assert t[0] == a[0] && t[|t| - 1] == rows[|rows| - 1];
  }

  lemma {:induction false} HeaderOfLines(t: string, lines: seq<string>)
    requires Clean(t) && Lines(t) == lines && |lines| >= 2 && TableDivider(lines[1])
    requires forall i :: 0 <= i < |lines| ==> '|' in lines[i]
    ensures TableHeader(t) == Trim(lines[0]) + "\n" + Trim(lines[1])
  {
    hide Lines, Trim, TrimRight, TableDivider, TableStart;
    TrimOfClean(t);
    TableStartIsFirst(lines);
    assert TableStart(lines) == 0;
    assert lines[0..] == lines;
  }
}
