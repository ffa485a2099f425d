// One step of the Telegram splitter on any text: how it takes the text apart,
// and when it makes it shorter.
module TelegramSplitStep {
  import opened Text
  import opened TelegramFence
  import opened TelegramSplit

  // The white space a cut drops between the chunk and the remainder.
  function Gap(runes: string, cut: int): string
    requires 0 <= cut <= |runes|
  {
    var body, tail := Body(runes, cut), Tail(runes, cut);
    runes[|body|..|runes| - |tail|]
  }

  lemma {:induction false} CutParts(v: string, cut: int)
    requires Clean(v) && 0 < cut < |v|
    ensures var body, gap, tail := Body(v, cut), Gap(v, cut), Tail(v, cut);
            && Clean(body) && Clean(tail) && AllSpace(gap)
            && v == body + gap + tail
            && |body| <= cut <= |body + gap|
  {
    hide TrimLeft, TrimRight;
    var front, back := v[..cut], v[cut..];
    var body, tail := Body(v, cut), Tail(v, cut);
    assert body <= front && AllSpace(front[|body|..]);
    assert front[0..] == front && front[0] == v[0];
    assert AllSpace(back[..|back| - |tail|]);
    assert back[..|back|] == back && back[|back| - 1] == v[|v| - 1];
    var gap := Gap(v, cut);
    assert tail == v[|v| - |tail|..];
    forall i | 0 <= i < |gap| ensures IsSpace(gap[i]) {
      if |body| + i < cut {
        assert gap[i] == front[|body|..][i];
      } else {
        assert gap[i] == back[..|back| - |tail|][|body| + i - cut];
      }
    }
  }

  // Whether the step closes and reopens what it cuts through. Otherwise it
  // has fallen back on cutting the bare text.
  predicate Dressed(v: string)
    requires |v| > LIMIT
  {
    Render(v, ChosenCut(v)).Split?
  }

  lemma {:induction false} StepShape(v: string)
    requires Clean(v) && |v| > LIMIT
    ensures var cut := ChosenCut(v);
            var body, tail := Body(v, cut), Tail(v, cut);
            && (Dressed(v) ==> Step(v) == Split(body + Closing(body), Prefix(body) + tail))
            && (!Dressed(v) ==> Step(v) == Split(body, tail))
            && |Step(v).chunk| <= LIMIT
            && Clean(body) && Clean(tail) && |tail| <= |v| - cut
  {
    hide ChosenCut, Closing, Prefix, TrimLeft, TrimRight;
    var cut := ChosenCut(v);
    CutParts(v, cut);
    assert v[..cut] == "" + Body(v, cut) + v[|Body(v, cut)|..cut];
    if !Dressed(v) {
      PlainHalves(v, cut);
    }
  }

  lemma {:induction false} PlainHalves(v: string, cut: int)
    requires Clean(v) && 0 < cut < |v|
    ensures Trim(v[..cut]) == Body(v, cut) && Trim(v[cut..]) == Tail(v, cut)
  {
    hide TrimLeft, TrimRight, Trim;
    var body, tail := Body(v, cut), Tail(v, cut);
    CutParts(v, cut);
    FrontHalf(v[..cut], body);
    BackHalf(v[cut..], tail);
  }

  lemma {:induction false} FrontHalf(front: string, body: string)
    requires body == TrimRight(front) && Clean(body)
    ensures Trim(front) == body
  {
    hide TrimLeft, TrimRight, Trim;
    assert front == "" + body + front[|body|..];
    TrimIs(front, "", body, front[|body|..]);
  }

  lemma {:induction false} BackHalf(back: string, tail: string)
    requires tail == TrimLeft(back) && Clean(tail)
    ensures Trim(back) == tail
  {
    hide TrimLeft, TrimRight, Trim;
    assert back == back[..|back| - |tail|] + tail + "";
    TrimIs(back, back[..|back| - |tail|], tail, "");
  }

  // What is put before the remainder, when anything is, is one or two trimmed
  // lines of the chunk.
  lemma {:induction false} PrefixShape(body: string) returns (first: string, second: string)
    ensures var f, header, lines := OpenFence(body), TableHeader(body), Lines(TrimRight(body));
            && (f.Fence? ==> Prefix(body) == f.opening + "\n" && Clean(f.opening)
                             && first in Lines(body) && FenceLine(first) == f)
            && (f.NoFence? && header != "" ==>
                  && first in lines && second in lines && '|' in first && '|' in second && TableDivider(second)
                  && Prefix(body) == Trim(first) + "\n" + Trim(second) + "\n")
            && (f.NoFence? && header == "" ==> Prefix(body) == "")
  {
    hide Lines, Trim, TrimRight, TableDivider, FenceLine, TableStart;
    var f, header, lines := OpenFence(body), TableHeader(body), Lines(TrimRight(body));
    first, second := "", "";
    if f.Fence? {
      FenceCameFrom(NoFence, Lines(body));
      first :| first in Lines(body) && FenceLine(first) == f;
    } else if header != "" {
      var start := TableStart(lines);
      TableStartIsFirst(lines);
      first, second := lines[start], lines[start + 1];
      assert lines[start..][0] == first && lines[start..][1] == second;
    }
  }
}
