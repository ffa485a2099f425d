// The Telegram message splitter: one step, and the loop that repeats it.
module TelegramSplit {
  import opened Text
  import opened TelegramFence

  const LIMIT: nat := 3500

  datatype Split = Refused | Split(chunk: string, rest: string)

  // What is added after a chunk whose Markdown is `body`.
  function Closing(body: string): string {
    match OpenFence(body)
    case Fence(marker, _) => "\n" + marker
    case NoFence => ""
  }

  // What is added before the remainder.
  function Prefix(body: string): string {
    match OpenFence(body)
    case Fence(_, opening) => opening + "\n"
    case NoFence =>
      var header := TableHeader(body);
      if header == "" then "" else header + "\n"
  }

  function Body(runes: string, cut: int): string
    requires 0 <= cut <= |runes|
  {
    TrimRight(runes[..cut])
  }

  function Tail(runes: string, cut: int): string
    requires 0 <= cut <= |runes|
  {
    TrimLeft(runes[cut..])
  }

  // renderTelegramMarkdownSplit
  function Render(runes: string, cut: int): Split {
    if cut <= 0 || cut >= |runes| then Refused
    else
      var body, tail := Body(runes, cut), Tail(runes, cut);
      if body == "" || tail == "" then Refused
      else if |body + Closing(body)| > LIMIT then Refused
      else Split(body + Closing(body), Prefix(body) + tail)
  }

  // A split is refused for a blank half, or for a chunk that its closing takes
  // over the limit; otherwise the chunk is the text before the cut without
  // trailing white space and with the marker of a fence that is open there, and
  // the remainder is the text after it, after the opening of that fence or the
  // header of the table.
  lemma {:induction false} RenderIs(runes: string, cut: int)
    requires 0 < cut < |runes|
    ensures var body, tail := TrimRight(runes[..cut]), TrimLeft(runes[cut..]);
            var fence, header := OpenFence(body), TableHeader(body);
            var closing := if fence.Fence? then |fence.marker| + 1 else 0;
            if AllSpace(runes[..cut]) || AllSpace(runes[cut..]) || |body| + closing > 3500 then
              Render(runes, cut) == Refused
            else
              Render(runes, cut) ==
                if fence.Fence? then Split(body + "\n" + fence.marker, fence.opening + "\n" + tail)
                else if header != "" then Split(body, header + "\n" + tail)
                else Split(body, tail)
  {
    hide *;
    BlankTrims(runes[..cut]);
    BlankTrims(runes[cut..]);
    RenderParts(runes, cut);
    Dressing(TrimRight(runes[..cut]), TrimLeft(runes[cut..]));
  }

  lemma {:induction false} RenderOutside(runes: string, cut: int)
    requires cut <= 0 || cut >= |runes|
    ensures Render(runes, cut) == Refused
  {
  }

  lemma {:induction false} RenderParts(runes: string, cut: int)
    requires 0 < cut < |runes|
    ensures var body, tail := TrimRight(runes[..cut]), TrimLeft(runes[cut..]);
            Render(runes, cut) ==
              if body == "" || tail == "" || |body + Closing(body)| > 3500 then Refused
              else Split(body + Closing(body), Prefix(body) + tail)
  {
    hide TrimLeft, TrimRight, Closing, Prefix;
  }

  lemma {:induction false} Dressing(body: string, tail: string)
    ensures var fence, header := OpenFence(body), TableHeader(body);
            if fence.Fence? then
              body + Closing(body) == body + "\n" + fence.marker && Prefix(body) + tail == fence.opening + "\n" + tail
            else
              body + Closing(body) == body && Prefix(body) + tail == if header != "" then header + "\n" + tail else tail
  {
    hide OpenFence, TableHeader;
    var fence := OpenFence(body);
    if fence.Fence? {
      Assoc(body, "\n", fence.marker);
    } else {
      assert body + "" == body && "" + tail == tail;
    }
  }

  lemma {:induction false} BlankTrims(s: string)
    ensures TrimLeft(s) == "" <==> AllSpace(s)
    ensures TrimRight(s) == "" <==> AllSpace(s)
  {
    hide TrimLeft, TrimRight, IsSpace;
    assert s[..|s|] == s && s[0..] == s;
    var left, right := TrimLeft(s), TrimRight(s);
    assert left != "" ==> s[|s| - |left|] == left[0];
    assert right != "" ==> s[|right| - 1] == right[|right| - 1];
  }

  // Whether the search for a cut stops here.
  predicate Usable(runes: string, cut: int)
    requires 0 < cut < |runes|
  {
    IsSpace(runes[cut - 1]) && Render(runes, cut).Split?
  }

  // The largest usable cut in [low..cut]; low - 1 if there is none.
  function LastCut(runes: string, cut: int, low: int): (c: int)
    requires 0 < low && low - 1 <= cut < |runes|
    ensures low - 1 <= c <= cut
    decreases cut
  {
    if cut < low || Usable(runes, cut) then cut else LastCut(runes, cut - 1, low)
  }

  lemma {:induction false} LastCutIsLargest(runes: string, cut: int, low: int)
    requires 0 < low && low - 1 <= cut < |runes|
    ensures var c := LastCut(runes, cut, low);
            && (c >= low ==> Usable(runes, c))
            && (forall d :: c < d <= cut ==> !Usable(runes, d))
    decreases cut
  {
    hide Usable;
    if cut >= low && !Usable(runes, cut) {
      LastCutIsLargest(runes, cut - 1, low);
    }
  }

  // Where a text without a usable space is cut: room is left for the marker
  // of a fence that is open there.
  function HardCut(runes: string): (cut: int)
    requires |runes| > LIMIT
    ensures 0 < cut <= LIMIT
  {
    hide OpenFence;
    var cut := match OpenFence(runes[..LIMIT])
               case Fence(marker, _) => LIMIT - |marker| - 1
               case NoFence => LIMIT;
    if cut <= 0 then LIMIT else cut
  }

  function ChosenCut(runes: string): (cut: int)
    requires |runes| > LIMIT
    ensures 0 < cut <= LIMIT
  {
    hide LastCut, HardCut;
    var cut := LastCut(runes, LIMIT, LIMIT / 2);
    if cut >= LIMIT / 2 then cut else HardCut(runes)
  }

  // splitTelegramMarkdownChunk
  function Step(runes: string): (s: Split)
    requires |runes| > LIMIT
    ensures s.Split?
  {
    hide Render, ChosenCut, Trim;
    var cut := ChosenCut(runes);
    var split := Render(runes, cut);
    if split.Split? then split else Split(Trim(runes[..cut]), Trim(runes[cut..]))
  }

  // Where a step cuts: after the last white space between the middle of the
  // limit and the limit where a split is not refused; without one, at the
  // limit, less the room for the marker of a fence that is open there. What
  // it makes is that split, or the bare halves.
  lemma {:induction false} StepIs(runes: string)
    requires |runes| > 3500
    ensures var cut := ChosenCut(runes);
            && (if exists d :: 1750 <= d <= 3500 && IsSpace(runes[d - 1]) && Render(runes, d).Split? then
                  && 1750 <= cut <= 3500 && IsSpace(runes[cut - 1]) && Render(runes, cut).Split?
                  && forall d :: cut < d <= 3500 && IsSpace(runes[d - 1]) ==> Render(runes, d).Refused?
                else
                  var fence := OpenFence(runes[..3500]);
                  cut == if fence.Fence? && |fence.marker| < 3499 then 3499 - |fence.marker| else 3500)
            && Step(runes) == (if Render(runes, cut).Split? then Render(runes, cut)
                               else Split(Trim(runes[..cut]), Trim(runes[cut..])))
  {
    hide Render, OpenFence, IsSpace, LastCut, Trim;
    LastCutIsLargest(runes, LIMIT, LIMIT / 2);
    assert forall d :: 1750 <= d <= 3500 ==> (Usable(runes, d) <==> IsSpace(runes[d - 1]) && Render(runes, d).Split?);
    HardCutIs(runes);
  }

  lemma {:induction false} HardCutIs(runes: string)
    requires |runes| > LIMIT
    ensures var fence := OpenFence(runes[..3500]);
            HardCut(runes) == if fence.Fence? && |fence.marker| < 3499 then 3499 - |fence.marker| else 3500
  {
    hide OpenFence;
  }

  // The loop stops after at most n steps.
  ghost predicate HaltsIn(value: string, n: nat)
    decreases n
  {
    |value| <= LIMIT || (n > 0 && HaltsIn(Step(value).rest, n - 1))
  }

  ghost predicate Halts(value: string) {
    exists n: nat :: HaltsIn(value, n)
  }

  ghost function Chunks(value: string, n: nat): (chunks: seq<string>)
    requires HaltsIn(value, n)
    decreases n
  {
    hide Step;
    if |value| <= LIMIT then [value] else [Step(value).chunk] + Chunks(Step(value).rest, n - 1)
  }

  lemma {:induction false} ChunksUnique(value: string, n: nat, m: nat)
    requires HaltsIn(value, n) && HaltsIn(value, m)
    ensures Chunks(value, n) == Chunks(value, m)
    decreases n
  {
    if |value| > LIMIT {
      ChunksUnique(Step(value).rest, n - 1, m - 1);
    }
  }

  // ----- the source's loops -----

  method RenderMarkdownSplit(runes: string, cut: int) returns (split: Split)
    ensures split == Render(runes, cut)
  {
    hide TrimLeft, TrimRight, OpenFence, TableHeader, Closing, Prefix, Render, LeftOpen, HeaderFrom;
    if cut <= 0 || cut >= |runes| {
      RenderOutside(runes, cut);
      return Refused;
    }
    var chunk := TrimRight(runes[..cut]);
    var rest := TrimLeft(runes[cut..]);
    RenderParts(runes, cut);
    Dressing(chunk, rest);
    if chunk == "" || rest == "" {
      return Refused;
    }
    var fence := FindOpenFence(chunk);
    var header := FindTableHeader(chunk);
    if fence.Fence? {
      chunk := chunk + "\n" + fence.marker;
      rest := fence.opening + "\n" + rest;
    } else if header != "" {
      rest := header + "\n" + rest;
    }
    if |chunk| > LIMIT {
      return Refused;
    }
    return Split(chunk, rest);
  }

  method SplitMarkdownChunk(value: string) returns (chunk: string, rest: string)
    requires |value| > LIMIT
    ensures Split(chunk, rest) == Step(value)
  {
    hide Render, OpenFence, Trim, LeftOpen, Lines, IsSpace;
    var maxCut := if LIMIT < |value| then LIMIT else |value|;
    var minCut := maxCut / 2;
    var cut := maxCut;
    while cut >= minCut
      invariant minCut - 1 <= cut <= maxCut
      invariant LastCut(value, maxCut, minCut) == LastCut(value, cut, minCut)
    {
      if cut < |value| && !IsSpace(value[cut - 1]) {
        cut := cut - 1;
        continue;
      }
      var split := RenderMarkdownSplit(value, cut);
      if split.Split? {
        return split.chunk, split.rest;
      }
      cut := cut - 1;
    }
    cut := maxCut;
    var fence := FindOpenFence(value[..cut]);
    if fence.Fence? && LIMIT - |fence.marker| - 1 < cut {
      cut := LIMIT - |fence.marker| - 1;
    }
    if cut <= 0 {
      cut := maxCut;
    }
    var split := RenderMarkdownSplit(value, cut);
    if split.Split? {
      return split.chunk, split.rest;
    }
    return Trim(value[..cut]), Trim(value[cut..]);
  }
}
