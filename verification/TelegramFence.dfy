// Code fences and GFM table headers in Markdown text, as the splitter reads
// them.
module TelegramFence {
  import opened Text

  datatype Fence = NoFence | Fence(marker: string, opening: string)

  // The length of the run of c that s starts with.
  function RunLength(s: string, c: char): (n: nat)
    ensures n <= |s| && (forall i :: 0 <= i < n ==> s[i] == c)
    ensures n < |s| ==> s[n] != c
  {
    if s != "" && s[0] == c then 1 + RunLength(s[1..], c) else 0
  }

  // A line of at least three backticks or tildes, after any indentation. The
  // marker is that run; the opening is the whole line, trimmed.
  function FenceLine(line: string): (f: Fence)
    ensures f.Fence? ==> 3 <= |f.marker| && f.marker <= f.opening && f.opening == Trim(line)
  {
    var trimmed := Trim(line);
    if trimmed == "" || (trimmed[0] != '`' && trimmed[0] != '~') then NoFence
    else
      var count := RunLength(trimmed, trimmed[0]);
      if count < 3 then NoFence else Fence(trimmed[..count], trimmed)
  }

  // Read off the trimmed line alone: it is a fence line if it starts with three
  // equal backticks or tildes, and its marker is the whole run of them.
  lemma {:induction false} FenceLineIs(line: string)
    ensures var t, f := Trim(line), FenceLine(line);
            && (f.Fence? <==> |t| >= 3 && (t[0] == '`' || t[0] == '~') && t[0] == t[1] == t[2])
            && (f.Fence? ==>
                  var n := |f.marker|;
                  && f.opening == t && 3 <= n <= |t|
                  && f.marker == t[..n]
                  && (forall i :: 0 <= i < n ==> t[i] == t[0])
                  && (n < |t| ==> t[n] != t[0]))
  {
    hide Trim, RunLength;
    var t := Trim(line);
    var n := if t == "" then 0 else RunLength(t, t[0]);
    assert n >= 3 ==> t[0] == t[1] == t[2];
    assert n < |t| && n > 0 ==> t[n] != t[0];
  }

  // What one line does to the fence that is open before it.
  function FenceStep(open: Fence, line: string): Fence {
    match FenceLine(line)
    case NoFence => open
    case Fence(_, _) =>
      if open.NoFence? then FenceLine(line)
      else if open.marker <= Trim(line) then NoFence
      else open
  }

  function FenceAfter(open: Fence, lines: seq<string>): Fence
    decreases |lines|
  {
    if lines == [] then open else FenceAfter(FenceStep(open, lines[0]), lines[1..])
  }

  function OpenFence(markdown: string): Fence {
    FenceAfter(NoFence, Lines(markdown))
  }

  // Line i opened the fence f when none was open, and no later fence line
  // starts with its marker.
  ghost predicate LeftOpen(lines: seq<string>, i: nat, f: Fence) {
    && f.Fence? && i < |lines|
    && FenceAfter(NoFence, lines[..i]) == NoFence
    && FenceLine(lines[i]) == f
    && forall j :: i < j < |lines| && FenceLine(lines[j]).Fence? ==> !(f.marker <= Trim(lines[j]))
  }

  // The fence that is open after the lines is the one left open; and a later
  // fence line that starts with the marker of an open fence closes it.
  lemma {:induction false} OpenMeansLeftOpen(lines: seq<string>, f: Fence)
    requires f.Fence?
    ensures FenceAfter(NoFence, lines) == f <==> exists i :: LeftOpen(lines, i, f)
    decreases |lines|
  {
    hide FenceLine, FenceAfter, Trim, FenceStep;
    if lines == [] {
      NothingOpen(NoFence);
    } else {
      var n := |lines| - 1;
      var older, before := lines[..n], FenceAfter(NoFence, lines[..n]);
      FenceAfterLast(NoFence, older, lines[n]);
      assert older + [lines[n]] == lines;
      OpenMeansLeftOpen(older, f);
      OneLine(before, lines[n], f);
      forall i: nat | i < n ensures LeftOpen(lines, i, f) <==> LeftOpen(older, i, f) && !Closes(f, lines[n]) {
        assert older[..i] == lines[..i];
        LeftOpenMore(older, lines[n], i, f);
      }
      assert LeftOpen(lines, n, f) <==> before == NoFence && FenceLine(lines[n]) == f;
    }
  }

  predicate Closes(f: Fence, line: string)
    requires f.Fence?
  {
    FenceLine(line).Fence? && f.marker <= Trim(line)
  }

  lemma {:induction false} LeftOpenMore(older: seq<string>, line: string, i: nat, f: Fence)
    requires f.Fence? && i < |older|
    ensures LeftOpen(older + [line], i, f) <==> LeftOpen(older, i, f) && !Closes(f, line)
  {
    hide FenceLine, FenceAfter, Trim;
    var lines := older + [line];
    assert lines[..i] == older[..i];
    assert lines[|older|] == line;
    assert forall j :: 0 <= j < |older| ==> lines[j] == older[j];
  }

  lemma {:induction false} NothingOpen(open: Fence)
    ensures FenceAfter(open, []) == open
  {
  }

  lemma {:induction false} OneLine(before: Fence, line: string, f: Fence)
    requires f.Fence?
    ensures FenceStep(before, line) == f <==>
              (before == f && !Closes(f, line)) || (before == NoFence && FenceLine(line) == f)
  {
    hide FenceLine, Trim;
  }

  lemma {:induction false} ClosedByMarker(lines: seq<string>, line: string)
    requires FenceAfter(NoFence, lines).Fence? && FenceLine(line).Fence?
    requires FenceAfter(NoFence, lines).marker <= Trim(line)
    ensures FenceAfter(NoFence, lines + [line]) == NoFence
  {
    hide FenceLine, Trim, FenceAfter;
    FenceAfterLast(NoFence, lines, line);
  }

  lemma {:induction false} FenceAfterLast(open: Fence, lines: seq<string>, line: string)
    ensures FenceAfter(open, lines + [line]) == FenceStep(FenceAfter(open, lines), line)
  {
    hide FenceStep;
    FenceAfterConcat(open, lines, [line]);
    var mid := FenceAfter(open, lines);
    assert [line][1..] == [];
    assert FenceAfter(mid, [line]) == FenceAfter(FenceStep(mid, line), []);
  }

  // Where the run of lines with a pipe that ends the text starts.
  function TableStart(lines: seq<string>): (start: nat)
    ensures start <= |lines|
  {
    if lines == [] || '|' !in lines[|lines| - 1] then |lines| else TableStart(lines[..|lines| - 1])
  }

  lemma {:induction false} TableStartIsFirst(lines: seq<string>)
    ensures var start := TableStart(lines);
            && (forall i :: start <= i < |lines| ==> '|' in lines[i])
            && (start > 0 ==> '|' !in lines[start - 1])
    decreases |lines|
  {
    if lines != [] && '|' in lines[|lines| - 1] {
      TableStartIsFirst(lines[..|lines| - 1]);
    }
  }

  lemma {:induction false} TableStartOf(lines: seq<string>, n: nat)
    requires n <= |lines|
    ensures TableStart(lines[..n]) == if n > 0 && '|' in lines[n - 1] then TableStart(lines[..n - 1]) else n
  {
    assert n > 0 ==> lines[..n][..n - 1] == lines[..n - 1];
  }

  lemma {:induction false} HeaderOf(markdown: string, table: seq<string>)
    requires var lines := Lines(TrimRight(markdown)); table == lines[TableStart(lines)..]
    ensures TableHeader(markdown) ==
              if |table| < 2 || !TableDivider(table[1]) then "" else Trim(table[0]) + "\n" + Trim(table[1])
  {
    hide Lines, TrimRight, TableStart, TableDivider, Trim;
  }

  predicate DividerRune(c: char) {
    c == '|' || c == '-' || c == ':' || IsSpace(c)
  }

  predicate TableDivider(line: string) {
    var trimmed := Trim(line);
    && multiset(trimmed)['|'] >= 2
    && '-' in trimmed
    && forall i :: 0 <= i < |trimmed| ==> DividerRune(trimmed[i])
  }

  // Read off the trimmed line alone: pipes, dashes, colons and white space, two
  // pipes and a dash among them.
  lemma {:induction false} TableDividerIs(line: string)
    ensures var t := Trim(line);
            TableDivider(line) <==>
              && (exists i, j :: 0 <= i < j < |t| && t[i] == '|' && t[j] == '|')
              && '-' in t
              && (forall c :: c in t ==> c == '|' || c == '-' || c == ':' || IsSpace(c))
  {
    hide Trim, IsSpace;
    var t := Trim(line);
    TwoOf(t, '|');
  }

  lemma {:induction false} TwoOf(s: string, c: char)
    ensures multiset(s)[c] >= 2 <==> exists i, j :: 0 <= i < j < |s| && s[i] == c && s[j] == c
    decreases |s|
  {
    if s != "" {
      var n := |s| - 1;
      var front := s[..n];
      assert s == front + [s[n]];
      TwoOf(front, c);
      assert multiset(front)[c] >= 1 <==> c in front;
      if c in front && s[n] == c {
        var i :| 0 <= i < n && front[i] == c;
        assert s[i] == c;
      }
      if exists i, j :: 0 <= i < j < |s| && s[i] == c && s[j] == c {
        var i, j :| 0 <= i < j < |s| && s[i] == c && s[j] == c;
        assert front[i] == c;
        assert j < n ==> front[j] == c;
      }
    }
  }

  // The header and divider of the table the text ends in, or "".
  function TableHeader(markdown: string): string {
    var lines := Lines(TrimRight(markdown));
    var table := lines[TableStart(lines)..];
    if |table| < 2 || !TableDivider(table[1]) then ""
    else Trim(table[0]) + "\n" + Trim(table[1])
  }

  // ----- the loops -----

  method ReadFenceLine(line: string) returns (fence: Fence)
    ensures fence == FenceLine(line)
    ensures var t := Trim(line);
            && (fence.Fence? <==> |t| >= 3 && (t[0] == '`' || t[0] == '~') && t[0] == t[1] == t[2])
            && (fence.Fence? ==>
                  var n := |fence.marker|;
                  && fence.opening == t && 3 <= n <= |t|
                  && fence.marker == t[..n]
                  && (forall i :: 0 <= i < n ==> t[i] == t[0])
                  && (n < |t| ==> t[n] != t[0]))
  {
    hide Trim, Lines;
    FenceLineIs(line);
    var trimmed := Trim(line);
    if trimmed == "" {
      return NoFence;
    }
    var first := trimmed[0];
    if first != '`' && first != '~' {
      return NoFence;
    }
    var count := 0;
    while count < |trimmed| && trimmed[count] == first
      invariant 0 <= count <= |trimmed|
      invariant forall i :: 0 <= i < count ==> trimmed[i] == first
    {
      count := count + 1;
    }
    assert count == RunLength(trimmed, first);
    if count < 3 {
      return NoFence;
    }
    return Fence(trimmed[..count], trimmed);
  }

  method FindOpenFence(markdown: string) returns (current: Fence)
    ensures current == OpenFence(markdown)
    ensures current.Fence? ==> exists i :: LeftOpen(Lines(markdown), i, current)
    ensures current.NoFence? ==> forall i, f :: !LeftOpen(Lines(markdown), i, f)
  {
    hide Trim, Lines, LeftOpen;
    var lines := Lines(markdown);
    current := NoFence;
    for i := 0 to |lines|
      invariant FenceAfter(current, lines[i..]) == OpenFence(markdown)
    {
      assert lines[i..][1..] == lines[i + 1..];
      var fence := ReadFenceLine(lines[i]);
      if fence.NoFence? {
        continue;
      }
      if current.NoFence? {
        current := fence;
        continue;
      }
      if current.marker <= Trim(lines[i]) {
        current := NoFence;
      }
    }
    WhatIsOpen(lines, current);
  }

  lemma {:induction false} WhatIsOpen(lines: seq<string>, current: Fence)
    requires FenceAfter(NoFence, lines) == current
    ensures current.Fence? ==> exists i :: LeftOpen(lines, i, current)
    ensures current.NoFence? ==> forall i, f :: !LeftOpen(lines, i, f)
  {
    hide FenceAfter;
    forall i, f | LeftOpen(lines, i, f) ensures current == f {
      OpenMeansLeftOpen(lines, f);
    }
    if current.Fence? {
      OpenMeansLeftOpen(lines, current);
    }
  }

  method IsTableDivider(line: string) returns (ok: bool)
    ensures ok == TableDivider(line)
    ensures var t := Trim(line);
            ok <==> && (exists i, j :: 0 <= i < j < |t| && t[i] == '|' && t[j] == '|')
                    && '-' in t
                    && (forall c :: c in t ==> c == '|' || c == '-' || c == ':' || IsSpace(c))
  {
    hide Trim, IsSpace;
    TableDividerIs(line);
    var trimmed := Trim(line);
    if multiset(trimmed)['|'] < 2 || '-' !in trimmed {
      return false;
    }
    for i := 0 to |trimmed|
      invariant forall j :: 0 <= j < i ==> DividerRune(trimmed[j])
    {
      if DividerRune(trimmed[i]) {
        continue;
      }
      return false;
    }
    return true;
  }

  method FindTableHeader(markdown: string) returns (header: string)
    ensures header == TableHeader(markdown)
    ensures exists start :: HeaderFrom(Lines(TrimRight(markdown)), start, header)
  {
    hide *;
    var lines := Lines(TrimRight(markdown));
    var start := FindTableStart(lines);
    HeaderOf(markdown, lines[start..]);
    HeaderIs(markdown);
    var table := lines[start..];
    if |table| < 2 {
      return "";
    }
    var divider := IsTableDivider(table[1]);
    if !divider {
      return "";
    }
    return Trim(table[0]) + "\n" + Trim(table[1]);
  }

  // The lines from `start` on are those with a pipe that end the text, and the
  // header is the first two of them, trimmed, if the second is a divider.
  ghost predicate HeaderFrom(lines: seq<string>, start: nat, header: string) {
    && start <= |lines|
    && (forall i :: start <= i < |lines| ==> '|' in lines[i])
    && (start > 0 ==> '|' !in lines[start - 1])
    && header == if |lines| - start >= 2 && TableDivider(lines[start + 1])
                 then Trim(lines[start]) + "\n" + Trim(lines[start + 1]) else ""
  }

  lemma {:induction false} HeaderIs(markdown: string)
    ensures exists start :: HeaderFrom(Lines(TrimRight(markdown)), start, TableHeader(markdown))
  {
    hide Lines, TrimRight, TableStart, TableDivider, Trim;
    var lines := Lines(TrimRight(markdown));
    var start := TableStart(lines);
    TableStartIsFirst(lines);
    HeaderOf(markdown, lines[start..]);
    assert |lines| - start >= 2 ==> lines[start..][0] == lines[start] && lines[start..][1] == lines[start + 1];
    assert HeaderFrom(lines, start, TableHeader(markdown));
  }

  // The backward scan of it.
  method FindTableStart(lines: seq<string>) returns (first: nat)
    ensures first == TableStart(lines)
  {
    hide TableStart;
    var start := |lines| - 1;
    assert lines[..|lines|] == lines;
    while start >= 0 && '|' in lines[start]
      invariant -1 <= start < |lines|
      invariant TableStart(lines) == TableStart(lines[..start + 1])
    {
      TableStartOf(lines, start + 1);
      start := start - 1;
    }
    TableStartOf(lines, start + 1);
    return start + 1;
  }

  // ----- what the fence state means -----

  lemma {:induction false} FenceAfterConcat(open: Fence, a: seq<string>, b: seq<string>)
    ensures FenceAfter(open, a + b) == FenceAfter(FenceAfter(open, a), b)
    decreases |a|
  {
    if a == [] {
      assert a + b == b;
    } else {
      assert (a + b)[1..] == a[1..] + b;
      FenceAfterConcat(FenceStep(open, a[0]), a[1..], b);
    }
  }

  // An open fence was opened by one of the lines.
  lemma {:induction false} FenceCameFrom(open: Fence, lines: seq<string>)
    ensures var f := FenceAfter(open, lines);
            f.Fence? && f != open ==> exists l :: l in lines && FenceLine(l) == f
    decreases |lines|
  {
    if lines != [] {
      FenceCameFrom(FenceStep(open, lines[0]), lines[1..]);
      assert forall l :: l in lines[1..] ==> l in lines;
      assert lines[0] in lines;
    }
  }

  // The opening and the marker are fence lines themselves: the one reopens
  // the same fence, the other closes it.
  lemma {:induction false} OpeningAndMarker(line: string)
    requires FenceLine(line).Fence?
    ensures var f := FenceLine(line);
            && FenceLine(f.opening) == f
            && Trim(f.marker) == f.marker
            && FenceLine(f.marker).Fence?
  {
    hide Trim;
    var f := FenceLine(line);
    TrimOfClean(f.opening);
    MarkerIsFence(f.marker, f.opening[0]);
  }

  lemma {:induction false} MarkerIsFence(marker: string, c: char)
    requires |marker| >= 3 && (c == '`' || c == '~')
    requires forall i :: 0 <= i < |marker| ==> marker[i] == c
    ensures Trim(marker) == marker && FenceLine(marker).Fence?
  {
    hide Trim, RunLength;
    TrimOfClean(marker);
    assert marker[|marker| - 1] == c;
    assert RunLength(marker, c) == |marker|;
  }
}
