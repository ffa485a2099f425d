// The brace scanner that finds a JSON object at the start of a text.
module JsonScanner {
  import opened Options
  import opened Text

  datatype Scan = Scan(depth: int, inString: bool, escaped: bool)

  const BEGIN: Scan := Scan(0, false, false)

  function Read(s: Scan, c: char): Scan {
    if s.inString then
      if s.escaped then s.(escaped := false)
      else if c == '\\' then s.(escaped := true)
      else if c == '"' then s.(inString := false)
      else s
    else if c == '"' then s.(inString := true)
    else if c == '{' then s.(depth := s.depth + 1)
    else if c == '}' then s.(depth := s.depth - 1)
    else s
  }

  function ReadAll(s: Scan, text: string): Scan {
    if text == "" then s else Read(ReadAll(s, text[..|text| - 1]), text[|text| - 1])
  }

  // Outside strings and as deep as before the text.
  ghost predicate Balanced(text: string) {
    var s := ReadAll(BEGIN, text);
    !s.inString && s.depth == 0
  }

  // The scanner stops at the n-th rune: a closing brace that brings the depth
  // to zero.
  ghost predicate ClosesAt(text: string, n: nat) {
    && 0 < n <= |text|
    && text[n - 1] == '}'
    && !ReadAll(BEGIN, text[..n - 1]).inString
    && ReadAll(BEGIN, text[..n]).depth == 0
  }

  // extractBalancedJSONObject
  method ExtractBalancedObject(value: string) returns (found: Option<string>)
    ensures found.Some? ==>
              && found.value <= value
              && ClosesAt(value, |found.value|)
              && forall n :: 0 <= n < |found.value| ==> !ClosesAt(value, n)
    ensures found.None? ==> forall n :: 0 <= n <= |value| ==> !ClosesAt(value, n)
  {
    var depth := 0;
    var inString, escaped := false, false;
    for index := 0 to |value|
      invariant ReadAll(BEGIN, value[..index]) == Scan(depth, inString, escaped)
      invariant forall n :: 0 <= n <= index ==> !ClosesAt(value, n)
    {
      assert value[..index + 1][..index] == value[..index];
      var c := value[index];
      if inString {
        if escaped {
          escaped := false;
          continue;
        }
        if c == '\\' {
          escaped := true;
          continue;
        }
        if c == '"' {
          inString := false;
        }
        continue;
      }
      if c == '"' {
        inString := true;
      } else if c == '{' {
        depth := depth + 1;
      } else if c == '}' {
        depth := depth - 1;
        if depth == 0 {
          assert ClosesAt(value, index + 1);
          return Some(value[..index + 1]);
        }
      }
    }
    return None;
  }

  // ----- on a text that starts with a brace -----

  lemma {:induction false} ReadConcat(s: Scan, a: string, b: string)
    ensures ReadAll(s, a + b) == ReadAll(ReadAll(s, a), b)
    decreases |b|
  {
    if b == "" {
      assert a + b == a;
    } else {
      var n := |b| - 1;
      assert (a + b)[..|a + b| - 1] == a + b[..n];
      ReadConcat(s, a, b[..n]);
    }
  }

  lemma {:induction false} FirstBrace(text: string)
    requires text != "" && text[0] == '{'
    ensures ReadAll(BEGIN, text[..1]) == Scan(1, false, false)
  {
    assert text[..1] == "{" && "{"[..0] == "";
    assert ReadAll(BEGIN, "") == BEGIN;
  }

  // Before the first close the depth stays above zero.
  lemma {:induction false} OpenUntilClosed(text: string, n: nat)
    requires 0 < n <= |text| && text[0] == '{'
    requires forall m :: 0 <= m <= n ==> !ClosesAt(text, m)
    ensures ReadAll(BEGIN, text[..n]).depth > 0
  {
    assert text[..n][..n - 1] == text[..n - 1];
    if n == 1 {
      FirstBrace(text);
    } else {
      OpenUntilClosed(text, n - 1);
      assert !ClosesAt(text, n);
    }
  }

  // There the scanner's stop is the first balanced prefix.
  lemma {:induction false} ClosesAtFirstBalance(text: string, n: nat)
    requires 0 < n <= |text| && text[0] == '{'
    ensures ClosesAt(text, n) && (forall m :: 0 <= m < n ==> !ClosesAt(text, m))
            <==> Balanced(text[..n]) && (forall m :: 0 < m < n ==> !Balanced(text[..m]))
  {
    assert text[..n][..n - 1] == text[..n - 1];
    if ClosesAt(text, n) && forall m :: 0 <= m < n ==> !ClosesAt(text, m) {
      forall m | 0 < m < n ensures !Balanced(text[..m]) {
        OpenUntilClosed(text, m);
      }
    }
    if Balanced(text[..n]) && forall m :: 0 < m < n ==> !Balanced(text[..m]) {
      forall m | 0 <= m < n ensures !ClosesAt(text, m) {
        ClosedIsBalanced(text, m);
      }
      if n > 1 {
        OpenUntilClosed(text, n - 1);
      } else {
        FirstBrace(text);
      }
    }
  }

  lemma {:induction false} ClosedIsBalanced(text: string, m: nat)
    requires m <= |text|
    ensures ClosesAt(text, m) ==> m > 0 && Balanced(text[..m])
  {
    if ClosesAt(text, m) {
      assert text[..m][..m - 1] == text[..m - 1];
    }
  }

  // It fails only if no prefix is balanced.
  lemma {:induction false} FailsOnlyUnbalanced(text: string)
    requires text != "" && text[0] == '{'
    ensures (forall n :: 0 <= n <= |text| ==> !ClosesAt(text, n)) <==> (forall n :: 0 < n <= |text| ==> !Balanced(text[..n]))
  {
    if forall n :: 0 <= n <= |text| ==> !ClosesAt(text, n) {
      forall n | 0 < n <= |text| ensures !Balanced(text[..n]) {
        OpenUntilClosed(text, n);
      }
    } else {
      var n :| 0 <= n <= |text| && ClosesAt(text, n);
      ClosedIsBalanced(text, n);
    }
  }

  // ----- JSON texts (RFC 8259, sections 2 to 7) -----

  predicate JsonSpace(s: string) {
    forall i :: 0 <= i < |s| ==> s[i] in {' ', '\t', '\n', '\r'}
  }

  // Numbers and the three literal names, by the runes they are made of.
  predicate JsonWord(s: string) {
    forall i :: 0 <= i < |s| ==> s[i] in "0123456789+-.eEtrufalsn"
  }

  datatype Unit =
    | Plain(c: char)
    | Escape(c: char)
    | Unicode(hex: string)

  predicate UnitOk(u: Unit) {
    match u
    case Plain(c) => c != '"' && c != '\\' && c >= ' '
    case Escape(c) => c in "\"\\/bfnrt"
    case Unicode(hex) => |hex| == 4 && forall i :: 0 <= i < 4 ==> hex[i] in "0123456789abcdefABCDEF"
  }

  function PrintUnit(u: Unit): string {
    match u
    case Plain(c) => [c]
    case Escape(c) => ['\\', c]
    case Unicode(hex) => "\\u" + hex
  }

  function PrintUnits(units: seq<Unit>): string {
    if units == [] then "" else PrintUnits(units[..|units| - 1]) + PrintUnit(units[|units| - 1])
  }

  function Quoted(units: seq<Unit>): string {
    "\"" + PrintUnits(units) + "\""
  }

  predicate UnitsOk(units: seq<Unit>) {
    forall i :: 0 <= i < |units| ==> UnitOk(units[i])
  }

  // A value with the white space around it. Lists are linked, so that the
  // grammar is one recursive type.
  datatype Value =
    | Word(before: string, text: string, after: string)
    | Str(before: string, units: seq<Unit>, after: string)
    | Arr(before: string, items: Items, after: string)
    | Obj(before: string, members: Members, after: string)

  datatype Items = NoItems(space: string) | OneItem(item: Value) | MoreItems(item: Value, rest: Items)

  datatype Members =
    | NoMembers(space: string)
    | OneMember(before: string, name: seq<Unit>, after: string, value: Value)
    | MoreMembers(before: string, name: seq<Unit>, after: string, value: Value, rest: Members)

  predicate ValueOk(v: Value) {
    && JsonSpace(v.before) && JsonSpace(v.after)
    && match v
       case Word(_, text, _) => JsonWord(text)
       case Str(_, units, _) => UnitsOk(units)
       case Arr(_, items, _) => ItemsOk(items)
       case Obj(_, members, _) => MembersOk(members)
  }

  predicate ItemsOk(items: Items) {
    match items
    case NoItems(space) => JsonSpace(space)
    case OneItem(item) => ValueOk(item)
    case MoreItems(item, rest) => ValueOk(item) && ItemsOk(rest)
  }

  predicate MembersOk(members: Members) {
    match members
    case NoMembers(space) => JsonSpace(space)
    case OneMember(before, name, after, value) =>
      JsonSpace(before) && UnitsOk(name) && JsonSpace(after) && ValueOk(value)
    case MoreMembers(before, name, after, value, rest) =>
      JsonSpace(before) && UnitsOk(name) && JsonSpace(after) && ValueOk(value) && MembersOk(rest)
  }

  function Print(v: Value): string
    decreases v, 0
  {
    v.before + (match v
                case Word(_, text, _) => text
                case Str(_, units, _) => Quoted(units)
                case Arr(_, items, _) => "[" + PrintItems(items) + "]"
                case Obj(_, members, _) => PrintObject(members)) + v.after
  }

  function PrintItems(items: Items): string
    decreases items, 0
  {
    match items
    case NoItems(space) => space
    case OneItem(item) => Print(item)
    case MoreItems(item, rest) => Print(item) + "," + PrintItems(rest)
  }

  function PrintMember(before: string, name: seq<Unit>, after: string, value: Value): string
    decreases value, 1
  {
    before + Quoted(name) + after + ":" + Print(value)
  }

  function PrintMembers(members: Members): string
    decreases members, 0
  {
    match members
    case NoMembers(space) => space
    case OneMember(before, name, after, value) => PrintMember(before, name, after, value)
    case MoreMembers(before, name, after, value, rest) => PrintMember(before, name, after, value) + "," + PrintMembers(rest)
  }

  function PrintObject(members: Members): string
    decreases members, 1
  {
    "{" + PrintMembers(members) + "}"
  }

  // ----- reading what was printed -----

  // Read outside strings at depth d, the text leaves things as they were, and
  // on the way the depth does not fall below d outside strings.
  ghost predicate Quiet(text: string, d: int) {
    && ReadAll(Scan(d, false, false), text) == Scan(d, false, false)
    && forall n :: 0 <= n <= |text| ==> ReadAll(Scan(d, false, false), text[..n]).depth >= d
  }

  lemma {:induction false} QuietConcat(a: string, b: string, d: int)
    requires Quiet(a, d) && Quiet(b, d)
    ensures Quiet(a + b, d)
  {
    hide ReadAll;
    var s := Scan(d, false, false);
    ReadConcat(s, a, b);
    forall n | 0 <= n <= |a + b| ensures ReadAll(s, (a + b)[..n]).depth >= d {
      ReadPart(s, a, b, n);
    }
  }

  lemma {:induction false} ReadPart(s: Scan, a: string, b: string, n: nat)
    requires n <= |a + b|
    ensures ReadAll(s, (a + b)[..n]) == if n <= |a| then ReadAll(s, a[..n]) else ReadAll(ReadAll(s, a), b[..n - |a|])
  {
    hide ReadAll;
    if n <= |a| {
      assert (a + b)[..n] == a[..n];
    } else {
      assert (a + b)[..n] == a + b[..n - |a|];
      ReadConcat(s, a, b[..n - |a|]);
    }
  }

  // Runes without braces or quotes are quiet.
  lemma {:induction false} PlainIsQuiet(text: string, d: int)
    requires forall i :: 0 <= i < |text| ==> text[i] != '"' && text[i] != '{' && text[i] != '}'
    ensures Quiet(text, d)
  {
    if text == "" {
      assert text[..0] == "";
    } else {
      var n := |text| - 1;
      PlainIsQuiet(text[..n], d);
      forall m | 0 <= m <= |text| ensures ReadAll(Scan(d, false, false), text[..m]).depth >= d {
        if m <= n {
          assert text[..m] == text[..n][..m];
        } else {
          assert text[..m] == text;
        }
      }
    }
  }

  // Read inside a string, the text stays inside and changes nothing.
  ghost predicate Inside(text: string) {
    && (forall d :: ReadAll(Scan(d, true, false), text) == Scan(d, true, false))
    && (forall d, n :: 0 <= n <= |text| ==>
                         var s := ReadAll(Scan(d, true, false), text[..n]); s.inString && s.depth == d)
  }

  lemma {:induction false} InsideConcat(a: string, b: string)
    requires Inside(a) && Inside(b)
    ensures Inside(a + b)
  {
    hide ReadAll;
    forall d ensures ReadAll(Scan(d, true, false), a + b) == Scan(d, true, false) {
      ReadConcat(Scan(d, true, false), a, b);
    }
    forall d, n | 0 <= n <= |a + b|
      ensures var s := ReadAll(Scan(d, true, false), (a + b)[..n]); s.inString && s.depth == d
    {
      ReadPart(Scan(d, true, false), a, b, n);
    }
  }

  lemma {:induction false} RuneIsInside(c: char)
    requires c != '"' && c != '\\'
    ensures Inside([c])
  {
    assert [c][..0] == "" && [c][..1] == [c];
    forall d, n | 0 <= n <= 1
      ensures var s := ReadAll(Scan(d, true, false), [c][..n]); s.inString && s.depth == d
    {
    }
  }

  lemma {:induction false} EscapeIsInside(c: char)
    ensures Inside(['\\', c])
  {
    var text := ['\\', c];
    assert text[..0] == "" && text[..1] == ['\\'] && text[..2] == text && ['\\'][..0] == "";
    forall d, n | 0 <= n <= 2
      ensures var s := ReadAll(Scan(d, true, false), text[..n]); s.inString && s.depth == d
    {
      assert ReadAll(Scan(d, true, false), ['\\']) == Scan(d, true, true);
    }
    forall d ensures ReadAll(Scan(d, true, false), text) == Scan(d, true, false) {
      assert ReadAll(Scan(d, true, false), ['\\']) == Scan(d, true, true);
    }
  }

  lemma {:induction false} RunesAreInside(text: string)
    requires forall i :: 0 <= i < |text| ==> text[i] != '"' && text[i] != '\\'
    ensures Inside(text)
  {
    if text != "" {
      var n := |text| - 1;
      RunesAreInside(text[..n]);
      RuneIsInside(text[n]);
      InsideConcat(text[..n], [text[n]]);
      assert text[..n] + [text[n]] == text;
    }
  }

  lemma {:induction false} UnitIsInside(u: Unit)
    requires UnitOk(u)
    ensures Inside(PrintUnit(u))
  {
    hide Inside, ReadAll;
    match u
    case Plain(c) => RuneIsInside(c);
    case Escape(c) => EscapeIsInside(c);
    case Unicode(hex) =>
      HexIsPlain(hex);
      EscapeIsInside('u');
      RunesAreInside(hex);
      InsideConcat("\\u", hex);
  }

  lemma {:induction false} HexIsPlain(hex: string)
    requires UnitOk(Unicode(hex))
    ensures forall i :: 0 <= i < |hex| ==> hex[i] != '"' && hex[i] != '\\'
  {
    forall i | 0 <= i < |hex| ensures hex[i] != '"' && hex[i] != '\\' {
      HexDigit(hex[i]);
    }
  }

  lemma {:induction false} HexDigit(c: char)
    requires c in "0123456789abcdefABCDEF"
    ensures c != '"' && c != '\\'
  {
  }

  lemma {:induction false} UnitsAreInside(units: seq<Unit>)
    requires UnitsOk(units)
    ensures Inside(PrintUnits(units))
  {
    hide Inside;
    if units == [] {
      RunesAreInside("");
    } else {
      var n := |units| - 1;
      UnitsAreInside(units[..n]);
      UnitIsInside(units[n]);
      InsideConcat(PrintUnits(units[..n]), PrintUnit(units[n]));
    }
  }

  lemma {:induction false} QuotedIsQuiet(units: seq<Unit>, d: int)
    requires UnitsOk(units)
    ensures Quiet(Quoted(units), d)
  {
    var s, body := Scan(d, false, false), PrintUnits(units);
    UnitsAreInside(units);
    assert Read(s, '"') == Scan(d, true, false) && "\""[..0] == "";
    ReadConcat(s, "\"", body);
    ReadConcat(s, "\"" + body, "\"");
    forall n | 0 <= n <= |Quoted(units)| ensures ReadAll(s, Quoted(units)[..n]).depth >= d {
      if n == 0 {
        assert Quoted(units)[..0] == "";
      } else if n <= 1 + |body| {
        assert Quoted(units)[..n] == "\"" + body[..n - 1];
        ReadConcat(s, "\"", body[..n - 1]);
      } else {
        assert Quoted(units)[..n] == Quoted(units);
      }
    }
  }

  lemma {:induction false} WordIsQuiet(text: string, d: int)
    requires JsonWord(text) || JsonSpace(text)
    ensures Quiet(text, d)
  {
    forall i | 0 <= i < |text| ensures text[i] != '"' && text[i] != '{' && text[i] != '}' {
      if JsonWord(text) {
        assert text[i] in "0123456789+-.eEtrufalsn";
      }
    }
    PlainIsQuiet(text, d);
  }

  lemma {:induction false} PrintIsQuiet(v: Value, d: int)
    requires ValueOk(v)
    ensures Quiet(Print(v), d)
    decreases v
  {
    hide Quiet, JsonSpace, JsonWord, UnitsOk, Quoted, PrintObject;
    WordIsQuiet(v.before, d);
    WordIsQuiet(v.after, d);
    match v
    case Word(before, text, after) =>
      WordIsQuiet(text, d);
      Around(before, text, after, d);
    case Str(before, units, after) =>
      QuotedIsQuiet(units, d);
      Around(before, Quoted(units), after, d);
    case Arr(before, items, after) =>
      ItemsAreQuiet(items, d);
      PunctuationIsQuiet("[", d);
      PunctuationIsQuiet("]", d);
      QuietConcat("[", PrintItems(items), d);
      QuietConcat("[" + PrintItems(items), "]", d);
      Around(before, "[" + PrintItems(items) + "]", after, d);
    case Obj(before, members, after) =>
      MembersAreQuiet(members, d + 1);
      ObjectIsQuiet(members, d);
      Around(before, PrintObject(members), after, d);
  }

  lemma {:induction false} Around(before: string, text: string, after: string, d: int)
    requires Quiet(before, d) && Quiet(text, d) && Quiet(after, d)
    ensures Quiet(before + text + after, d)
  {
    hide Quiet;
    QuietConcat(before, text, d);
    QuietConcat(before + text, after, d);
  }

  lemma {:induction false} PunctuationIsQuiet(text: string, d: int)
    requires text in {"[", "]", ",", ":"}
    ensures Quiet(text, d)
  {
    PlainIsQuiet(text, d);
  }

  lemma {:induction false} ItemsAreQuiet(items: Items, d: int)
    requires ItemsOk(items)
    ensures Quiet(PrintItems(items), d)
    decreases items
  {
    hide Quiet, JsonSpace, ValueOk, Print;
    match items
    case NoItems(space) => WordIsQuiet(space, d);
    case OneItem(item) => PrintIsQuiet(item, d);
    case MoreItems(item, rest) =>
      PrintIsQuiet(item, d);
      ItemsAreQuiet(rest, d);
      PunctuationIsQuiet(",", d);
      Around(Print(item), ",", PrintItems(rest), d);
  }

  lemma {:induction false} MemberIsQuiet(before: string, name: seq<Unit>, after: string, value: Value, d: int)
    requires JsonSpace(before) && UnitsOk(name) && JsonSpace(after) && Quiet(Print(value), d)
    ensures Quiet(PrintMember(before, name, after, value), d)
  {
    hide Quiet, JsonSpace, UnitsOk, Print, Quoted;
    WordIsQuiet(before, d);
    QuotedIsQuiet(name, d);
    WordIsQuiet(after, d);
    PunctuationIsQuiet(":", d);
    Around(before, Quoted(name), after, d);
    Around(before + Quoted(name) + after, ":", Print(value), d);
  }

  lemma {:induction false} MembersAreQuiet(members: Members, d: int)
    requires MembersOk(members)
    ensures Quiet(PrintMembers(members), d)
    decreases members
  {
    hide Quiet, JsonSpace, UnitsOk, ValueOk, Print, PrintMember;
    match members
    case NoMembers(space) => WordIsQuiet(space, d);
    case OneMember(before, name, after, value) =>
      PrintIsQuiet(value, d);
      MemberIsQuiet(before, name, after, value, d);
    case MoreMembers(before, name, after, value, rest) =>
      PrintIsQuiet(value, d);
      MemberIsQuiet(before, name, after, value, d);
      MembersAreQuiet(rest, d);
      PunctuationIsQuiet(",", d);
      Around(PrintMember(before, name, after, value), ",", PrintMembers(rest), d);
  }

  // An object is as deep at its end as at its start, and deeper between.
  lemma {:induction false} InsideObject(members: Members, d: int, n: nat)
    requires Quiet(PrintMembers(members), d + 1) && n <= |PrintObject(members)|
    ensures ReadAll(Scan(d, false, false), PrintObject(members)) == Scan(d, false, false)
    ensures 0 < n < |PrintObject(members)| ==> ReadAll(Scan(d, false, false), PrintObject(members)[..n]).depth > d
  {
    var s, body, text := Scan(d, false, false), PrintMembers(members), PrintObject(members);
    assert "{"[..0] == "";
    ReadConcat(s, "{", body);
    ReadConcat(s, "{" + body, "}");
    if 0 < n < |text| {
      assert text[..n] == "{" + body[..n - 1];
      ReadConcat(s, "{", body[..n - 1]);
    }
  }

  lemma {:induction false} ObjectIsQuiet(members: Members, d: int)
    requires Quiet(PrintMembers(members), d + 1)
    ensures Quiet(PrintObject(members), d)
  {
    hide PrintMembers, PrintObject;
    var text := PrintObject(members);
    forall n | 0 <= n <= |text| ensures ReadAll(Scan(d, false, false), text[..n]).depth >= d {
      InsideObject(members, d, n);
      assert text[..0] == "" && text[..|text|] == text;
    }
    InsideObject(members, d, 0);
  }

  // The scanner closes exactly at the end of a printed object, whatever
  // follows it.
  lemma {:induction false} PrintedObjectCloses(members: Members, trailing: string, n: nat)
    requires MembersOk(members) && n <= |PrintObject(members)|
    ensures ClosesAt(PrintObject(members) + trailing, n) <==> n == |PrintObject(members)|
  {
    hide ReadAll, Quiet, MembersOk, PrintMembers;
    var text := PrintObject(members);
    var all := text + trailing;
    MembersAreQuiet(members, 1);
    assert all[..n] == text[..n];
    InsideObject(members, 0, n);
    ReadNothing(BEGIN);
    if n == |text| {
      assert text[..n] == text && all[n - 1] == '}';
      assert all[..n - 1] == "{" + PrintMembers(members);
      BeforeTheEnd(members);
    }
  }

  lemma {:induction false} ReadNothing(s: Scan)
    ensures ReadAll(s, "") == s
  {
  }

  // At its closing brace the scanner is outside strings.
  lemma {:induction false} BeforeTheEnd(members: Members)
    requires Quiet(PrintMembers(members), 1)
    ensures !ReadAll(BEGIN, "{" + PrintMembers(members)).inString
  {
    hide PrintMembers;
    assert "{"[..0] == "";
    ReadConcat(BEGIN, "{", PrintMembers(members));
  }

  // Any printed object, followed by anything, is found as printed.
  method ExtractPrinted(members: Members, trailing: string) returns (found: Option<string>)
    requires MembersOk(members)
    ensures found == Some(PrintObject(members))
  {
    hide ClosesAt, MembersOk, PrintObject;
    var text := PrintObject(members);
    found := ExtractBalancedObject(text + trailing);
    assert text <= text + trailing;
    PrintedObjectCloses(members, trailing, |text|);
    if found.Some? && |found.value| <= |text| {
      PrintedObjectCloses(members, trailing, |found.value|);
    }
    assert |text| <= |text + trailing|;
    assert found.Some? && |found.value| == |text|;
    assert found.value == (text + trailing)[..|text|] == text;
  }
}
