// Go text primitives shared by the models: white space, trimming, lines and
// decimal numerals, on sequences of runes.
module Text {

  // The white space of Go's unicode.IsSpace.
  predicate IsSpace(c: char) {
    || '\t' <= c <= '\r'
    || c == ' '
    || c == '\U{0085}'
    || c == '\U{00A0}'
    || c == '\U{1680}'
    || '\U{2000}' <= c <= '\U{200A}'
    || c == '\U{2028}'
    || c == '\U{2029}'
    || c == '\U{202F}'
    || c == '\U{205F}'
    || c == '\U{3000}'
  }

  // The code points of the Unicode property White_Space, 25 in all.
  lemma {:induction false} SpacesAre(c: char)
    ensures IsSpace(c) <==> c as int in {0x09, 0x0A, 0x0B, 0x0C, 0x0D, 0x20, 0x85, 0xA0, 0x1680,
                                         0x2000, 0x2001, 0x2002, 0x2003, 0x2004, 0x2005, 0x2006, 0x2007, 0x2008,
                                         0x2009, 0x200A, 0x2028, 0x2029, 0x202F, 0x205F, 0x3000}
  {
  }

  predicate AllSpace(s: string) {
    forall i :: 0 <= i < |s| ==> IsSpace(s[i])
  }

  // Starts and ends with something visible; what trimming leaves of any
  // text that is not blank.
  predicate Clean(s: string) {
    s != "" && !IsSpace(s[0]) && !IsSpace(s[|s| - 1])
  }

  function TrimLeft(s: string): (r: string)
    ensures |r| <= |s| && r == s[|s| - |r|..]
    ensures AllSpace(s[..|s| - |r|])
    ensures r != "" ==> !IsSpace(r[0])
  {
    if s != "" && IsSpace(s[0]) then
      var r := TrimLeft(s[1..]);
      assert forall i :: 0 < i < |s| - |r| ==> s[i] == s[1..][..|s| - 1 - |r|][i - 1];
      r
    else s
  }

  function TrimRight(s: string): (r: string)
    ensures r <= s
    ensures AllSpace(s[|r|..])
    ensures r != "" ==> !IsSpace(r[|r| - 1])
  {
    if s != "" && IsSpace(s[|s| - 1]) then
      var r := TrimRight(s[..|s| - 1]);
      assert forall i :: 0 <= i < |s| - 1 - |r| ==> s[|r|..][i] == s[..|s| - 1][|r|..][i];
      r
    else s
  }

  function Trim(s: string): (r: string)
    ensures r == "" || Clean(r)
  {
    var left := TrimLeft(s);
    var r := TrimRight(left);
    assert r != "" ==> r[0] == left[0];
    r
  }

  // TrimRight is determined by its contract: the end of the trimmed text is
  // the last visible rune.
  lemma {:induction false} TrimRightIs(s: string, r: string)
    requires r <= s && AllSpace(s[|r|..])
    requires r != "" ==> !IsSpace(r[|r| - 1])
    ensures TrimRight(s) == r
  {
    var t := TrimRight(s);
    assert forall i :: |t| <= i < |s| ==> s[i] == s[|t|..][i - |t|];
    assert forall i :: |r| <= i < |s| ==> s[i] == s[|r|..][i - |r|];
  }

  lemma {:induction false} TrimLeftAt(s: string, n: nat)
    requires n <= |s| && AllSpace(s[..n])
    requires n < |s| ==> !IsSpace(s[n])
    ensures TrimLeft(s) == s[n..]
  {
    if n > 0 {
      assert IsSpace(s[..n][0]);
      assert s[1..][..n - 1] == s[..n][1..];
      TrimLeftAt(s[1..], n - 1);
    }
  }

  lemma {:induction false} TrimLeftIs(s: string, r: string)
    requires |r| <= |s| && r == s[|s| - |r|..] && AllSpace(s[..|s| - |r|])
    requires r != "" ==> !IsSpace(r[0])
    ensures TrimLeft(s) == r
  {
    TrimLeftAt(s, |s| - |r|);
  }

  // Trimming removes blank margins and nothing else.
  lemma {:induction false} TrimIs(s: string, lead: string, r: string, trail: string)
    requires s == lead + r + trail && AllSpace(lead) && AllSpace(trail)
    requires r == "" ==> trail == ""
    requires r == "" || Clean(r)
    ensures Trim(s) == r
  {
    assert s[|s| - |r + trail|..] == r + trail;
    assert s[..|s| - |r + trail|] == lead;
    TrimLeftIs(s, r + trail);
    assert (r + trail)[|r|..] == trail;
    TrimRightIs(r + trail, r);
  }

  lemma {:induction false} TrimOfClean(s: string)
    requires s == "" || Clean(s)
    ensures TrimLeft(s) == s && TrimRight(s) == s && Trim(s) == s
  {
  }

  // strings.Split(s, "\n")
  function Lines(s: string): (r: seq<string>)
    ensures |r| > 0
  {
    if s == "" then [""] else ConsLine(s[0], Lines(s[1..]))
  }

  // The lines of [c] + s, given those of s.
  function ConsLine(c: char, lines: seq<string>): (r: seq<string>)
    requires |lines| > 0
    ensures |r| > 0
  {
    if c == '\n' then [""] + lines else [[c] + lines[0]] + lines[1..]
  }

  // The lines of a + b, given those of a and of b: the last line of a runs on
  // into the first line of b.
  function RunOn(la: seq<string>, lb: seq<string>): (r: seq<string>)
    requires |la| > 0 && |lb| > 0
    ensures |r| == |la| + |lb| - 1
  {
    la[..|la| - 1] + [la[|la| - 1] + lb[0]] + lb[1..]
  }

  function Join(lines: seq<string>): string
    requires |lines| > 0
  {
    if |lines| == 1 then lines[0] else lines[0] + ("\n" + Join(lines[1..]))
  }

  lemma {:induction false} JoinLines(s: string)
    ensures Join(Lines(s)) == s
    ensures forall l :: l in Lines(s) ==> '\n' !in l
  {
    if s != "" {
      JoinLines(s[1..]);
      JoinCons(s[0], Lines(s[1..]));
      assert s == [s[0]] + s[1..];
      var rest := Lines(s[1..]);
      assert rest[0] in rest;
      forall l | l in Lines(s) ensures '\n' !in l {
        assert l == "" || l == [s[0]] + rest[0] || l in rest;
      }
    }
  }

  lemma {:induction false} JoinFirst(first: string, rest: seq<string>)
    ensures Join([first] + rest) == if rest == [] then first else first + ("\n" + Join(rest))
  {
    assert ([first] + rest)[1..] == rest;
  }

  lemma {:induction false} Assoc<T>(a: seq<T>, b: seq<T>, c: seq<T>)
    ensures (a + b) + c == a + (b + c)
  {
  }

  lemma {:induction false} JoinCons(c: char, lines: seq<string>)
    requires |lines| > 0
    ensures Join(ConsLine(c, lines)) == [c] + Join(lines)
  {
    if c == '\n' {
      JoinBreak(lines);
    } else {
      var first, rest := lines[0], lines[1..];
      JoinFirst([c] + first, rest);
      assert lines == [first] + rest;
      JoinFirst(first, rest);
      if rest != [] {
        Assoc([c], first, "\n" + Join(rest));
      }
    }
  }

  lemma {:induction false} JoinBreak(lines: seq<string>)
    requires |lines| > 0
    ensures Join([""] + lines) == "\n" + Join(lines)
  {
    JoinFirst("", lines);
    assert "" + ("\n" + Join(lines)) == "\n" + Join(lines);
  }

  lemma {:induction false} LinesOfLine(s: string)
    requires '\n' !in s
    ensures Lines(s) == [s]
  {
    if s != "" {
      assert forall c :: c in s[1..] ==> c in s;
      LinesOfLine(s[1..]);
      assert s[0] in s;
      assert s == [s[0]] + s[1..];
    }
  }

  lemma {:induction false} ConsRunOn(c: char, la: seq<string>, lb: seq<string>)
    requires |la| > 0 && |lb| > 0
    ensures RunOn(ConsLine(c, la), lb) == ConsLine(c, RunOn(la, lb))
  {
    if c != '\n' && |la| == 1 {
      assert [c] + (la[0] + lb[0]) == [c] + la[0] + lb[0];
    }
  }

  lemma {:induction false} LinesAppend(a: string, b: string)
    ensures Lines(a + b) == RunOn(Lines(a), Lines(b))
  {
    if a == "" {
      assert a + b == b;
      assert "" + Lines(b)[0] == Lines(b)[0];
    } else {
      assert (a + b)[1..] == a[1..] + b;
      LinesAppend(a[1..], b);
      ConsRunOn(a[0], Lines(a[1..]), Lines(b));
    }
  }

  lemma {:induction false} LinesConcat(a: string, b: string)
    ensures Lines(a + "\n" + b) == Lines(a) + Lines(b)
  {
    assert a + "\n" + b == a + ("\n" + b);
    assert ("\n" + b)[1..] == b;
    LinesAppend(a, "\n" + b);
    var la := Lines(a);
    assert la[|la| - 1] + "" == la[|la| - 1];
    assert la == la[..|la| - 1] + [la[|la| - 1]];
  }

  // ----- decimal numerals -----

  predicate IsDigit(c: char) {
    '0' <= c <= '9'
  }

  function DigitValue(c: char): nat
    requires IsDigit(c)
  {
    (c - '0') as nat
  }

  function DigitOf(d: nat): (c: char)
    requires d < 10
    ensures IsDigit(c) && DigitValue(c) == d
  {
    '0' + d as char
  }

  predicate AllDigits(s: string) {
    forall i :: 0 <= i < |s| ==> IsDigit(s[i])
  }

  function Numeral(s: string): nat
    requires AllDigits(s)
  {
    if s == "" then 0 else 10 * Numeral(s[..|s| - 1]) + DigitValue(s[|s| - 1])
  }

  // strconv.Itoa, on naturals
  function Itoa(n: nat): (s: string)
    ensures s != "" && AllDigits(s)
  {
    if n < 10 then [DigitOf(n)] else Itoa(n / 10) + [DigitOf(n % 10)]
  }

  datatype Parsed = NotANumber | Number(value: int)

  // strconv.Atoi, for numbers of any size: a sign and digits
  function Atoi(s: string): Parsed {
    var signed := s != "" && (s[0] == '+' || s[0] == '-');
    var digits := if signed then s[1..] else s;
    if digits == "" || !AllDigits(digits) then NotANumber
    else if signed && s[0] == '-' then Number(0 - Numeral(digits))
    else Number(Numeral(digits))
  }

  lemma {:induction false} ItoaRoundTrip(n: nat)
    ensures Numeral(Itoa(n)) == n
  {
    var s := Itoa(n);
    if n >= 10 {
      ItoaRoundTrip(n / 10);
      assert s[..|s| - 1] == Itoa(n / 10);
    } else {
      assert s[..0] == "";
    }
  }

  lemma {:induction false} AtoiItoa(n: nat)
    ensures Atoi(Itoa(n)) == Number(n)
  {
    ItoaRoundTrip(n);
    assert IsDigit(Itoa(n)[0]);
  }

  // A number is one or more digits after at most one sign, and its digits mean
  // what they do in decimal.
  lemma {:induction false} AtoiIs(s: string)
    ensures s != "" && AllDigits(s) ==> Atoi(s) == Number(Numeral(s)) && Atoi("+" + s) == Number(Numeral(s))
                                        && Atoi("-" + s) == Number(0 - Numeral(s))
    ensures Atoi(s) != NotANumber ==>
              s != "" && (AllDigits(s) || ((s[0] == '+' || s[0] == '-') && |s| > 1 && AllDigits(s[1..])))
  {
    assert ("+" + s)[1..] == s && ("-" + s)[1..] == s;
  }

  lemma {:induction false} NumeralIs(s: string, c: char)
    requires AllDigits(s)
    ensures IsDigit(c) <==> 48 <= c as int <= 57
    ensures Numeral("") == 0
    ensures IsDigit(c) ==> AllDigits(s + [c]) && Numeral(s + [c]) == 10 * Numeral(s) + (c as int - 48)
  {
    assert (s + [c])[..|s|] == s;
  }

  lemma {:induction false} ItoaInjective(n: nat, m: nat)
    requires Itoa(n) == Itoa(m)
    ensures n == m
  {
    ItoaRoundTrip(n);
    ItoaRoundTrip(m);
  }

  lemma {:induction false} ItoaIsClean(n: nat)
    ensures Clean(Itoa(n)) && Trim(Itoa(n)) == Itoa(n)
  {
    var s := Itoa(n);
    assert IsDigit(s[0]) && IsDigit(s[|s| - 1]);
    TrimOfClean(s);
  }
}
