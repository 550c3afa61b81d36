/** Decimal rendering and parsing of the integers that occur inside identifiers and attributes. */
module Decimal {
  import opened Wrappers

  const DIGITS := "0123456789"

  /** The invariant-culture rendering of a counter. */
  function Render(n: nat): (s: string)
    ensures s != [] && forall c :: c in s ==> c in DIGITS
  {
    if n < 10 then [DIGITS[n]] else Render(n / 10) + [DIGITS[n % 10]]
  }

  lemma {:induction false} RenderInjective(m: nat, n: nat)
    requires Render(m) == Render(n)
    ensures m == n
  {
    var s := Render(m);
    assert DIGITS[m % 10] == s[|s| - 1] == DIGITS[n % 10];
    if m >= 10 && n >= 10 {
      assert Render(m / 10) == s[..|s| - 1] == Render(n / 10);
      RenderInjective(m / 10, n / 10);
    }
  }

  /** The part of a string before the first separator. */
  function CutAt(s: string, sep: char): string {
    if s == [] || s[0] == sep then [] else [s[0]] + CutAt(s[1..], sep)
  }

  lemma {:induction false} CutAtSeparator(a: string, b: string, sep: char)
    requires sep !in a
    ensures CutAt(a + [sep] + b, sep) == a
  {
    var s := a + [sep] + b;
    if a == [] {
      assert s[0] == sep;
    } else {
      assert s[0] == a[0] && s[1..] == a[1..] + [sep] + b;
      CutAtSeparator(a[1..], b, sep);
    }
  }

  /** A separator that occurs in neither first part splits a string in only one way. */
  lemma SplitUnique(a: string, b: string, c: string, d: string, sep: char)
    requires a + [sep] + b == c + [sep] + d && sep !in a && sep !in c
    ensures a == c && b == d
  {
    CutAtSeparator(a, b, sep);
    CutAtSeparator(c, d, sep);
    assert b == (a + [sep] + b)[|a| + 1..] && d == (c + [sep] + d)[|c| + 1..];
  }

  /** The part of a string after the last separator. */
  function After(s: string, sep: char): string {
    if s == [] || s[|s| - 1] == sep then [] else After(s[..|s| - 1], sep) + [s[|s| - 1]]
  }

  lemma {:induction false} AfterSeparator(a: string, b: string, sep: char)
    requires sep !in b
    ensures After(a + [sep] + b, sep) == b
  {
    var s := a + [sep] + b;
    if b == [] {
      assert s[|s| - 1] == sep;
    } else {
      var front := b[..|b| - 1];
      assert s[|s| - 1] == b[|b| - 1] && s[..|s| - 1] == a + [sep] + front;
      AfterSeparator(a, front, sep);
    }
  }

  /** The same, for a separator that occurs in neither last part. */
  lemma SplitUniqueLast(a: string, b: string, c: string, d: string, sep: char)
    requires a + [sep] + b == c + [sep] + d && sep !in b && sep !in d
    ensures a == c && b == d
  {
    AfterSeparator(a, b, sep);
    AfterSeparator(c, d, sep);
    assert a == (a + [sep] + b)[..|a|] && c == (c + [sep] + d)[..|c|];
  }

  lemma SamePrefix(p: string, a: string, b: string)
    requires p + a == p + b
    ensures a == b
  {
    assert a == (p + a)[|p|..] && b == (p + b)[|p|..];
  }

  /** `int.TryParse`: optional white space around an optionally signed run of digits within 32 bits. */
  function ParseInt(s: string): Option<int> {
    var t := TrimEnd(TrimStart(s));
    if t == [] then None
    else if t[0] == '-' then InRange(ParseDigits(t[1..]), -1)
    else if t[0] == '+' then InRange(ParseDigits(t[1..]), 1)
    else InRange(ParseDigits(t), 1)
  }

  predicate IsWhite(c: char) {
    '\t' <= c <= '\r' || c == ' '
  }

  function TrimStart(s: string): string {
    if s != [] && IsWhite(s[0]) then TrimStart(s[1..]) else s
  }

  function TrimEnd(s: string): string {
    if s != [] && IsWhite(s[|s| - 1]) then TrimEnd(s[..|s| - 1]) else s
  }

  function ParseDigits(s: string): Option<nat> {
    if s == [] then None
    else
      var c := s[|s| - 1];
      if !('0' <= c <= '9') then None
      else if |s| == 1 then Some(c as int - '0' as int)
      else
        var front := ParseDigits(s[..|s| - 1]);
        if front.None? then None else Some(10 * front.value + (c as int - '0' as int))
  }

  function InRange(digits: Option<nat>, sign: int): Option<int> {
    if digits.Some? && -0x8000_0000 <= sign * digits.value < 0x8000_0000 then Some(sign * digits.value) else None
  }

  // ----- the characters of an integer

  predicate IntegerChar(c: char) {
    IsWhite(c) || c in DIGITS || c == '-' || c == '+'
  }

  lemma {:induction false} TrimmedChars(s: string)
    requires forall c :: c in TrimEnd(s) ==> IntegerChar(c)
    ensures forall c :: c in s ==> IntegerChar(c)
  {
    if s != [] && IsWhite(s[|s| - 1]) {
      TrimmedChars(s[..|s| - 1]);
    }
  }

  lemma {:induction false} TrimmedStartChars(s: string)
    requires forall c :: c in TrimStart(s) ==> IntegerChar(c)
    ensures forall c :: c in s ==> IntegerChar(c)
  {
    if s != [] && IsWhite(s[0]) {
      TrimmedStartChars(s[1..]);
    }
  }

  lemma {:induction false} DigitChars(s: string)
    requires ParseDigits(s).Some?
    ensures forall c :: c in s ==> IntegerChar(c)
  {
    var c := s[|s| - 1];
    assert DIGITS[c as int - '0' as int] == c;
    if |s| > 1 {
      DigitChars(s[..|s| - 1]);
    }
  }

  /** A string that parses as an integer consists of digits, signs and white space. */
  lemma ParsedChars(s: string)
    requires ParseInt(s).Some?
    ensures forall c :: c in s ==> IntegerChar(c)
  {
    var t := TrimEnd(TrimStart(s));
    DigitChars(if t[0] == '-' || t[0] == '+' then t[1..] else t);
    assert t == [t[0]] + t[1..];
    TrimmedChars(TrimStart(s));
    TrimmedStartChars(s);
  }
}
