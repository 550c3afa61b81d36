/** Which strings are integers: parsing undoes rendering, and nothing else parses but signs, zeros and white space. */
module DecimalForm {
  import opened Wrappers
  import opened Decimal

  /** Tabulators, line breaks and blanks, by code. */
  predicate Space(s: string) {
    forall i :: 0 <= i < |s| ==> s[i] as int in {9, 10, 11, 12, 13, 32}
  }

  predicate Zeros(s: string) {
    forall i :: 0 <= i < |s| ==> s[i] == '0'
  }

  function Digit(n: nat): string
    requires n < 10
  {
    ["0", "1", "2", "3", "4", "5", "6", "7", "8", "9"][n]
  }

  lemma {:induction false} RenderDigits(n: nat)
    ensures n < 10 ==> Render(n) == Digit(n)
    ensures n >= 10 ==> Render(n) == Render(n / 10) + Digit(n % 10)
  {
    assert DIGITS == "0123456789";
  }

  /** One digit more. */
  lemma ParsedMore(s: string, n: nat, digit: nat)
    requires digit < 10
    ensures ParseDigits(Digit(digit)) == Some(digit)
    ensures ParseDigits(s) == Some(n) ==> ParseDigits(s + Digit(digit)) == Some(10 * n + digit)
  {
    var t := s + Digit(digit);
    assert t[..|t| - 1] == s && t[|t| - 1] == Digit(digit)[0];
  }

  /** Whatever the number of digits. */
  lemma {:induction false} RenderedParsed(zeros: string, n: nat)
    requires Zeros(zeros)
    ensures ParseDigits(zeros + Render(n)) == Some(n)
    decreases n, |zeros|
  {
    RenderDigits(n);
    if n >= 10 {
      RenderedParsed(zeros, n / 10);
      ParsedMore(zeros + Render(n / 10), n / 10, n % 10);
      assert zeros + Render(n) == zeros + Render(n / 10) + Digit(n % 10);
    } else if zeros == [] {
      ParsedMore("", 0, n);
      assert zeros + Render(n) == Digit(n);
    } else {
      var front := zeros[..|zeros| - 1];
      assert zeros == front + Digit(0);
      RenderDigits(0);
      RenderedParsed(front, 0);
      ParsedMore(zeros, 0, n);
    }
  }

  lemma RenderMore(n: nat, digit: nat)
    requires digit < 10
    ensures Render(if n == 0 then digit else 10 * n + digit) == (if n == 0 then "" else Render(n)) + Digit(digit)
  {
    RenderDigits(if n == 0 then digit else 10 * n + digit);
    assert (10 * n + digit) / 10 == n && (10 * n + digit) % 10 == digit;
  }

  lemma ParsedLast(s: string) returns (front: string, digit: nat)
    requires ParseDigits(s).Some?
    ensures digit < 10 && |front| < |s| && s == front + Digit(digit)
    ensures if front == [] then ParseDigits(s) == Some(digit)
            else ParseDigits(front).Some? && ParseDigits(s) == Some(10 * ParseDigits(front).value + digit)
  {
    front, digit := s[..|s| - 1], s[|s| - 1] as int - '0' as int;
    assert Digit(digit) == [s[|s| - 1]];
  }

  lemma {:induction false} ParsedRendered(s: string) returns (zeros: string)
    requires ParseDigits(s).Some?
    ensures Zeros(zeros) && s == zeros + Render(ParseDigits(s).value)
    decreases |s|
  {
    hide Render, ParseDigits, Digit;
    var front, digit := ParsedLast(s);
    if front == [] {
      zeros := "";
      RenderMore(0, digit);
    } else {
      zeros := ParsedRendered(front);
      var n := ParseDigits(front).value;
      RenderMore(n, digit);
      if n == 0 {
        RenderMore(0, 0);
        ZeroDigit();
        zeros := zeros + "0";
        assert front + Digit(digit) == zeros + Digit(digit);
      } else {
        assert zeros + (Render(n) + Digit(digit)) == front + Digit(digit);
      }
    }
  }

  lemma ZeroDigit()
    ensures Digit(0) == "0"
  {
  }

  // ----- white space

  lemma {:induction false} StartTrimmed(lead: string, rest: string)
    requires Space(lead) && (rest == [] || !IsWhite(rest[0]))
    ensures TrimStart(lead + rest) == rest
  {
    if lead == [] {
      assert lead + rest == rest;
    } else {
      assert (lead + rest)[1..] == lead[1..] + rest;
      StartTrimmed(lead[1..], rest);
    }
  }

  lemma {:induction false} EndTrimmed(rest: string, trail: string)
    requires Space(trail) && (rest == [] || !IsWhite(rest[|rest| - 1]))
    ensures TrimEnd(rest + trail) == rest
  {
    if trail == [] {
      assert rest + trail == rest;
    } else {
      var all, front := rest + trail, trail[..|trail| - 1];
      assert all[..|all| - 1] == rest + front;
      EndTrimmed(rest, front);
    }
  }

  lemma {:induction false} StartSplit(s: string) returns (lead: string)
    ensures Space(lead) && s == lead + TrimStart(s)
    ensures TrimStart(s) == [] || !IsWhite(TrimStart(s)[0])
  {
    lead := "";
    if s != [] && IsWhite(s[0]) {
      lead := StartSplit(s[1..]);
      assert s == [s[0]] + s[1..];
      lead := [s[0]] + lead;
    }
  }

  lemma {:induction false} EndSplit(s: string) returns (trail: string)
    ensures Space(trail) && s == TrimEnd(s) + trail
  {
    trail := "";
    if s != [] && IsWhite(s[|s| - 1]) {
      trail := EndSplit(s[..|s| - 1]);
      assert s == s[..|s| - 1] + [s[|s| - 1]];
      trail := trail + [s[|s| - 1]];
    }
  }

  // ----- integers

  function Abs(v: int): nat {
    if v < 0 then -v else v
  }

  /** White space, a sign if any, zeros, the digits and white space, for a number of 32 bits. */
  predicate Written(s: string, v: int, lead: string, sign: string, zeros: string, trail: string) {
    && Space(lead) && Space(trail) && Zeros(zeros)
    && s == lead + sign + zeros + Render(Abs(v)) + trail
    && (sign == "-" || (v >= 0 && (sign == "" || sign == "+")))
    && (sign == "-" ==> v <= 0)
    && -2147483648 <= v <= 2147483647
  }

  lemma WrittenParsed(s: string, v: int, lead: string, sign: string, zeros: string, trail: string)
    requires Written(s, v, lead, sign, zeros, trail)
    ensures ParseInt(s) == Some(v)
  {
    hide Render, ParseDigits, TrimStart, TrimEnd;
    var digits := zeros + Render(Abs(v));
    var core := sign + digits;
    RenderedParsed(zeros, Abs(v));
    DigitsAtEnds(digits);
    assert s == lead + (core + trail);
    Trimmed(lead, core, trail);
    assert if sign == "" then core == digits else core[0] == sign[0] && core[1..] == digits;
    assert TrimEnd(TrimStart(s)) == core;
  }

  lemma Trimmed(lead: string, core: string, trail: string)
    requires Space(lead) && Space(trail) && core != [] && !IsWhite(core[0]) && !IsWhite(core[|core| - 1])
    ensures TrimEnd(TrimStart(lead + (core + trail))) == core
  {
    hide TrimStart, TrimEnd;
    assert (core + trail)[0] == core[0];
    StartTrimmed(lead, core + trail);
    EndTrimmed(core, trail);
  }

  lemma {:induction false} DigitsAtEnds(s: string)
    requires ParseDigits(s).Some?
    ensures s != [] && '0' <= s[0] <= '9' && '0' <= s[|s| - 1] <= '9'
  {
    if |s| > 1 { DigitsAtEnds(s[..|s| - 1]); }
  }

  lemma ParsedWritten(s: string, v: int) returns (lead: string, sign: string, zeros: string, trail: string)
    requires ParseInt(s) == Some(v)
    ensures Written(s, v, lead, sign, zeros, trail)
  {
    hide Render, ParseDigits, TrimStart, TrimEnd;
    lead := StartSplit(s);
    trail := EndSplit(TrimStart(s));
    var core := TrimEnd(TrimStart(s));
    sign := if core[0] == '-' || core[0] == '+' then [core[0]] else "";
    var digits := core[|sign|..];
    assert core == sign + digits;
    zeros := ParsedRendered(digits);
    assert s == lead + (sign + (zeros + Render(Abs(v))) + trail);
  }

  /** Exactly the integers of 32 bits are read, as the numbers they are. */
  lemma {:induction false} ParsedExactly(s: string, v: int)
    ensures ParseInt(s) == Some(v)
      <==> exists lead, sign, zeros, trail :: Written(s, v, lead, sign, zeros, trail)
  {
    hide Written;
    if ParseInt(s) == Some(v) {
      var lead, sign, zeros, trail := ParsedWritten(s, v);
    }
    forall lead, sign, zeros, trail | Written(s, v, lead, sign, zeros, trail)
      ensures ParseInt(s) == Some(v)
    {
      WrittenParsed(s, v, lead, sign, zeros, trail);
    }
  }

  /** A counter is read back within 32 bits. */
  lemma {:induction false} NumberRead(n: nat)
    requires n <= 2147483647
    ensures ParseInt(Render(n)) == Some(n)
  {
    assert Render(n) == "" + "" + "" + Render(n) + "";
    WrittenParsed(Render(n), n, "", "", "", "");
  }
}
