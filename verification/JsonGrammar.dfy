/** The grammar that the JSON reader accepts for numbers, literals and strings, as RFC 8259 gives it
    (sections 3, 6 and 7): an independent account of the scanning functions. */
module JsonGrammar {
  import opened Base
  import opened Json
  import opened Decimal

  // ---------------------------------------------------------------------------------------
  // Numbers

  /** int = zero / ( digit1-9 *DIGIT ) */
  predicate IsIntPart(s: string) {
    s == "0" || (s != "" && '1' <= s[0] <= '9' && AllDigits(s))
  }

  /** [ frac ], where frac = decimal-point 1*DIGIT */
  predicate IsFracPart(s: string) {
    s == "" || (|s| >= 2 && s[0] == '.' && AllDigits(s[1..]))
  }

  /** [ exp ], where exp = e [ minus / plus ] 1*DIGIT */
  predicate IsExpPart(s: string) {
    s == "" || (
      && (s[0] == 'e' || s[0] == 'E')
      && ((|s| >= 2 && AllDigits(s[1..])) || (|s| >= 3 && (s[1] == '+' || s[1] == '-') && AllDigits(s[2..]))))
  }

  /** number = [ minus ] int [ frac ] [ exp ] */
  ghost predicate IsNumberText(s: string) {
    exists minus: string, i: string, f: string, e: string ::
      IsNumberOf(minus, i, f, e) && s == minus + (i + (f + e))
  }

  predicate IsNumberOf(minus: string, i: string, f: string, e: string) {
    (minus == "" || minus == "-") && IsIntPart(i) && IsFracPart(f) && IsExpPart(e)
  }

  lemma {:induction false} DigitRunOf(digits: string, rest: string)
    requires AllDigits(digits) && (rest == "" || !IsDigit(rest[0]))
    ensures DigitRun(digits + rest) == |digits|
  {
    if digits == "" {
      assert digits + rest == rest;
    } else {
      assert (digits + rest)[1..] == digits[1..] + rest;
      DigitRunOf(digits[1..], rest);
    }
  }

  lemma {:induction false} DigitRunSplits(s: string)
    ensures AllDigits(s[..DigitRun(s)])
    ensures DigitRun(s) < |s| ==> !IsDigit(s[DigitRun(s)])
  {
    if s != "" && IsDigit(s[0]) {
      DigitRunSplits(s[1..]);
      assert s[..DigitRun(s)] == [s[0]] + s[1..][..DigitRun(s[1..])];
    }
  }

  lemma {:induction false} ExponentIffExpPart(s: string)
    ensures IsExponent(s) <==> IsExpPart(s)
  {
    if s != "" {
      var digits := if |s| > 1 && (s[1] == '+' || s[1] == '-') then s[2..] else s[1..];
      DigitRunSplits(digits);
      if AllDigits(digits) {
        DigitRunOf(digits, "");
        assert digits + "" == digits;
      } else {
        assert DigitRun(digits) != |digits|;
      }
      if |s| >= 2 {
        assert s[1..][0] == s[1];
      }
    }
  }

  lemma {:induction false} RestIsRead(f: string, e: string)
    requires IsFracPart(f) && IsExpPart(e)
    ensures IsRest(f + e) && (f + e == "" || !IsDigit((f + e)[0]))
  {
    var rest := f + e;
    ExponentIffExpPart(e);
    if f == "" {
      assert rest == e;
    } else {
      assert rest[1..] == f[1..] + e;
      DigitRunOf(f[1..], e);
      assert rest[|f|..] == e;
    }
  }

  lemma {:induction false} UnsignedIsRead(i: string, rest: string)
    requires IsIntPart(i) && IsRest(rest) && (rest == "" || !IsDigit(rest[0]))
    ensures IsUnsigned(i + rest)
  {
    DigitRunOf(i, rest);
    assert (i + rest)[|i|..] == rest;
  }

  /** Every number of the grammar is read as one. */
  lemma {:induction false} NumberIsRead(minus: string, i: string, f: string, e: string)
    requires IsNumberOf(minus, i, f, e)
    ensures IsNumber(minus + (i + (f + e)))
  {
    var u := i + (f + e);
    RestIsRead(f, e);
    UnsignedIsRead(i, f + e);
    assert u[0] == i[0];
    if minus == "" {
      assert minus + u == u;
    } else {
      assert (minus + u)[1..] == u;
    }
  }

  /** The text after the integer part divides into a fraction and an exponent. */
  lemma {:induction false} SplitRest(rest: string) returns (f: string, e: string)
    requires IsRest(rest)
    ensures IsFracPart(f) && IsExpPart(e) && rest == f + e
  {
    if rest != "" && rest[0] == '.' {
      var m := DigitRun(rest[1..]);
      DigitRunSplits(rest[1..]);
      f, e := rest[..1 + m], rest[1 + m..];
      assert f[1..] == rest[1..][..m];
      ExponentIffExpPart(e);
    } else {
      f, e := "", rest;
      ExponentIffExpPart(e);
    }
  }

  lemma {:induction false} SplitUnsigned(u: string) returns (i: string, f: string, e: string)
    requires IsUnsigned(u)
    ensures IsIntPart(i) && IsFracPart(f) && IsExpPart(e) && u == i + (f + e)
  {
    var n := DigitRun(u);
    DigitRunSplits(u);
    i := u[..n];
    f, e := SplitRest(u[n..]);
    assert i[0] == u[0];
    assert u == u[..n] + u[n..];
  }

  /** What is read as a number is one of the grammar. */
  lemma {:induction false} ReadNumberIsNumber(s: string)
    requires IsNumber(s)
    ensures IsNumberText(s)
  {
    var signed := s != "" && s[0] == '-';
    var minus := if signed then "-" else "";
    var i, f, e := SplitUnsigned(if signed then s[1..] else s);
    assert IsNumberOf(minus, i, f, e);
    assert s == minus + (i + (f + e));
  }

  /** The reader's number test is the grammar of section 6. */
  lemma {:induction false} NumberGrammar(s: string)
    ensures IsNumber(s) <==> IsNumberText(s)
  {
    if IsNumber(s) {
      ReadNumberIsNumber(s);
    }
    if IsNumberText(s) {
      var minus, i, f, e :| IsNumberOf(minus, i, f, e) && s == minus + (i + (f + e));
      NumberIsRead(minus, i, f, e);
    }
  }

  lemma {:induction false} LiteralNames()
    ensures IsAtom("null") && IsAtom("true") && IsAtom("false")
  {
  }

  // ---------------------------------------------------------------------------------------
  // Strings

  predicate IsHexDigit(c: char) {
    '0' <= c <= '9' || 'a' <= c <= 'f' || 'A' <= c <= 'F'
  }

  /** One char of a string: unescaped, a two-character escape, or \uXXXX. */
  predicate IsUnit(p: string) {
    || (|p| == 1 && p[0] >= ' ' && p[0] != '\"' && p[0] != '\\')
    || (|p| == 2 && p[0] == '\\' && p[1] in {'\"', '\\', '/', 'b', 'f', 'n', 'r', 't'})
    || (|p| == 6 && p[0] == '\\' && p[1] == 'u' && forall i :: 2 <= i < 6 ==> IsHexDigit(p[i]))
  }

  function Concat(pieces: seq<string>): string {
    if pieces == [] then "" else pieces[0] + Concat(pieces[1..])
  }

  /** string = quotation-mark *char quotation-mark, without the marks. */
  ghost predicate IsChars(s: string) {
    exists pieces: seq<string> :: AreUnits(pieces) && Concat(pieces) == s
  }

  predicate AreUnits(pieces: seq<string>) {
    forall i :: 0 <= i < |pieces| ==> IsUnit(pieces[i])
  }

  /** The first character is a unit, and every unit in front is the first character. */
  lemma {:induction false} FirstCharIsUnit(s: string)
    requires s != "" && CharLength(s).Some?
    ensures IsUnit(s[..CharLength(s).value])
  {
  }

  lemma {:induction false} UnitIsFirstChar(p: string, rest: string)
    requires IsUnit(p)
    ensures CharLength(p + rest) == Some(|p|) && (p + rest)[|p|..] == rest
  {
    assert forall i :: 0 <= i < |p| ==> (p + rest)[i] == p[i];
  }

  lemma {:induction false} UnitsAreBody(pieces: seq<string>)
    requires AreUnits(pieces)
    ensures IsBody(Concat(pieces))
  {
    if pieces != [] {
      UnitsAreBody(pieces[1..]);
      UnitIsFirstChar(pieces[0], Concat(pieces[1..]));
    }
  }

  lemma {:induction false} BodySplits(s: string) returns (pieces: seq<string>)
    requires IsBody(s)
    ensures AreUnits(pieces) && Concat(pieces) == s
    decreases |s|
  {
    if s == "" {
      pieces := [];
    } else {
      var k := CharLength(s).value;
      var rest := BodySplits(s[k..]);
      FirstCharIsUnit(s);
      pieces := [s[..k]] + rest;
      assert pieces[1..] == rest;
    }
  }

  /** The reader's string bodies are those of section 7. */
  lemma {:induction false} StringGrammar(s: string)
    ensures IsBody(s) <==> IsChars(s)
  {
    if IsBody(s) {
      var pieces := BodySplits(s);
    }
    if IsChars(s) {
      var pieces :| AreUnits(pieces) && Concat(pieces) == s;
      UnitsAreBody(pieces);
    }
  }
}
