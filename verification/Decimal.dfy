/** Decimal integers as strconv writes and reads them. */
module Decimal {
  import opened Base
  import opened Json

  function DigitChar(d: int): char
    requires 0 <= d < 10
  {
    ('0' as int + d) as char
  }

  function Digits(n: nat): string {
    if n < 10 then [DigitChar(n)] else Digits(n / 10) + [DigitChar(n % 10)]
  }

  /** strconv.AppendInt(nil, n, 10) */
  function FormatInt(n: int): string {
    if n < 0 then ['-'] + Digits(-n) else Digits(n)
  }

  predicate AllDigits(s: string) {
    forall i :: 0 <= i < |s| ==> IsDigit(s[i])
  }

  function DigitsValue(s: string): (n: int)
    requires AllDigits(s)
    ensures n >= 0
  {
    if s == "" then 0 else 10 * DigitsValue(s[..|s| - 1]) + (s[|s| - 1] as int - '0' as int)
  }

  /** strconv.ParseInt without its range check: an optional sign and at least one digit. */
  function ParseInt(s: string): Option<int> {
    var digits := if s != "" && (s[0] == '-' || s[0] == '+') then s[1..] else s;
    if digits == "" || !AllDigits(digits) then None
    else Some(if s[0] == '-' then -DigitsValue(digits) else DigitsValue(digits))
  }

  lemma {:induction false} DigitsRoundTrip(n: nat)
    ensures Digits(n) != "" && AllDigits(Digits(n)) && DigitsValue(Digits(n)) == n
    ensures n > 0 ==> Digits(n)[0] != '0'
    ensures n == 0 ==> Digits(n) == "0"
  {
    if n >= 10 {
      DigitsRoundTrip(n / 10);
      var s := Digits(n);
      assert s[..|s| - 1] == Digits(n / 10);
    } else {
      assert Digits(n)[..0] == "";
    }
  }

  lemma {:induction false} ParseSignedDigits(digits: string)
    requires digits != "" && AllDigits(digits)
    ensures ParseInt(digits) == Some(DigitsValue(digits))
    ensures ParseInt(['-'] + digits) == Some(-DigitsValue(digits))
  {
    assert (['-'] + digits)[1..] == digits;
  }

  /** Reading back what was written gives the number. */
  lemma {:induction false} IntRoundTrip(n: int)
    ensures ParseInt(FormatInt(n)) == Some(n)
  {
    var magnitude := if n < 0 then -n else n;
    DigitsRoundTrip(magnitude);
    ParseSignedDigits(Digits(magnitude));
  }

  lemma {:induction false} DigitRunIsAll(s: string)
    requires AllDigits(s)
    ensures DigitRun(s) == |s|
  {
    if s != "" {
      DigitRunIsAll(s[1..]);
    }
  }

  lemma {:induction false} DigitsAreNumber(digits: string)
    requires digits != "" && AllDigits(digits) && (digits[0] == '0' ==> |digits| == 1)
    ensures IsNumber(digits) && IsNumber(['-'] + digits)
  {
    DigitRunIsAll(digits);
    assert digits[|digits|..] == "";
    assert (['-'] + digits)[1..] == digits;
  }

  lemma {:induction false} FormatIntIsAtom(n: int)
    ensures IsAtom(FormatInt(n)) && FormatInt(n) != "null"
  {
    var magnitude := if n < 0 then -n else n;
    DigitsRoundTrip(magnitude);
    DigitsAreNumber(Digits(magnitude));
    assert FormatInt(n)[0] != 'n';
  }

  /** What is read as an integer: an optional sign and at least one digit, whatever its zeros. */
  lemma {:induction false} IntegerGrammar(s: string)
    ensures ParseInt(s).Some? <==>
      && s != ""
      && ((AllDigits(s[1..]) && IsDigit(s[0])) || (|s| >= 2 && (s[0] == '-' || s[0] == '+') && AllDigits(s[1..])))
  {
    if s != "" && IsDigit(s[0]) && AllDigits(s[1..]) {
      assert forall i :: 0 < i < |s| ==> s[i] == s[1..][i - 1];
    }
  }

  /** A plus sign and leading zeros do not change the number. */
  lemma {:induction false} PlusAndZerosAreIgnored(n: nat)
    ensures ParseInt(['+'] + Digits(n)) == Some(n) && ParseInt(['0'] + Digits(n)) == Some(n)
  {
    DigitsRoundTrip(n);
    assert (['+'] + Digits(n))[1..] == Digits(n);
    LeadingZero(Digits(n));
    ParseSignedDigits(['0'] + Digits(n));
  }

  lemma {:induction false} LeadingZero(digits: string)
    requires AllDigits(digits)
    ensures AllDigits(['0'] + digits) && DigitsValue(['0'] + digits) == DigitsValue(digits)
  {
    var s := ['0'] + digits;
    if digits == "" {
      assert s[..0] == "";
    } else {
      assert s[..|s| - 1] == ['0'] + digits[..|digits| - 1];
      LeadingZero(digits[..|digits| - 1]);
    }
  }
}
