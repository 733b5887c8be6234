/** `str(int)` and `int(str)` in base 10, as the settings and the request parameters use them. */
module Decimal {
  import opened Wrappers
  import opened Text

  predicate IsDigit(c: char) {
    '0' <= c <= '9'
  }

  function DigitChar(d: nat): (c: char)
    requires d < 10
    ensures IsDigit(c) && (c as int) - ('0' as int) == d
  {
    ('0' as int + d) as char
  }

  /** The number written by the decimal digits of `s`; underscores are skipped. */
  function DigitsValue(s: string): nat {
    if s == [] then 0
    else if IsDigit(s[|s| - 1]) then DigitsValue(s[..|s| - 1]) * 10 + ((s[|s| - 1] as int) - ('0' as int))
    else DigitsValue(s[..|s| - 1])
  }

  /** Base-10 digits as `int()` accepts them: single underscores only between two digits. */
  predicate WellFormedDigits(s: string) {
    |s| > 0 && IsDigit(s[0]) && DigitsAfterDigit(s[1..])
  }

  /** What may follow a digit: nothing, a digit, or an underscore and a digit. */
  predicate DigitsAfterDigit(s: string)
    decreases |s|
  {
    || s == []
    || (IsDigit(s[0]) && DigitsAfterDigit(s[1..]))
    || (|s| > 1 && s[0] == '_' && IsDigit(s[1]) && DigitsAfterDigit(s[2..]))
  }

  lemma {:induction false} AllDigitsWellFormed(s: string)
    requires forall i :: 0 <= i < |s| ==> IsDigit(s[i])
    ensures DigitsAfterDigit(s)
  {
    if s != [] {
      AllDigitsWellFormed(s[1..]);
    }
  }

  /** `str(n)` for a natural number. */
  function NatToDecimal(n: nat): (r: string)
    ensures |r| > 0
    ensures forall i :: 0 <= i < |r| ==> IsDigit(r[i])
    ensures DigitsValue(r) == n
  {
    if n < 10 then [DigitChar(n)]
    else
      var prefix := NatToDecimal(n / 10);
      var r := prefix + [DigitChar(n % 10)];
      assert r[..|r| - 1] == prefix;
      r
  }

  /** `str(n)` for an integer. */
  function IntToDecimal(n: int): (r: string)
    ensures |r| > 0 && IsDigit(r[|r| - 1])
    ensures (r[0] == '-') <==> n < 0
  {
    if n < 0 then "-" + NatToDecimal(-n) else NatToDecimal(n)
  }

  /**
   * The most digits CPython converts between `int` and `str` by default
   * (`sys.int_info.default_max_str_digits`); beyond it both raise ValueError.
   */
  const MaxStrDigits: nat := 4300

  /** The number of decimal digits in `s`; underscores do not count. */
  function DigitCount(s: string): nat {
    if s == [] then 0
    else DigitCount(s[..|s| - 1]) + (if IsDigit(s[|s| - 1]) then 1 else 0)
  }

  function Pow10(k: nat): nat {
    if k == 0 then 1 else 10 * Pow10(k - 1)
  }

  /** `str(n)` does not raise: `|n|` has at most `MaxStrDigits` decimal digits. */
  predicate WithinStrLimit(n: int) {
    |NatToDecimal(if n < 0 then -n else n)| <= MaxStrDigits
  }

  /**
   * `int(s)` in base 10: surrounding whitespace, an optional sign, digits, at most
   * `MaxStrDigits` of them; None where Python raises ValueError.
   */
  function ParseInt(raw: string): Option<int> {
    ParseSignedDigits(Strip(raw))
  }

  /** An optional sign and well-formed digits, not too many; anything else is rejected. */
  function ParseSignedDigits(t: string): Option<int> {
    var signed := t != [] && (t[0] == '-' || t[0] == '+');
    var digits := if signed then t[1..] else t;
    if !WellFormedDigits(digits) || DigitCount(digits) > MaxStrDigits then None
    else if signed && t[0] == '-' then Some(0 - DigitsValue(digits))
    else Some(DigitsValue(digits))
  }

  /** In a run of digits every character counts. */
  lemma {:induction false} DigitCountAll(s: string)
    requires forall i :: 0 <= i < |s| ==> IsDigit(s[i])
    ensures DigitCount(s) == |s|
  {
    if s != [] {
      DigitCountAll(s[..|s| - 1]);
    }
  }

  /** Text that starts with a digit has at least one. */
  lemma {:induction false} DigitCountPositive(s: string)
    requires s != [] && IsDigit(s[0])
    ensures DigitCount(s) >= 1
  {
    if |s| > 1 {
      var p := s[..|s| - 1];
      assert p[0] == s[0];
      DigitCountPositive(p);
    }
  }

  /** `k` digits denote less than `10^k`. */
  lemma {:induction false} DigitsBelow(s: string)
    ensures DigitsValue(s) < Pow10(DigitCount(s))
  {
    if s != [] {
      DigitsBelow(s[..|s| - 1]);
    }
  }

  /** A number below `10^k` is written with at most `k` digits. */
  lemma {:induction false} ShortDecimal(n: nat, k: nat)
    requires k >= 1 && n < Pow10(k)
    ensures |NatToDecimal(n)| <= k
  {
    if n >= 10 {
      assert k >= 2;
      ShortDecimal(n / 10, k - 1);
    }
  }

  /** Every integer `int()` returns can be written back by `str()`. */
  lemma ParsedWithinStrLimit(raw: string)
    requires ParseInt(raw).Some?
    ensures WithinStrLimit(ParseInt(raw).value)
  {
    var t := Strip(raw);
    var signed := t != [] && (t[0] == '-' || t[0] == '+');
    var digits := if signed then t[1..] else t;
    DigitCountPositive(digits);
    DigitsBelow(digits);
    ShortDecimal(DigitsValue(digits), DigitCount(digits));
  }

  /** Digits carry no whitespace to strip. */
  lemma StripDigits(t: string)
    requires |t| > 0 && IsDigit(t[0]) && IsDigit(t[|t| - 1])
    ensures Strip(t) == t
  {
    assert !IsSpace(t[0]) && !IsSpace(t[|t| - 1]);
  }

  /** A non-empty run of at most `MaxStrDigits` digits parses to its value. */
  lemma ParseDigits(digits: string)
    requires 0 < |digits| <= MaxStrDigits && forall i :: 0 <= i < |digits| ==> IsDigit(digits[i])
    ensures ParseInt(digits) == Some(DigitsValue(digits))
  {
    StripDigits(digits);
    UnsignedDigits(digits);
  }

  lemma UnsignedDigits(digits: string)
    requires 0 < |digits| <= MaxStrDigits && forall i :: 0 <= i < |digits| ==> IsDigit(digits[i])
    ensures ParseSignedDigits(digits) == Some(DigitsValue(digits))
  {
    assert digits[0] != '-' && digits[0] != '+';
    AllDigitsWellFormed(digits[1..]);
    DigitCountAll(digits);
  }

  /** More than `MaxStrDigits` digits are refused. */
  lemma TooManyDigits(digits: string)
    requires |digits| > MaxStrDigits && forall i :: 0 <= i < |digits| ==> IsDigit(digits[i])
    ensures ParseInt(digits) == None
  {
    StripDigits(digits);
    assert digits[0] != '-' && digits[0] != '+';
    DigitCountAll(digits);
  }

  /** So are more than `MaxStrDigits` digits after a minus sign. */
  lemma TooManyNegativeDigits(t: string)
    requires |t| > MaxStrDigits + 1 && t[0] == '-' && forall i :: 1 <= i < |t| ==> IsDigit(t[i])
    ensures ParseInt(t) == None
  {
    NegativeStripped(t);
    DigitCountAll(t[1..]);
  }

  /** A minus sign followed by a non-empty run of at most `MaxStrDigits` digits parses to minus their value. */
  lemma ParseNegativeDigits(t: string)
    requires 1 < |t| <= MaxStrDigits + 1 && t[0] == '-' && forall i :: 1 <= i < |t| ==> IsDigit(t[i])
    ensures ParseInt(t) == Some(0 - DigitsValue(t[1..]))
  {
    NegativeStripped(t);
    NegativeSigned(t);
  }

  /** A minus sign and a text ending in a digit carry no whitespace to strip. */
  lemma NegativeStripped(t: string)
    requires |t| > 1 && t[0] == '-' && IsDigit(t[|t| - 1])
    ensures Strip(t) == t
  {
    assert !IsSpace(t[0]) && !IsSpace(t[|t| - 1]);
    StripUnpadded(t);
  }

  lemma NegativeSigned(t: string)
    requires 1 < |t| <= MaxStrDigits + 1 && t[0] == '-' && forall i :: 1 <= i < |t| ==> IsDigit(t[i])
    ensures ParseSignedDigits(t) == Some(0 - DigitsValue(t[1..]))
  {
    var digits := t[1..];
    assert WellFormedDigits(digits) by { AllDigitsWellFormed(digits[1..]); }
    DigitCountAll(digits);
  }

  /** `int(str(n)) == n` wherever `str(n)` does not raise. */
  lemma IntToDecimalRoundTrip(n: int)
    requires WithinStrLimit(n)
    ensures ParseInt(IntToDecimal(n)) == Some(n)
  {
    if n < 0 {
      var t := IntToDecimal(n);
      assert t[1..] == NatToDecimal(-n);
      ParseNegativeDigits(t);
    } else {
      ParseDigits(NatToDecimal(n));
    }
  }
}
