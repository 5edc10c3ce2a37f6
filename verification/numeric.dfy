/**
  Decimal integers as Go's `strconv` reads and writes them: `ParseInt(s, 10, 64)`
  (which `Atoi` equals on a 64-bit platform) and `FormatInt(n, 10)`.
 */
module Numeric {
  import opened Common

  predicate IsDigit(c: char) {
    '0' <= c <= '9'
  }

  predicate AllDigits(s: string) {
    forall i :: 0 <= i < |s| ==> IsDigit(s[i])
  }

  function DigitValue(c: char): nat
    requires IsDigit(c)
  {
    c as int - '0' as int
  }

  function DigitChar(d: nat): char
    requires d < 10
  {
    ('0' as int + d) as char
  }

  /** The value of a string of decimal digits, most significant first. */
  function DigitsValue(s: string): nat
    requires AllDigits(s)
    decreases |s|
  {
    if |s| == 0 then 0
    else DigitsValue(s[..|s| - 1]) * 10 + DigitValue(s[|s| - 1])
  }

  /**
    `strconv.ParseInt(s, 10, 64)`: an optional sign, then at least one
    decimal digit and nothing else, whose value fits in an int64. None is
    Go's error (syntax or range).
   */
  function ParseInt64(s: string): Option<Int64> {
    var negative := |s| > 0 && s[0] == '-';
    var body := if |s| > 0 && (s[0] == '+' || s[0] == '-') then s[1..] else s;
    if |body| == 0 || !AllDigits(body) then None
    else
      var v: int := if negative then 0 - DigitsValue(body) as int else DigitsValue(body);
      if MinInt64 <= v <= MaxInt64 then Some(v) else None
  }

  /** The shortest decimal spelling of `n`. */
  function Digits(n: nat): (s: string)
    ensures |s| >= 1 && AllDigits(s)
    ensures DigitsValue(s) == n
    decreases n
  {
    if n < 10 then [DigitChar(n)]
    else
      var s := Digits(n / 10) + [DigitChar(n % 10)];
      assert s[..|s| - 1] == Digits(n / 10);
      s
  }

  /** `strconv.FormatInt(n, 10)`. */
  function FormatInt(n: int): string {
    if n < 0 then "-" + Digits(-n) else Digits(n)
  }

  /** Every int64 survives formatting and parsing back. */
  lemma FormatThenParse(n: Int64)
    ensures ParseInt64(FormatInt(n)) == Some(n)
  {
    var s := FormatInt(n);
    if n < 0 {
      var m: int := n;
      var d := Digits(-m);
      assert s == "-" + d;
      assert s[1..] == d;
    } else {
      var d := Digits(n);
      assert IsDigit(d[0]);
    }
  }

  /** A parsed string is an optional sign followed by at least one digit. */
  lemma ParsedIsDecimal(s: string)
    requires ParseInt64(s).Some?
    ensures |s| >= 1
    ensures IsDigit(s[0]) || s[0] == '+' || s[0] == '-'
    ensures forall i :: 1 <= i < |s| ==> IsDigit(s[i])
    ensures !IsDigit(s[0]) ==> |s| >= 2
  {
    if !(s[0] == '+' || s[0] == '-') {
      assert IsDigit(s[0]);
    } else {
      forall i | 1 <= i < |s| ensures IsDigit(s[i]) {
        assert s[1..][i - 1] == s[i];
      }
    }
  }
}
