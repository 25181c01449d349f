/**
 * Python's conversions between `int` and decimal text: `int(s)` for a value
 * taken from a query string and `"{}".format(n)` for an integer written into
 * a command or a response.
 */
module Decimal {
  import opened Wrappers

  predicate IsDigit(c: char)
  {
    '0' <= c <= '9'
  }

  predicate AllDigits(s: string)
  {
    forall i :: 0 <= i < |s| ==> IsDigit(s[i])
  }

  function DigitChar(d: nat): (c: char)
    requires d < 10
    ensures IsDigit(c)
  {
    ('0' as int + d) as char
  }

  function DigitValue(c: char): (d: nat)
    requires IsDigit(c)
    ensures d < 10 && DigitChar(d) == c
  {
    c as int - '0' as int
  }

  /** Decimal digits of `n`, most significant first, without leading zeros. */
  function NatText(n: nat): (r: string)
    ensures |r| > 0 && AllDigits(r)
    ensures |r| > 1 ==> r[0] != '0'
    decreases n
  {
    if n < 10 then [DigitChar(n)] else NatText(n / 10) + [DigitChar(n % 10)]
  }

  /** `"{}".format(n)` for an integer `n`: a minus sign, if negative, then the digits. */
  function Str(n: int): (r: string)
    ensures |r| > 0
    ensures forall i :: 0 <= i < |r| ==> IsDigit(r[i]) || (i == 0 && r[i] == '-')
  {
    if n < 0 then "-" + NatText(-n) else NatText(n)
  }

  /** The number a string of digits denotes (leading zeros allowed). */
  function DigitsValue(s: string): nat
    requires AllDigits(s)
    decreases |s|
  {
    if s == [] then 0 else DigitsValue(s[..|s| - 1]) * 10 + DigitValue(s[|s| - 1])
  }

  /** What `int(s)` accepts: an optional sign followed by at least one digit. */
  predicate IsDecimal(s: string)
  {
    if |s| > 0 && (s[0] == '-' || s[0] == '+') then |s| > 1 && AllDigits(s[1..])
    else |s| > 0 && AllDigits(s)
  }

  /** `int(s)`; `None` where Python raises `ValueError`. */
  function ParseInt(s: string): (r: Option<int>)
    ensures r.Some? <==> IsDecimal(s)
    ensures r.Some? && s[0] == '-' ==> r.value <= 0
    ensures r.Some? && s[0] != '-' ==> r.value >= 0
  {
    if s == [] then None
    else if s[0] == '-' || s[0] == '+' then
      var digits := s[1..];
      if digits != [] && AllDigits(digits) then
        var magnitude: int := DigitsValue(digits);
        Some(if s[0] == '-' then -magnitude else magnitude)
      else None
    else if AllDigits(s) then Some(DigitsValue(s))
    else None
  }

  lemma {:induction false} NatTextValue(n: nat)
    ensures DigitsValue(NatText(n)) == n
    decreases n
  {
    var r := NatText(n);
    if n >= 10 {
      NatTextValue(n / 10);
      assert r[..|r| - 1] == NatText(n / 10);
    }
  }

  /** Writing an integer and reading it back gives the same integer. */
  lemma ParseStr(n: int)
    ensures ParseInt(Str(n)) == Some(n)
  {
    NatTextValue(if n < 0 then -n else n);
    if n < 0 {
      assert Str(n)[1..] == NatText(-n);
    }
  }

  /** A digit string with no leading zero starting in a non-zero digit has a positive value. */
  lemma {:induction false} LeadingDigitPositive(s: string)
    requires |s| > 0 && AllDigits(s) && s[0] != '0'
    ensures DigitsValue(s) > 0
    decreases |s|
  {
    if |s| > 1 {
      LeadingDigitPositive(s[..|s| - 1]);
    }
  }

  lemma {:induction false} DigitsText(s: string)
    requires |s| > 0 && AllDigits(s) && (|s| > 1 ==> s[0] != '0')
    ensures NatText(DigitsValue(s)) == s
    decreases |s|
  {
    if |s| > 1 {
      var init, d := s[..|s| - 1], DigitValue(s[|s| - 1]);
      DigitsText(init);
      LeadingDigitPositive(init);
      var v := DigitsValue(init) * 10 + d;
      assert v / 10 == DigitsValue(init) && v % 10 == d;
      assert init + [s[|s| - 1]] == s;
    }
  }

  /** The text `"{}".format` produces: no '+', no leading zeros, no "-0". */
  predicate IsCanonical(s: string)
  {
    if |s| > 0 && s[0] == '-' then |s| > 1 && AllDigits(s[1..]) && s[1] != '0'
    else |s| > 0 && AllDigits(s) && (|s| > 1 ==> s[0] != '0')
  }

  /** The converse round trip: a canonical numeral is exactly how its value is written. */
  lemma StrParse(s: string)
    requires IsCanonical(s)
    ensures ParseInt(s).Some? && Str(ParseInt(s).value) == s
  {
    if s[0] == '-' {
      DigitsText(s[1..]);
      LeadingDigitPositive(s[1..]);
      assert "-" + s[1..] == s;
    } else {
      DigitsText(s);
    }
  }

  predicate AllZeros(z: string)
  {
    forall i :: 0 <= i < |z| ==> z[i] == '0'
  }

  lemma {:induction false} ZerosValue(zeros: string)
    requires AllZeros(zeros)
    ensures AllDigits(zeros) && DigitsValue(zeros) == 0
    decreases |zeros|
  {
    if zeros != [] {
      ZerosValue(zeros[..|zeros| - 1]);
    }
  }

  /** Leading zeros do not change the value of a digit string. */
  lemma {:induction false} LeadingZerosValue(zeros: string, t: string)
    requires AllZeros(zeros) && AllDigits(t)
    ensures AllDigits(zeros + t) && DigitsValue(zeros + t) == DigitsValue(t)
    decreases |t|
  {
    var s := zeros + t;
    if t == [] {
      assert s == zeros;
      ZerosValue(zeros);
    } else {
      LeadingZerosValue(zeros, t[..|t| - 1]);
      assert s[..|s| - 1] == zeros + t[..|t| - 1];
      assert s[|s| - 1] == t[|t| - 1];
    }
  }

  /**
   * The value `int()` gives for any accepted text: an optional sign, any run
   * of leading zeros, then the digits of `n`.
   */
  /** `int()` on a sign followed by digits. */
  lemma ParseSigned(sign: string, digits: string)
    requires sign == "" || sign == "+" || sign == "-"
    requires |digits| > 0 && AllDigits(digits)
    ensures ParseInt(sign + digits) == Some(if sign == "-" then -(DigitsValue(digits) as int) else DigitsValue(digits) as int)
  {
    if sign == "" {
      assert sign + digits == digits;
      assert IsDigit(digits[0]);
    } else {
      assert (sign + digits)[0] == sign[0] && (sign + digits)[1..] == digits;
    }
  }

  lemma ParseIntValue(sign: string, zeros: string, n: nat)
    requires sign == "" || sign == "+" || sign == "-"
    requires AllZeros(zeros)
    ensures ParseInt(sign + zeros + NatText(n)) == Some(if sign == "-" then -(n as int) else n as int)
  {
    var t := NatText(n);
    assert AllDigits(zeros + t) && DigitsValue(zeros + t) == n by {
      LeadingZerosValue(zeros, t);
      NatTextValue(n);
    }
    assert ParseInt(sign + (zeros + t)) == Some(if sign == "-" then -(n as int) else n as int) by {
      ParseSigned(sign, zeros + t);
    }
    assert sign + zeros + t == sign + (zeros + t);
  }

  /** A non-empty digit string is a run of zeros followed by a numeral without a leading zero. */
  lemma {:induction false} ZerosThenNumeral(d: string) returns (k: nat)
    requires |d| > 0 && AllDigits(d)
    ensures k < |d| && AllZeros(d[..k]) && (|d| - k > 1 ==> d[k] != '0')
    decreases |d|
  {
    if |d| == 1 || d[0] != '0' {
      k := 0;
    } else {
      var k' := ZerosThenNumeral(d[1..]);
      k := k' + 1;
      assert d[..k] == [d[0]] + d[1..][..k'];
      assert d[k] == d[1..][k'];
    }
  }

  /** `s` is `sign`, then the run of zeros `zeros`, then the digits of `n`. */
  predicate DecimalForm(s: string, sign: string, zeros: string, n: nat)
  {
    && (sign == "" || sign == "+" || sign == "-")
    && AllZeros(zeros) && s == sign + zeros + NatText(n)
  }

  lemma DigitsParts(d: string) returns (zeros: string, n: nat)
    requires |d| > 0 && AllDigits(d)
    ensures AllZeros(zeros) && d == zeros + NatText(n)
  {
    var k := ZerosThenNumeral(d);
    zeros := d[..k];
    n := DigitsValue(d[k..]);
    assert NatText(n) == d[k..] by {
      DigitsText(d[k..]);
    }
    assert d == zeros + d[k..];
  }

  lemma DecimalParts(s: string) returns (sign: string, zeros: string, n: nat)
    requires IsDecimal(s)
    ensures DecimalForm(s, sign, zeros, n)
  {
    var d;
    if s[0] == '-' || s[0] == '+' {
      sign, d := [s[0]], s[1..];
      assert s == sign + d;
    } else {
      sign, d := "", s;
      assert s == sign + d;
    }
    zeros, n := DigitsParts(d);
  }

  /** Every text `int()` accepts has the form covered by `ParseIntValue`. */
  lemma AcceptedTextForm(s: string)
    requires IsDecimal(s)
    ensures exists sign: string, zeros: string, n: nat :: DecimalForm(s, sign, zeros, n)
  {
    var sign, zeros, n := DecimalParts(s);
  }
}
