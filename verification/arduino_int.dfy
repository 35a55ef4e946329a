/** Arduino `String::toInt`, which hands the buffer to C's `atol`: leading
    white space is skipped, one optional sign is read, then the longest run
    of decimal digits; a string with no such digits reads as 0. Integers are
    unbounded here, so `long` overflow is not modelled. */
module ArduinoInt {

  /** The characters C's `isspace` accepts in the "C" locale. */
  predicate IsSpace(c: char) {
    c == ' ' || c == '\t' || c == '\n' || c == '\r' || c == '\U{000B}' || c == '\U{000C}'
  }

  predicate IsDigit(c: char) {
    '0' <= c <= '9'
  }

  predicate AllDigits(s: string) {
    forall i :: 0 <= i < |s| ==> IsDigit(s[i])
  }

  function DigitValue(c: char): (d: nat)
    requires IsDigit(c)
    ensures d < 10
  {
    (c as int) - ('0' as int)
  }

  function DigitChar(d: nat): (c: char)
    requires d < 10
    ensures IsDigit(c) && DigitValue(c) == d
  {
    ('0' as int + d) as char
  }

  /** `s` with its leading white space removed. */
  function SkipSpaces(s: string): (t: string)
    ensures |t| <= |s| && t == s[|s| - |t|..]
    ensures forall i :: 0 <= i < |s| - |t| ==> IsSpace(s[i])
    ensures |t| == 0 || !IsSpace(t[0])
  {
    if |s| > 0 && IsSpace(s[0]) then SkipSpaces(s[1..]) else s
  }

  /** Length of the longest prefix of `s` made of decimal digits. */
  function DigitRun(s: string): (n: nat)
    ensures n <= |s|
    ensures AllDigits(s[..n])
    ensures n == |s| || !IsDigit(s[n])
  {
    if |s| > 0 && IsDigit(s[0]) then
      var m := DigitRun(s[1..]);
      assert s[..m + 1] == [s[0]] + s[1..][..m];
      m + 1
    else 0
  }

  /** The number a string of digits spells, most significant digit first. */
  function DigitsValue(ds: string): nat
    requires AllDigits(ds)
  {
    if |ds| == 0 then 0
    else DigitsValue(ds[..|ds| - 1]) * 10 + DigitValue(ds[|ds| - 1])
  }

  /** The value of the digit run at the front of `s` (0 when there is none). */
  function Magnitude(s: string): nat {
    DigitsValue(s[..DigitRun(s)])
  }

  /** `String::toInt` of `s`. */
  function ToInt(s: string): (n: int)
    ensures var t := SkipSpaces(s);
      (|t| == 0 || (t[0] != '-' && t[0] != '+' && !IsDigit(t[0]))) ==> n == 0
  {
    var t := SkipSpaces(s);
    if |t| > 0 && t[0] == '-' then 0 - Magnitude(t[1..])
    else if |t| > 0 && t[0] == '+' then Magnitude(t[1..])
    else Magnitude(t)
  }

  /** Decimal digits of a natural number, most significant first, with no
      leading zeros. */
  function NatDigits(n: nat): (ds: string)
    ensures |ds| > 0 && AllDigits(ds)
  {
    if n < 10 then [DigitChar(n)]
    else NatDigits(n / 10) + [DigitChar(n % 10)]
  }

  /** The decimal text of an integer, with a leading '-' when negative. */
  function Decimal(n: int): (s: string)
    ensures |s| > 0 && (s[0] == '-' || IsDigit(s[0]))
    ensures ' ' !in s
  {
    if n < 0 then "-" + NatDigits(-n) else NatDigits(n)
  }

  lemma {:induction false} NatDigitsValue(n: nat)
    ensures DigitsValue(NatDigits(n)) == n
  {
    var ds := NatDigits(n);
    if n >= 10 {
      NatDigitsValue(n / 10);
      assert ds[..|ds| - 1] == NatDigits(n / 10);
      assert ds[|ds| - 1] == DigitChar(n % 10);
    }
  }

  lemma MagnitudeOfDigits(ds: string)
    requires AllDigits(ds)
    ensures Magnitude(ds) == DigitsValue(ds)
  {
    assert ds[..DigitRun(ds)] == ds;
  }

  /** `toInt` reads back every integer from its decimal text. */
  lemma ToIntDecimal(n: int)
    ensures ToInt(Decimal(n)) == n
  {
    var s := Decimal(n);
    assert !IsSpace(s[0]);
    assert SkipSpaces(s) == s;
    if n < 0 {
      var ds := NatDigits(-n);
      assert s[1..] == ds;
      MagnitudeOfDigits(ds);
      NatDigitsValue(-n);
      assert ToInt(s) == 0 - Magnitude(ds);
    } else {
      var ds := NatDigits(n);
      assert s[0] != '-' && s[0] != '+';
      MagnitudeOfDigits(ds);
      NatDigitsValue(n);
      assert ToInt(s) == Magnitude(ds);
    }
  }

  /** The digit run ends where the digits do. */
  lemma {:induction false} DigitRunStops(ds: string, rest: string)
    requires AllDigits(ds) && (|rest| == 0 || !IsDigit(rest[0]))
    ensures DigitRun(ds + rest) == |ds|
  {
    if |ds| == 0 {
      assert ds + rest == rest;
    } else {
      assert (ds + rest)[0] == ds[0];
      assert (ds + rest)[1..] == ds[1..] + rest;
      DigitRunStops(ds[1..], rest);
    }
  }

  /** The magnitude is read from the digits alone, whatever follows them. */
  lemma MagnitudeStops(ds: string, rest: string)
    requires AllDigits(ds) && (|rest| == 0 || !IsDigit(rest[0]))
    ensures Magnitude(ds + rest) == DigitsValue(ds)
  {
    DigitRunStops(ds, rest);
    assert (ds + rest)[..|ds|] == ds;
  }

  /** A text that starts with a sign reads as that sign applied to the
      magnitude after it. */
  lemma ToIntSigned(sign: char, body: string)
    requires sign == '-' || sign == '+'
    ensures ToInt([sign] + body) == if sign == '-' then 0 - Magnitude(body) else Magnitude(body)
  {
    var s := [sign] + body;
    assert SkipSpaces(s) == s by { assert !IsSpace(s[0]); }
    assert s[1..] == body;
  }

  /** A text that starts with a digit reads as its magnitude. */
  lemma ToIntUnsigned(s: string)
    requires |s| > 0 && IsDigit(s[0])
    ensures ToInt(s) == Magnitude(s)
  {
    assert SkipSpaces(s) == s by { assert !IsSpace(s[0]); }
  }

  /** Digits followed by a non-digit read as the digits' value. */
  lemma ToIntDigitsThen(ds: string, rest: string)
    requires |ds| > 0 && AllDigits(ds) && (|rest| == 0 || !IsDigit(rest[0]))
    ensures ToInt(ds + rest) == DigitsValue(ds)
  {
    MagnitudeStops(ds, rest);
    assert (ds + rest)[0] == ds[0];
    ToIntUnsigned(ds + rest);
  }

  /** `toInt` stops at the first character after the number: the decimal
      text of `n` followed by anything that does not start with a digit reads
      as `n`. */
  lemma ToIntStopsAfterNumber(n: int, rest: string)
    requires |rest| == 0 || !IsDigit(rest[0])
    ensures ToInt(Decimal(n) + rest) == n
  {
    if n < 0 {
      var ds := NatDigits(-n);
      MagnitudeStops(ds, rest);
      NatDigitsValue(-n);
      assert Decimal(n) + rest == ['-'] + (ds + rest);
      ToIntSigned('-', ds + rest);
    } else {
      var ds := NatDigits(n);
      NatDigitsValue(n);
      assert Decimal(n) + rest == ds + rest;
      ToIntDigitsThen(ds, rest);
    }
  }

  /** A plus sign in front of a non-negative number is accepted. */
  lemma ToIntPlusSign(n: nat, rest: string)
    requires |rest| == 0 || !IsDigit(rest[0])
    ensures ToInt("+" + Decimal(n) + rest) == n
  {
    var ds := NatDigits(n);
    MagnitudeStops(ds, rest);
    NatDigitsValue(n);
    assert "+" + Decimal(n) + rest == ['+'] + (ds + rest);
    ToIntSigned('+', ds + rest);
  }

  /** White space ahead of the number does not change what is read. */
  lemma ToIntSkipsLeadingSpaces(pad: string, s: string)
    requires forall i :: 0 <= i < |pad| ==> IsSpace(pad[i])
    ensures ToInt(pad + s) == ToInt(s)
  {
    SkipSpacesPad(pad, s);
    assert SkipSpaces(pad + s) == SkipSpaces(s);
  }

  lemma {:induction false} SkipSpacesPad(pad: string, s: string)
    requires forall i :: 0 <= i < |pad| ==> IsSpace(pad[i])
    ensures SkipSpaces(pad + s) == SkipSpaces(s)
  {
    if |pad| == 0 {
      assert pad + s == s;
    } else {
      assert (pad + s)[0] == pad[0];
      assert (pad + s)[1..] == pad[1..] + s;
      SkipSpacesPad(pad[1..], s);
    }
  }
}
