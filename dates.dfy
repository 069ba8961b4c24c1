/**
 * Calendar dates as the task tracker uses them: due dates and date filters
 * are ISO 8601 date-only strings (`YYYY-MM-DD`), the value an HTML date
 * input produces, and they are compared as calendar days.
 */
module Dates {
  import opened Wrappers

  datatype Date = Date(year: nat, month: nat, day: nat)

  /** A date a four-digit ISO string can denote. */
  predicate Valid(d: Date) {
    d.year <= 9999 && 1 <= d.month <= 12 && 1 <= d.day <= 31
  }

  /** `a` is a strictly earlier calendar day than `b` (year, then month, then day). */
  predicate Precedes(a: Date, b: Date) {
    a.year < b.year ||
    (a.year == b.year && (a.month < b.month || (a.month == b.month && a.day < b.day)))
  }

  predicate OnOrBefore(a: Date, b: Date) {
    !Precedes(b, a)
  }

  /** Calendar order is a strict total order. */
  lemma PrecedesStrictTotal(a: Date, b: Date, c: Date)
    ensures !Precedes(a, a)
    ensures Precedes(a, b) && Precedes(b, c) ==> Precedes(a, c)
    ensures a == b || Precedes(a, b) || Precedes(b, a)
  {
  }

  predicate IsDigit(c: char) {
    '0' <= c <= '9'
  }

  predicate AllDigits(s: string) {
    forall i :: 0 <= i < |s| ==> IsDigit(s[i])
  }

  function DigitValue(c: char): nat {
    if IsDigit(c) then c as int - '0' as int else 0
  }

  /** The number a string of decimal digits denotes. */
  function DigitsValue(s: string): nat
    decreases |s|
  {
    if s == [] then 0 else DigitsValue(s[..|s| - 1]) * 10 + DigitValue(s[|s| - 1])
  }

  lemma LastDigitSplit(a: nat, b: nat, c: nat, d: nat)
    requires b < 10 && d < 10 && a * 10 + b == c * 10 + d
    ensures a == c && b == d
  {
  }

  /** Digit strings of one length denote distinct numbers. */
  lemma {:induction false} DigitsInjective(x: string, y: string)
    requires |x| == |y| && AllDigits(x) && AllDigits(y)
    requires DigitsValue(x) == DigitsValue(y)
    ensures x == y
    decreases |x|
  {
    if x != [] {
      var n := |x|;
      var x', y' := x[..n - 1], y[..n - 1];
      assert IsDigit(x[n - 1]) && IsDigit(y[n - 1]);
      LastDigitSplit(DigitsValue(x'), DigitValue(x[n - 1]), DigitsValue(y'), DigitValue(y[n - 1]));
      assert AllDigits(x') && AllDigits(y');
      DigitsInjective(x', y');
      assert x[n - 1] == y[n - 1];
      assert x == x' + [x[n - 1]] && y == y' + [y[n - 1]];
    }
  }

  /** `s` has the shape `DDDD-DD-DD`. */
  predicate IsIsoShape(s: string) {
    |s| == 10 && s[4] == '-' && s[7] == '-' &&
    AllDigits(s[..4]) && AllDigits(s[5..7]) && AllDigits(s[8..])
  }

  /**
   * What `new Date(s)` makes of a date-only string: a calendar day when `s`
   * is `YYYY-MM-DD` with a month in 1..12 and a day in 1..31, otherwise an
   * invalid date (None).
   */
  function ParseIsoDate(s: string): (r: Option<Date>)
    ensures r.Some? ==> IsIsoShape(s) && Valid(r.value)
  {
    if IsIsoShape(s) then
      FourDigitsBound(s[..4]);
      var d := Date(DigitsValue(s[..4]), DigitsValue(s[5..7]), DigitsValue(s[8..]));
      if 1 <= d.month <= 12 && 1 <= d.day <= 31 then Some(d) else None
    else None
  }

  lemma {:induction false} FourDigitsBound(s: string)
    requires |s| == 4 && AllDigits(s)
    ensures DigitsValue(s) <= 9999
  {
    var s3 := s[..3];
    var s2 := s3[..2];
    var s1 := s2[..1];
    assert DigitsValue(s1[..0]) == 0;
    assert DigitsValue(s1) <= 9;
    assert DigitsValue(s2) <= 99;
    assert DigitsValue(s3) <= 999;
  }

  /** The fields of a `DDDD-DD-DD` string, digit by digit in base ten. */
  lemma IsoFields(s: string)
    requires IsIsoShape(s)
    ensures ParseIsoDate(s) ==
      var year := 1000 * DigitValue(s[0]) + 100 * DigitValue(s[1]) + 10 * DigitValue(s[2]) + DigitValue(s[3]);
      var month := 10 * DigitValue(s[5]) + DigitValue(s[6]);
      var day := 10 * DigitValue(s[8]) + DigitValue(s[9]);
      if 1 <= month <= 12 && 1 <= day <= 31 then Some(Date(year, month, day)) else None
  {
    var y := s[..4];
    var y1, y2, y3 := y[..1], y[..2], y[..3];
    assert y1[..0] == [] && y2[..1] == y1 && y3[..2] == y2 && y[..3] == y3;
    assert DigitsValue(y1) == DigitValue(s[0]);
    assert DigitsValue(y2) == 10 * DigitValue(s[0]) + DigitValue(s[1]);
    assert DigitsValue(y3) == 100 * DigitValue(s[0]) + 10 * DigitValue(s[1]) + DigitValue(s[2]);
    var m, d := s[5..7], s[8..];
    assert m[..1][..0] == [] && DigitsValue(m[..1]) == DigitValue(s[5]) && m[1] == s[6];
    assert d[..1][..0] == [] && DigitsValue(d[..1]) == DigitValue(s[8]) && d[1] == s[9];
  }

  /** Two strings that parse to the same calendar day are the same string. */
  lemma ParseInjective(a: string, b: string)
    requires ParseIsoDate(a).Some? && ParseIsoDate(a) == ParseIsoDate(b)
    ensures a == b
  {
    DigitsInjective(a[..4], b[..4]);
    DigitsInjective(a[5..7], b[5..7]);
    DigitsInjective(a[8..], b[8..]);
    assert a == a[..4] + [a[4]] + a[5..7] + [a[7]] + a[8..];
    assert b == b[..4] + [b[4]] + b[5..7] + [b[7]] + b[8..];
  }
}
