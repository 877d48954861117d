/** Decimal rendering of counts, as an f-string writes an `int`. */
module Numerals {

  predicate IsDigit(c: char)
  {
    '0' <= c <= '9'
  }

  function DigitChar(d: nat): (c: char)
    requires d < 10
    ensures IsDigit(c) && c as int - '0' as int == d
  {
    ('0' as int + d) as char
  }

  /** The decimal digits of `n`, most significant first, without leading
      zeros. */
  function NatToString(n: nat): (s: string)
    ensures |s| > 0 && forall i :: 0 <= i < |s| ==> IsDigit(s[i])
    ensures |s| > 1 ==> s[0] != '0'
  {
    if n < 10 then [DigitChar(n)] else NatToString(n / 10) + [DigitChar(n % 10)]
  }

  /** The number a string of decimal digits denotes. */
  function DigitsValue(s: string): nat
    requires forall i :: 0 <= i < |s| ==> IsDigit(s[i])
  {
    if s == [] then 0
    else
      assert IsDigit(s[|s| - 1]);
      DigitsValue(s[..|s| - 1]) * 10 + (s[|s| - 1] as int - '0' as int)
  }

  /** Reading back the rendered digits gives the count. */
  lemma {:induction false} NatToStringValue(n: nat)
    ensures DigitsValue(NatToString(n)) == n
  {
    var s := NatToString(n);
    if n >= 10 {
      NatToStringValue(n / 10);
      assert s[..|s| - 1] == NatToString(n / 10);
    }
  }

  /** `t[a..b]` is a whole run of decimal digits, with no digit just before
      or just after it, and it reads as `n`. */
  predicate CountAt(t: string, a: int, b: int, n: nat)
  {
    0 <= a < b < |t| && (forall i :: a <= i < b ==> IsDigit(t[i])) &&
    (a == 0 || !IsDigit(t[a - 1])) && !IsDigit(t[b]) && DigitsValue(t[a..b]) == n
  }

  /** A rendered count between non-digits is found again as that count. */
  lemma CountFound(t: string, a: int, n: nat)
    requires 0 <= a && a + |NatToString(n)| < |t| && t[a..a + |NatToString(n)|] == NatToString(n)
    requires a == 0 || !IsDigit(t[a - 1])
    requires !IsDigit(t[a + |NatToString(n)|])
    ensures CountAt(t, a, a + |NatToString(n)|, n)
  {
    var d := NatToString(n);
    assert forall i :: a <= i < a + |d| ==> t[i] == d[i - a];
    NatToStringValue(n);
  }

  /** The same, for a count written between two strings. */
  lemma CountBetween(x: string, n: nat, y: string)
    requires x == [] || !IsDigit(x[|x| - 1])
    requires y != [] && !IsDigit(y[0])
    ensures CountAt(x + NatToString(n) + y, |x|, |x| + |NatToString(n)|, n)
  {
    var t := x + NatToString(n) + y;
    assert t[|x|..|x| + |NatToString(n)|] == NatToString(n);
    CountFound(t, |x|, n);
  }
}
