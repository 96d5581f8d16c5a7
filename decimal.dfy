/**
 * Decimal text: Python's `str(n)`, the `%0Nd` format and the part of `int(s)`
 * the handlers rely on (an optional sign followed by ASCII digits).
 */
module Decimal {
  import opened Common
  import opened Lex

  predicate IsDigit(c: char) {
    '0' <= c <= '9'
  }

  predicate AllDigits(s: string) {
    forall i :: 0 <= i < |s| ==> IsDigit(s[i])
  }

  function DigitValue(c: char): nat
    requires IsDigit(c)
  {
    (c as int) - ('0' as int)
  }

  function DigitChar(d: nat): (c: char)
    requires d < 10
    ensures IsDigit(c) && DigitValue(c) == d
  {
    ('0' as int + d) as char
  }

  function Pow10(k: nat): (p: nat)
    ensures p >= 1
  {
    if k == 0 then 1 else 10 * Pow10(k - 1)
  }

  /** The number a digit string denotes, read from the most significant digit. */
  function Value(s: string): nat
    requires AllDigits(s)
    decreases |s|
  {
    if |s| == 0 then 0 else DigitValue(s[0]) * Pow10(|s| - 1) + Value(s[1..])
  }

  lemma {:induction false} ValueBound(s: string)
    requires AllDigits(s)
    ensures Value(s) < Pow10(|s|)
    decreases |s|
  {
    if |s| > 0 {
      ValueBound(s[1..]);
      MulMono(DigitValue(s[0]), 9, Pow10(|s| - 1));
    }
  }

  /** Appending a digit multiplies by ten and adds it. */
  lemma {:induction false} ValueAppend(s: string, c: char)
    requires AllDigits(s) && IsDigit(c)
    ensures AllDigits(s + [c]) && Value(s + [c]) == 10 * Value(s) + DigitValue(c)
    decreases |s|
  {
    var t := s + [c];
    if |s| > 0 {
      assert t[1..] == s[1..] + [c];
      ValueAppend(s[1..], c);
      var d, p := DigitValue(s[0]), Pow10(|s| - 1);
      assert t[0] == s[0] && |t| - 1 == |s|;
      assert Value(t) == d * Pow10(|s|) + Value(t[1..]);
      assert Value(s) == d * p + Value(s[1..]);
      TenTimes(d, p);
    } else {
      assert t[1..] == [];
    }
  }

  lemma TenTimes(d: nat, p: nat)
    ensures d * (10 * p) == 10 * (d * p)
  {
  }

  /** Leading zeros do not change the value. */
  lemma {:induction false} ValueLeadingZeros(k: nat, s: string)
    requires AllDigits(s)
    ensures AllDigits(Zeros(k) + s) && Value(Zeros(k) + s) == Value(s)
    decreases k
  {
    if k > 0 {
      ValueLeadingZeros(k - 1, s);
      var t := Zeros(k) + s;
      assert t[0] == '0' && t[1..] == Zeros(k - 1) + s;
      assert DigitValue(t[0]) == 0;
      assert Value(t) == DigitValue(t[0]) * Pow10(|t| - 1) + Value(t[1..]);
    } else {
      assert Zeros(k) + s == s;
    }
  }

  /** Between two digit strings of the same length, `<=` as text is `<=` as numbers. */
  lemma {:induction false} LexIsNumeric(a: string, b: string)
    requires AllDigits(a) && AllDigits(b) && |a| == |b|
    ensures LexLe(a, b) <==> Value(a) <= Value(b)
    decreases |a|
  {
    if |a| > 0 {
      if a[0] < b[0] {
        FirstDigitDecides(a, b);
      } else if b[0] < a[0] {
        FirstDigitDecides(b, a);
      } else {
        LexIsNumeric(a[1..], b[1..]);
        assert Value(a) == DigitValue(a[0]) * Pow10(|a| - 1) + Value(a[1..]);
        assert Value(b) == DigitValue(a[0]) * Pow10(|a| - 1) + Value(b[1..]);
      }
    }
  }

  /** A smaller leading digit makes the smaller number, whatever follows. */
  lemma FirstDigitDecides(a: string, b: string)
    requires AllDigits(a) && AllDigits(b) && |a| == |b| > 0 && a[0] < b[0]
    ensures LexLe(a, b) && Value(a) < Value(b)
  {
    ValueBound(a[1..]);
    Dominates(DigitValue(a[0]), DigitValue(b[0]), Pow10(|a| - 1), Value(a[1..]), Value(b[1..]));
  }

  lemma Dominates(da: nat, db: nat, p: nat, ra: nat, rb: nat)
    requires da < db && ra < p
    ensures da * p + ra < db * p + rb
  {
    MulMono(da + 1, db, p);
    assert (da + 1) * p == da * p + p;
  }

  lemma MulMono(d: nat, e: nat, p: nat)
    requires d <= e
    ensures d * p <= e * p
  {
  }

  function Zeros(k: nat): (z: string)
    ensures |z| == k && AllDigits(z)
  {
    if k == 0 then "" else "0" + Zeros(k - 1)
  }

  /** `str(n)` for a non-negative integer: no leading zero except for `"0"` itself. */
  function NatToString(n: nat): (s: string)
    ensures |s| >= 1 && AllDigits(s) && Value(s) == n
    ensures |s| > 1 ==> s[0] != '0'
    decreases n
  {
    if n < 10 then
      [DigitChar(n)]
    else
      var high := NatToString(n / 10);
      ValueAppend(high, DigitChar(n % 10));
      high + [DigitChar(n % 10)]
  }

  /** The length of `str(n)` is the number of decimal digits of `n`. */
  lemma {:induction false} NatToStringLength(n: nat, k: nat)
    requires k >= 1
    ensures n < Pow10(k) <==> |NatToString(n)| <= k
    decreases n
  {
    if n < 10 {
      PowMonotone(1, k);
    } else {
      var s := NatToString(n);
      assert |s| == |NatToString(n / 10)| + 1;
      if k == 1 {
        assert Pow10(1) == 10;
      } else {
        NatToStringLength(n / 10, k - 1);
        var p := Pow10(k - 1);
        assert Pow10(k) == 10 * p;
        assert n == 10 * (n / 10) + n % 10;
        assert n < 10 * p <==> n / 10 < p;
      }
    }
  }

  lemma {:induction false} PowMonotone(i: nat, j: nat)
    requires i <= j
    ensures Pow10(i) <= Pow10(j)
    decreases j
  {
    if i < j { PowMonotone(i, j - 1); }
  }

  /** A digit string that does not start with `0` is at least `10^(len - 1)`. */
  lemma {:induction false} LeadingDigitNonzero(s: string)
    requires AllDigits(s) && |s| >= 1 && s[0] != '0'
    ensures Value(s) >= Pow10(|s| - 1)
  {
    assert DigitValue(s[0]) >= 1;
    assert DigitValue(s[0]) * Pow10(|s| - 1) >= Pow10(|s| - 1);
  }

  /** `f"{n:0{w}d}"` for a non-negative `n`: left-padded with zeros to at least `w` digits. */
  function ZeroPad(n: nat, w: nat): (s: string)
    ensures AllDigits(s) && Value(s) == n
    ensures |s| == if |NatToString(n)| < w then w else |NatToString(n)|
  {
    var d := NatToString(n);
    var pad := if |d| < w then w - |d| else 0;
    ValueLeadingZeros(pad, d);
    Zeros(pad) + d
  }

  /** `int(s)` on a string of ASCII digits (at least one); `None` where Python raises. */
  function ParseNat(s: string): (r: Option<nat>)
    ensures r.Some? <==> |s| > 0 && AllDigits(s)
    ensures r.Some? ==> r.value == Value(s)
  {
    if |s| > 0 && AllDigits(s) then Some(Value(s)) else None
  }

  /** `int(s)` on an optionally signed digit string; `None` where Python raises `ValueError`. */
  function ParseInt(s: string): (r: Option<int>)
    ensures |s| > 0 && AllDigits(s) ==> r == Some(Value(s) as int)
    ensures r.Some? ==> |s| > 0
    ensures r.Some? && r.value < 0 ==> s[0] == '-'
  {
    if |s| > 0 && (s[0] == '-' || s[0] == '+') then
      match ParseNat(s[1..])
      case Some(v) => Some(if s[0] == '-' then -(v as int) else v as int)
      case None => None
    else
      match ParseNat(s)
      case Some(v) => Some(v as int)
      case None => None
  }

  /** `str(i)` for any integer. */
  function IntToString(i: int): (s: string)
    ensures ParseInt(s) == Some(i)
  {
    if i < 0 then
      var d := NatToString(-i);
      assert ("-" + d)[1..] == d;
      "-" + d
    else NatToString(i)
  }
}
