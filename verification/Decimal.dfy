/** Digit strings and the natural numbers they denote. */
module Decimal {

  predicate IsDigit(c: char) {
    '0' <= c <= '9'
  }

  predicate AllDigits(s: string) {
    forall i | 0 <= i < |s| :: IsDigit(s[i])
  }

  predicate AllZeros(s: string) {
    forall i | 0 <= i < |s| :: s[i] == '0'
  }

  function DigitOf(c: char): (d: nat)
    requires IsDigit(c)
    ensures d <= 9
  {
    c as int - '0' as int
  }

  function DigitChar(d: nat): (c: char)
    requires d <= 9
    ensures IsDigit(c) && DigitOf(c) == d
  {
    (d + '0' as int) as char
  }

  function Pow10(n: nat): (p: nat)
    ensures p >= 1
  {
    if n == 0 then 1 else 10 * Pow10(n - 1)
  }

  /** The number a digit string denotes; the empty string denotes 0. */
  function Value(s: string): nat
    requires AllDigits(s)
  {
    if s == "" then 0 else 10 * Value(s[..|s| - 1]) + DigitOf(s[|s| - 1])
  }

  /** `BigInt.prototype.toString` on a non-negative value. */
  function NatText(n: nat): string {
    if n < 10 then [DigitChar(n)] else NatText(n / 10) + [DigitChar(n % 10)]
  }

  function Zeros(n: nat): (s: string)
    ensures |s| == n && AllZeros(s) && AllDigits(s)
  {
    seq(n, _ => '0')
  }

  lemma {:induction false} Pow10Add(a: nat, b: nat)
    ensures Pow10(a + b) == Pow10(a) * Pow10(b)
  {
    if a > 0 {
      Pow10Add(a - 1, b);
      TenTimes(Pow10(b), Pow10(a - 1));
    }
  }

  lemma TenTimes(x: int, p: int)
    ensures 10 * (x * p) == x * (10 * p) && 10 * (p * x) == (10 * p) * x
  {}

  lemma {:induction false} ValueAppend(a: string, b: string)
    requires AllDigits(a) && AllDigits(b)
    ensures AllDigits(a + b)
    ensures Value(a + b) == Value(a) * Pow10(|b|) + Value(b)
  {
    if b == "" {
      assert a + b == a;
    } else {
      var n := |b| - 1;
      var front := b[..n];
      ValueAppend(a, front);
      AppendLast(a, b);
      TenTimes(Value(a), Pow10(n));
    }
  }

  lemma AppendLast(a: string, b: string)
    requires AllDigits(a) && AllDigits(b) && b != ""
    ensures AllDigits(a + b[..|b| - 1])
    ensures Value(a + b) == 10 * Value(a + b[..|b| - 1]) + DigitOf(b[|b| - 1])
  {
    assert (a + b)[..|a + b| - 1] == a + b[..|b| - 1];
  }

  lemma SingleDigit(s: string)
    requires AllDigits(s) && |s| == 1
    ensures Value(s) == DigitOf(s[0])
  {
    assert s[..0] == "";
  }

  lemma {:induction false} ValueBound(s: string)
    requires AllDigits(s)
    ensures Value(s) < Pow10(|s|)
  {
    if s != "" { ValueBound(s[..|s| - 1]); }
  }

  lemma {:induction false} ValueZero(s: string)
    requires AllDigits(s)
    ensures Value(s) == 0 <==> AllZeros(s)
  {
    if s != "" {
      var front := s[..|s| - 1];
      ValueZero(front);
      assert AllZeros(s) <==> AllZeros(front) && s[|s| - 1] == '0';
    }
  }

  /** A number of exactly |s| digits is not smaller than its leading digit says. */
  lemma {:induction false} ValueLeading(s: string)
    requires AllDigits(s) && s != "" && s[0] != '0'
    ensures Value(s) >= Pow10(|s| - 1)
  {
    var front := s[..|s| - 1];
    if front == "" {
      assert Value(s) == DigitOf(s[0]);
    } else {
      ValueLeading(front);
    }
  }

  predicate NoLeadingZero(s: string) {
    s != "" && AllDigits(s) && (|s| > 1 ==> s[0] != '0')
  }

  lemma {:induction false} NatTextValue(n: nat)
    ensures NoLeadingZero(NatText(n))
    ensures Value(NatText(n)) == n
    ensures NatText(n)[0] == '0' <==> n == 0
  {
    if n >= 10 {
      NatTextValue(n / 10);
      var s := NatText(n);
      assert s[..|s| - 1] == NatText(n / 10);
    } else {
      assert NatText(n)[..0] == "";
    }
  }

  /** Equal values written in equally many digits are written the same. */
  lemma {:induction false} ValueInjective(s: string, t: string)
    requires AllDigits(s) && AllDigits(t) && |s| == |t|
    requires Value(s) == Value(t)
    ensures s == t
  {
    if s != "" {
      var n := |s| - 1;
      LastDigitUnique(Value(s[..n]), DigitOf(s[n]), Value(t[..n]), DigitOf(t[n]));
      hide Value;
      ValueInjective(s[..n], t[..n]);
      assert s[n] == t[n];
      assert s == s[..n] + [s[n]] && t == t[..n] + [t[n]];
    }
  }

  lemma LastDigitUnique(a: nat, d: nat, b: nat, e: nat)
    requires d <= 9 && e <= 9 && 10 * a + d == 10 * b + e
    ensures a == b && d == e
  {}

  lemma LongerIsLarger(s: string, t: string)
    requires AllDigits(s) && NoLeadingZero(t) && s != "" && |s| < |t|
    ensures Value(s) < Value(t)
  {
    ValueBound(s);
    ValueLeading(t);
    Pow10Monotone(|s|, |t| - 1);
  }

  /** Without leading zeros the value alone determines the text. */
  lemma NoLeadingZeroUnique(s: string, t: string)
    requires NoLeadingZero(s) && NoLeadingZero(t)
    requires Value(s) == Value(t)
    ensures s == t
  {
    if |s| < |t| {
      LongerIsLarger(s, t);
    } else if |t| < |s| {
      LongerIsLarger(t, s);
    } else {
      ValueInjective(s, t);
    }
  }

  lemma {:induction false} Pow10Monotone(a: nat, b: nat)
    requires a <= b
    ensures Pow10(a) <= Pow10(b)
  {
    if a < b { Pow10Monotone(a, b - 1); }
  }

  lemma ValuePadEnd(s: string, n: nat)
    requires AllDigits(s)
    ensures AllDigits(s + Zeros(n))
    ensures Value(s + Zeros(n)) == Value(s) * Pow10(n)
  {
    ValueAppend(s, Zeros(n));
    ValueZero(Zeros(n));
  }
}
