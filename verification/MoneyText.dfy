/** The amount grammar: matching undoes printing, and normal forms are unique. */
module MoneyText {
  import opened Decimal
  import opened Results
  import opened FspiopMoney
  import Rounding
  import Text

  lemma {:induction false} DigitRunIs(s: string, n: nat)
    requires n <= |s| && AllDigits(s[..n])
    requires n < |s| ==> !IsDigit(s[n])
    ensures DigitRun(s) == n
  {
    if n > 0 {
      assert s[1..][..n - 1] == s[..n][1..];
      DigitRunIs(s[1..], n - 1);
      assert IsDigit(s[..n][0]);
    }
  }

  // The printed form after the sign.
  function Unsigned(d: DecimalText): string {
    if d.fractionPart == "" then d.integerPart else d.integerPart + "." + d.fractionPart
  }

  lemma MatchUnsignedPrint(d: DecimalText)
    requires d.Valid()
    ensures MatchUnsigned(d.sign, Unsigned(d)) == Some(d)
    ensures IsDigit(Unsigned(d)[0])
  {
    var rest, n := Unsigned(d), |d.integerPart|;
    assert rest[..n] == d.integerPart;
    DigitRunIs(rest, n);
    if d.fractionPart != "" {
      assert rest[n] == '.' && rest[n + 1..] == d.fractionPart;
    }
  }

  /** With the contract of `MatchDecimal`: the match succeeds on the printed decimals and on nothing else. */
  lemma MatchPrint(d: DecimalText)
    requires d.Valid()
    ensures MatchDecimal(d.Print()) == Some(d)
  {
    hide MatchUnsigned;
    MatchUnsignedPrint(d);
    var s, rest := d.Print(), Unsigned(d);
    assert s == d.sign + rest;
    if d.sign == "" {
      assert s == rest;
    } else {
      assert s[1..] == rest;
    }
  }

  // Printed decimals begin and end with a visible character.
  lemma PrintIsTrimmed(d: DecimalText)
    requires d.Valid()
    ensures Text.Trim(d.Print()) == d.Print()
  {
    var s := d.Print();
    assert s[0] == (if d.sign == "" then d.integerPart[0] else d.sign[0]);
    assert s[|s| - 1] == if d.fractionPart == "" then d.integerPart[|d.integerPart| - 1]
                         else d.fractionPart[|d.fractionPart| - 1];
    Text.TrimFixes(s);
  }

  /** What an amount text denotes, if it is a decimal at all. */
  function DecimalOf(amount: string): (r: Option<DecimalText>)
    ensures r.Some? ==> r.value.Valid()
  {
    MatchDecimal(Text.Trim(amount))
  }

  function Norm(d: DecimalText): (n: DecimalText)
    requires d.Valid()
    ensures n.Valid()
  {
    d.(fractionPart := StripTrailingZeros(d.fractionPart))
  }

  /** On decimals `normalizeAmount` drops trailing fraction zeros, keeping sign and leading zeros. */
  lemma NormalizeDecimal(amount: string)
    ensures match DecimalOf(amount)
            case None => NormalizeAmount(amount) == Text.Trim(amount)
            case Some(d) =>
              && NormalizeAmount(amount) == Norm(d).Print()
              && DecimalOf(NormalizeAmount(amount)) == Some(Norm(d))
              && MatchDecimal(NormalizeAmount(amount)) == Some(Norm(d))
  {
    if DecimalOf(amount).Some? {
      var d := DecimalOf(amount).value;
      MatchPrint(Norm(d));
      PrintIsTrimmed(Norm(d));
    }
  }

  lemma StripFixes(s: string)
    requires s == "" || s[|s| - 1] != '0'
    ensures StripTrailingZeros(s) == s
  {}

  lemma NormalizeIdempotent(amount: string)
    ensures NormalizeAmount(NormalizeAmount(amount)) == NormalizeAmount(amount)
  {
    NormalizeDecimal(amount);
    Text.TrimIdempotent(amount);
    if DecimalOf(amount).Some? {
      var n := Norm(DecimalOf(amount).value);
      StripFixes(n.fractionPart);
      assert Norm(n) == n;
      NormalizeDecimal(NormalizeAmount(amount));
    }
  }

  /** Every text that AMOUNT_PATTERN accepts is already normal. */
  lemma NormalizeFixesAmount(amount: string)
    requires IsAmount(amount)
    ensures NormalizeAmount(amount) == amount
    ensures DecimalOf(amount) == MatchDecimal(amount)
  {
    hide MatchDecimal;
    var d := MatchDecimal(amount).value;
    PrintIsTrimmed(d);
    StripFixes(d.fractionPart);
    assert Norm(d) == d;
  }

  /** Normalisation divides numerator and denominator by the same power of ten: the value stays. */
  lemma NormKeepsValue(d: DecimalText) returns (k: nat)
    requires d.Valid()
    ensures k > 0
    ensures d.Numerator() == Norm(d).Numerator() * k
    ensures d.Denominator() == Norm(d).Denominator() * k
  {
    var f, r := d.fractionPart, Norm(d).fractionPart;
    var z := |f| - |r|;
    k := Pow10(z);
    assert d.integerPart + f == (d.integerPart + r) + Zeros(z);
    ValuePadEnd(d.integerPart + r, z);
    Pow10Add(|r|, z);
    Rounding.Associate(d.Sign(), Value(d.integerPart + r), k);
  }

  /** The form `deserialize` prints: no sign, no leading zero, no trailing fraction zero. */
  predicate Canonical(d: DecimalText) {
    && d.Valid()
    && d.sign == ""
    && NoLeadingZero(d.integerPart)
    && (d.fractionPart != "" ==> d.fractionPart[|d.fractionPart| - 1] != '0')
  }

  predicate SameValue(d: DecimalText, e: DecimalText)
    requires d.Valid() && e.Valid()
  {
    d.Numerator() * e.Denominator() == e.Numerator() * d.Denominator()
  }

  lemma QuotientUnique(a: nat, r: nat, b: nat, q: nat, p: nat)
    requires r < p && q < p && a * p + r == b * p + q
    ensures a == b && r == q
  {
    Rounding.Times(a, b, p);
    Rounding.Times(b, a, p);
  }

  lemma CancelFactor(a: int, b: int, k: int)
    requires k > 0 && a * k == b * k
    ensures a == b
  {
    assert (a - b) * k == 0;
  }

  lemma TrailingZero(f: string, k: nat)
    ensures k > 0 ==> (f + Zeros(k))[|f| + k - 1] == '0'
  {}

  lemma CanonicalUniqueOrdered(d: DecimalText, e: DecimalText)
    requires Canonical(d) && Canonical(e)
    requires |d.fractionPart| <= |e.fractionPart| && SameValue(d, e)
    ensures d == e
  {
    var f, g := d.fractionPart, e.fractionPart;
    var k := |g| - |f|;
    var padded := f + Zeros(k);
    TrailingZero(f, k);
    PaddedValue(d, e, k);
    PartsEqual(d.integerPart, padded, e.integerPart, g);
    NoLeadingZeroUnique(d.integerPart, e.integerPart);
    if k == 0 {
      assert padded == f;
    }
  }

  // Both values over the denominator of e.
  lemma PaddedValue(d: DecimalText, e: DecimalText, k: nat)
    requires d.Valid() && e.Valid() && d.sign == "" && e.sign == ""
    requires |e.fractionPart| == |d.fractionPart| + k && SameValue(d, e)
    ensures AllDigits(d.fractionPart + Zeros(k))
    ensures Value(d.integerPart + (d.fractionPart + Zeros(k))) == Value(e.integerPart + e.fractionPart)
  {
    var f, g := d.fractionPart, e.fractionPart;
    var x, y := Value(d.integerPart + f), Value(e.integerPart + g);
    ValuePadEnd(d.integerPart + f, k);
    assert d.integerPart + (f + Zeros(k)) == (d.integerPart + f) + Zeros(k);
    Pow10Add(k, |f|);
    Rounding.Associate(x, Pow10(k), Pow10(|f|));
    CancelFactor(x * Pow10(k), y, Pow10(|f|));
  }

  // Equal digit strings split at the same distance from the end have equal parts.
  lemma PartsEqual(a: string, f: string, b: string, g: string)
    requires AllDigits(a) && AllDigits(f) && AllDigits(b) && AllDigits(g) && |f| == |g|
    requires Value(a + f) == Value(b + g)
    ensures Value(a) == Value(b) && f == g
  {
    ValueAppend(a, f);
    ValueAppend(b, g);
    ValueBound(f);
    ValueBound(g);
    QuotientUnique(Value(a), Value(f), Value(b), Value(g), Pow10(|g|));
    ValueInjective(f, g);
  }

  /** Equal values have one canonical text. */
  lemma CanonicalUnique(d: DecimalText, e: DecimalText)
    requires Canonical(d) && Canonical(e) && SameValue(d, e)
    ensures d == e
  {
    if |d.fractionPart| <= |e.fractionPart| {
      CanonicalUniqueOrdered(d, e);
    } else {
      CanonicalUniqueOrdered(e, d);
    }
  }
}
