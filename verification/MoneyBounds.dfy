/** How the FSPIOP `Amount` grammar, the uint64 range and HALF_UP comparisons fit together. */
module MoneyBounds {
  import opened Decimal
  import opened Results
  import opened Rounding
  import opened FspiopMoney
  import opened MoneyRounding
  import opened MoneyText
  import opened MoneyTheorems

  // ---- which scaled amounts print as an FSPIOP Amount ---------------------------------------

  lemma {:induction false} StripLength(f: string, k: nat)
    requires k < |f|
    ensures |StripTrailingZeros(f)| <= k <==> AllZeros(f[k..])
  {
    var last := f[|f| - 1];
    assert f[k..] == f[..|f| - 1][k..] + [last];
    if last == '0' && k < |f| - 1 {
      StripLength(f[..|f| - 1], k);
    }
  }

  lemma DigitCount(s: string, k: nat)
    requires NoLeadingZero(s) && k >= 1
    ensures |s| <= k <==> Value(s) < Pow10(k)
  {
    ValueBound(s);
    if |s| <= k {
      Pow10Monotone(|s|, k);
    } else {
      ValueLeading(s);
      Pow10Monotone(k, |s| - 1);
    }
  }

  lemma RemainderOf(a: nat, x: nat, r: nat, p: nat)
    requires p > 0 && a == x * p + r && r < p
    ensures a % p == r
  {
    QuotientUnique(a / p, a % p, x, r, p);
  }

  lemma BelowProduct(a: nat, x: nat, r: nat, p: nat, b: nat)
    requires a == x * p + r && r < p
    ensures a < b * p <==> x < b
  {
    Times(x, b, p);
    Times(b, x, p);
    Times(x + 1, b, p);
  }

  // The fraction digits beyond the fourth are the remainder modulo 10^(scale - 4).
  lemma FourDecimals(amount: nat, scale: nat)
    requires scale > 4
    ensures |Norm(Unnormalised(amount, scale)).fractionPart| <= 4 <==> amount % Pow10(scale - 4) == 0
  {
    var d := Unnormalised(amount, scale);
    UnnormalisedValue(amount, scale);
    var head, tail := d.integerPart + d.fractionPart[..4], d.fractionPart[4..];
    assert head + tail == d.integerPart + d.fractionPart;
    ValueAppend(head, tail);
    ValueBound(tail);
    ValueZero(tail);
    StripLength(d.fractionPart, 4);
    RemainderOf(amount, Value(head), Value(tail), Pow10(scale - 4));
  }

  lemma EighteenDigits(amount: nat, scale: nat)
    ensures |Unnormalised(amount, scale).integerPart| <= 18 <==> amount < Pow10(18 + scale)
  {
    var d := Unnormalised(amount, scale);
    UnnormalisedValue(amount, scale);
    ValueAppend(d.integerPart, d.fractionPart);
    ValueBound(d.fractionPart);
    DigitCount(d.integerPart, 18);
    Pow10Add(18, scale);
    BelowProduct(amount, Value(d.integerPart), Value(d.fractionPart), Pow10(scale), Pow10(18));
  }

  lemma CanonicalIsAmount(d: DecimalText)
    requires Canonical(d)
    ensures IsAmount(d.Print()) <==> |d.integerPart| <= 18 && |d.fractionPart| <= 4
  {
    hide MatchDecimal;
    MatchPrint(d);
    if d.integerPart[0] == '0' {
      assert d.integerPart == "0";
    }
  }

  /** AMOUNT_PATTERN accepts exactly the canonical decimals of at most 18 integer digits and 4 decimals. */
  lemma AmountGrammar(s: string)
    ensures IsAmount(s) <==>
              exists d :: Canonical(d) && |d.integerPart| <= 18 && |d.fractionPart| <= 4 && s == d.Print()
  {
    hide MatchDecimal;
    if IsAmount(s) {
      var d := MatchDecimal(s).value;
      assert Canonical(d) && s == d.Print();
    }
    forall d | Canonical(d) && |d.integerPart| <= 18 && |d.fractionPart| <= 4 ensures IsAmount(d.Print()) {
      CanonicalIsAmount(d);
    }
  }

  /** `deserialize` writes an FSPIOP Amount iff the value has at most 18 integer digits and 4 decimals. */
  lemma DeserializeIsAmount(amount: nat, scale: nat)
    ensures Deserialize(amount, scale).Ok?
    ensures IsAmount(Deserialize(amount, scale).value)
       <==> amount < Pow10(18 + scale) && (scale <= 4 || amount % Pow10(scale - 4) == 0)
  {
    DeserializePrintsNorm(amount, scale);
    NormIsAmount(amount, scale);
    EighteenDigits(amount, scale);
    if scale > 4 {
      FourDecimals(amount, scale);
    }
  }

  lemma NormIsAmount(amount: nat, scale: nat)
    ensures var d := Unnormalised(amount, scale);
            && (IsAmount(Norm(d).Print()) <==> |d.integerPart| <= 18 && |Norm(d).fractionPart| <= 4)
            && |Norm(d).fractionPart| <= scale
  {
    UnnormalisedValue(amount, scale);
    assert Canonical(Norm(Unnormalised(amount, scale)));
    CanonicalIsAmount(Norm(Unnormalised(amount, scale)));
  }

  // ---- which scales leave room for every FSPIOP Amount ----------------------------------------

  lemma RoundingBetween(mode: RoundingMode, num: int, den: int, r: int, bound: int)
    requires den > 0 && IsRounding(mode, num, den, r)
    requires 0 <= num <= bound * den
    ensures 0 <= r <= bound
  {
    Times(r, -1, den);
    Times(bound + 1, r, den);
    Distribute(bound, -1, den);
    Distribute(0, 1, den);
  }

  lemma Pow10At18()
    ensures Pow10(18) == 1000000000000000000
  {
    assert Pow10(3) == 1000;
    assert Pow10(6) == 1000000;
    Pow10Add(6, 6);
    Pow10Add(6, 12);
  }

  lemma AmountBelow(d: DecimalText)
    requires d.Valid() && d.sign == "" && |d.integerPart| <= 18
    ensures 0 <= d.Numerator() <= Pow10(18) * d.Denominator()
  {
    ValueBound(d.integerPart + d.fractionPart);
    Pow10Add(18, |d.fractionPart|);
    Pow10Monotone(|d.integerPart + d.fractionPart|, 18 + |d.fractionPart|);
  }

  lemma AmountRoundings(d: DecimalText, scale: nat, mode: RoundingMode, v: int)
    requires d.Valid() && d.sign == "" && |d.integerPart| <= 18
    requires scale <= 1 && Rounds(mode, d, scale, v)
    ensures 0 <= v <= UINT64_MAX
  {
    AmountBelow(d);
    Pow10At18();
    var p := Pow10(scale);
    assert p <= 10 by { assert Pow10(1) == 10; }
    Times(0, d.Numerator(), p);
    Times(d.Numerator(), Pow10(18) * d.Denominator(), p);
    Swap(Pow10(18), d.Denominator(), p);
    Times(p, 10, Pow10(18));
    RoundingBetween(mode, d.Numerator() * p, d.Denominator(), v, Pow10(18) * p);
  }

  lemma AmountFits(amount: string, scale: nat, mode: RoundingMode)
    requires IsAmount(amount) && scale <= 1 && mode != Unnecessary
    ensures Serialize(amount, scale, mode).Ok?
  {
    NormalizeFixesAmount(amount);
    forall v, any: RoundingMode | Rounds(any, MatchDecimal(amount).value, scale, v) ensures 0 <= v <= UINT64_MAX {
      AmountRoundings(MatchDecimal(amount).value, scale, any, v);
    }
    SerializeMeaning(amount, scale, mode);
  }

  const NINES: string := "999999999999999999"

  lemma NinesAreTooMany(scale: nat)
    requires scale >= 2
    ensures IsAmount(NINES)
    ensures Serialize(NINES, scale, HalfUp) == Err(AboveUint64Max)
  {
    NinesDecimal();
    NinesExact(scale);
    SerializeTooLarge(NINES, scale, HalfUp, Value(NINES) * Pow10(scale));
  }

  lemma NinesDecimal()
    ensures IsAmount(NINES)
    ensures DecimalOf(NINES) == Some(DecimalText("", NINES, ""))
  {
    hide MatchDecimal, NINES;
    NinesDigits();
    var d := DecimalText("", NINES, "");
    assert d.Valid() && d.Print() == NINES;
    MatchPrint(d);
    NormalizeFixesAmount(NINES);
  }

  lemma NinesDigits()
    ensures AllDigits(NINES) && |NINES| == 18 && NINES[0] == '9'
  {}

  lemma NinesExact(scale: nat)
    requires scale >= 2
    ensures AllDigits(NINES) && Value(NINES) * Pow10(scale) > UINT64_MAX
    ensures IsExactly(DecimalText("", NINES, ""), scale, Value(NINES) * Pow10(scale))
  {
    NinesValue();
    Pow10Monotone(2, scale);
    assert Pow10(2) == 100;
    Times(100, Pow10(scale), Value(NINES));
    assert NINES + "" == NINES;
  }

  lemma NinesValue()
    ensures AllDigits(NINES) && Value(NINES) >= 900000000000000000
  {
    hide Value, NINES;
    NinesDigits();
    assert DigitOf(NINES[0]) == 9;
    FirstDigit(NINES);
    Pow10At18();
    Pow10Add(1, 17);
  }

  /** Every FSPIOP Amount fits uint64 minor units at scales 0 and 1, and at no larger scale. */
  lemma AmountsFitExactly(scale: nat)
    ensures (forall amount, mode: RoundingMode | IsAmount(amount) && mode != Unnecessary ::
               Serialize(amount, scale, mode).Ok?)
       <==> scale <= 1
  {
    if scale <= 1 {
      forall amount, mode: RoundingMode | IsAmount(amount) && mode != Unnecessary
        ensures Serialize(amount, scale, mode).Ok?
      {
        AmountFits(amount, scale, mode);
      }
    } else {
      NinesAreTooMany(scale);
      assert !Serialize(NINES, scale, HalfUp).Ok?;
    }
  }

  // ---- comparing two amounts by their HALF_UP minor units ---------------------------------------

  // d <= e as exact values.
  predicate AtMost(d: DecimalText, e: DecimalText)
    requires d.Valid() && e.Valid()
  {
    d.Numerator() * e.Denominator() <= e.Numerator() * d.Denominator()
  }

  // d < e + one minor unit, as exact values.
  predicate BelowNextUnit(d: DecimalText, e: DecimalText, scale: nat)
    requires d.Valid() && e.Valid()
  {
    (d.Numerator() * Pow10(scale)) * e.Denominator()
    < (e.Numerator() * Pow10(scale) + e.Denominator()) * d.Denominator()
  }

  // v is within half a minor unit of d, and a tie has been rounded up.
  predicate WithinHalfUnit(d: DecimalText, scale: nat, v: int)
    requires d.Valid()
  {
    var den: int := d.Denominator();
    -den <= 2 * (d.Numerator() * Pow10(scale) - v * den) < den
  }

  lemma RoundsMonotone(d: DecimalText, e: DecimalText, scale: nat, v: int, w: int)
    requires d.Valid() && e.Valid() && AtMost(d, e)
    requires Rounds(HalfUp, d, scale, v) && Rounds(HalfUp, e, scale, w)
    ensures v <= w
  {
    var p := Pow10(scale);
    Order(d.Numerator() * e.Denominator(), e.Numerator() * d.Denominator(), p);
    Swap(d.Numerator(), e.Denominator(), p);
    Swap(e.Numerator(), d.Denominator(), p);
    HalfUpMonotone(d.Numerator() * p, d.Denominator(), v, e.Numerator() * p, e.Denominator(), w);
  }

  /** HALF_UP serialisation never reverses the order of two amounts. */
  lemma SerializeMonotone(x: string, y: string, scale: nat)
    requires Serialize(x, scale, HalfUp).Ok? && Serialize(y, scale, HalfUp).Ok?
    ensures DecimalOf(x).Some? && DecimalOf(y).Some?
    ensures AtMost(DecimalOf(x).value, DecimalOf(y).value) ==>
              Serialize(x, scale, HalfUp).value <= Serialize(y, scale, HalfUp).value
  {
    SerializeMeaning(x, scale, HalfUp);
    SerializeMeaning(y, scale, HalfUp);
    if AtMost(DecimalOf(x).value, DecimalOf(y).value) {
      RoundsMonotone(DecimalOf(x).value, DecimalOf(y).value, scale,
                     Serialize(x, scale, HalfUp).value, Serialize(y, scale, HalfUp).value);
    }
  }

  lemma RoundsHalfUnit(d: DecimalText, scale: nat, v: nat)
    requires d.Valid() && Rounds(HalfUp, d, scale, v)
    ensures WithinHalfUnit(d, scale, v)
  {
    Times(0, v, d.Denominator());
  }

  /** The serialised amount is within half a minor unit of the decimal. */
  lemma SerializeHalfUnit(x: string, scale: nat)
    requires Serialize(x, scale, HalfUp).Ok?
    ensures DecimalOf(x).Some?
    ensures WithinHalfUnit(DecimalOf(x).value, scale, Serialize(x, scale, HalfUp).value)
  {
    SerializeMeaning(x, scale, HalfUp);
    RoundsHalfUnit(DecimalOf(x).value, scale, Serialize(x, scale, HalfUp).value);
  }

  /**
   The comparison of `FeeValidator.validate`: it never rejects a fee that is not above the
   calculated one, and never accepts one that exceeds it by a full minor unit.
   */
  lemma FeeComparison(fee: string, calculated: string, scale: nat)
    requires Serialize(fee, scale, HalfUp).Ok? && Serialize(calculated, scale, HalfUp).Ok?
    ensures DecimalOf(fee).Some? && DecimalOf(calculated).Some?
    ensures AtMost(DecimalOf(fee).value, DecimalOf(calculated).value) ==>
              Serialize(fee, scale, HalfUp).value <= Serialize(calculated, scale, HalfUp).value
    ensures Serialize(fee, scale, HalfUp).value <= Serialize(calculated, scale, HalfUp).value ==>
              BelowNextUnit(DecimalOf(fee).value, DecimalOf(calculated).value, scale)
  {
    SerializeMonotone(fee, calculated, scale);
    SerializeHalfUnit(fee, scale);
    SerializeHalfUnit(calculated, scale);
    if Serialize(fee, scale, HalfUp).value <= Serialize(calculated, scale, HalfUp).value {
      HalfUnitsCompare(DecimalOf(fee).value, DecimalOf(calculated).value, scale,
                       Serialize(fee, scale, HalfUp).value, Serialize(calculated, scale, HalfUp).value);
    }
  }

  lemma HalfUnitsCompare(d: DecimalText, e: DecimalText, scale: nat, v: int, w: int)
    requires d.Valid() && e.Valid() && v <= w
    requires WithinHalfUnit(d, scale, v) && WithinHalfUnit(e, scale, w)
    ensures BelowNextUnit(d, e, scale)
  {
    WithinOneUnit(d.Numerator() * Pow10(scale), d.Denominator(), v,
                  e.Numerator() * Pow10(scale), e.Denominator(), w);
  }

  // n/d < v + 1/2 <= w + 1/2 <= m/e + 1, cleared of denominators.
  lemma WithinOneUnit(n: int, d: int, v: int, m: int, e: int, w: int)
    requires d > 0 && e > 0 && v <= w
    requires 2 * (n - v * d) < d
    requires -e <= 2 * (m - w * e)
    ensures n * e < (m + e) * d
  {
    var vd, we := v * d, w * e;
    var x, y := n - vd, m - we;
    DoubleBelow(x, d, e);
    DoubleAbove(y, e, d);
    Distribute(n, vd, e);
    Distribute(m, we, d);
    Distribute(m, -e, d);
    Times(v, w, d * e);
    assert vd * e == v * (d * e);
    assert we * d == w * (d * e);
    assert (-e) * d == -(d * e);
  }

  lemma DoubleBelow(x: int, d: int, k: int)
    requires k > 0 && 2 * x < d
    ensures 2 * (x * k) < d * k
  {
    Order(2 * x, d, k);
    Distribute(2 * x, x, k);
  }

  lemma DoubleAbove(y: int, e: int, k: int)
    requires k > 0 && -e <= 2 * y
    ensures -(e * k) <= 2 * (y * k)
  {
    Order(-e, 2 * y, k);
    Distribute(2 * y, y, k);
    Distribute(0, e, k);
  }
}
