/** `scaleAmount` computes the rounding that each mode names, on every decimal and scale. */
module MoneyRounding {
  import opened Decimal
  import opened Results
  import opened Rounding
  import opened FspiopMoney

  // The discarded digits, against half a unit of the last kept digit.
  lemma DiscardedDigits(s: string)
    requires AllDigits(s) && s != ""
    ensures HasNonZero(s) <==> Value(s) > 0
    ensures DigitOf(s[0]) >= 5 <==> 2 * Value(s) >= Pow10(|s|)
    ensures DigitOf(s[0]) > 5 || (DigitOf(s[0]) == 5 && HasNonZero(s[1..])) <==> 2 * Value(s) > Pow10(|s|)
  {
    NonZero(s);
    NonZero(s[1..]);
    FirstDigit(s);
    ValueBound(s[1..]);
    FirstDigitDecides(DigitOf(s[0]), Value(s[1..]), Pow10(|s| - 1));
  }

  lemma FirstDigitDecides(first: int, tail: int, p: int)
    requires 0 <= tail < p
    ensures first >= 5 <==> 2 * (first * p + tail) >= 10 * p
    ensures first > 5 || (first == 5 && tail > 0) <==> 2 * (first * p + tail) > 10 * p
  {
    Times(first, 4, p);
    Times(5, first, p);
    Times(6, first, p);
  }

  lemma NonZero(s: string)
    requires AllDigits(s)
    ensures HasNonZero(s) <==> Value(s) > 0
  {
    ValueZero(s);
    assert HasNonZero(s) <==> !AllZeros(s);
  }

  lemma FirstDigit(s: string)
    requires AllDigits(s) && s != ""
    ensures Value(s) == DigitOf(s[0]) * Pow10(|s| - 1) + Value(s[1..])
  {
    assert s == s[..1] + s[1..];
    ValueAppend(s[..1], s[1..]);
    SingleDigit(s[..1]);
  }

  lemma LastDigitParity(s: string)
    requires AllDigits(s) && s != ""
    ensures Value(s) % 2 == DigitOf(s[|s| - 1]) % 2
  {}

  // The pieces `scaleAmount` works with: the kept magnitude and the discarded digits.
  function Kept(d: DecimalText, scale: nat): (r: string)
    requires d.Valid()
    ensures AllDigits(r) && |r| == scale
  {
    PadEnd(d.fractionPart, scale)[..scale]
  }

  function Magnitude(d: DecimalText, scale: nat): nat
    requires d.Valid()
  {
    Value(d.integerPart + Kept(d, scale))
  }

  function Discarded(d: DecimalText, scale: nat): (r: string)
    requires d.Valid()
    ensures AllDigits(r)
  {
    Drop(d.fractionPart, scale)
  }

  // The exact scaled value is Exact / Unit, in units of the last discarded digit.
  function Unit(d: DecimalText, scale: nat): (q: nat)
    requires d.Valid()
    ensures q > 0
  {
    Pow10(|Discarded(d, scale)|)
  }

  function Exact(d: DecimalText, scale: nat): int
    requires d.Valid()
  {
    d.Sign() * (Magnitude(d, scale) * Unit(d, scale) + Value(Discarded(d, scale)))
  }

  lemma MagnitudeSplits(d: DecimalText, scale: nat)
    requires d.Valid()
    ensures Magnitude(d, scale) == Value(d.integerPart) * Pow10(scale) + Value(Kept(d, scale))
  {
    ValueAppend(d.integerPart, Kept(d, scale));
  }

  lemma DecomposeLong(d: DecimalText, scale: nat)
    requires d.Valid() && |d.fractionPart| > scale
    ensures d.Numerator() == Exact(d, scale)
    ensures d.Denominator() == Unit(d, scale) * Pow10(scale)
  {
    var kept, discarded := Kept(d, scale), Discarded(d, scale);
    assert d.integerPart + d.fractionPart == (d.integerPart + kept) + discarded;
    ValueAppend(d.integerPart + kept, discarded);
    Pow10Add(|discarded|, scale);
  }

  lemma DecomposeShort(d: DecimalText, scale: nat)
    requires d.Valid() && |d.fractionPart| <= scale
    ensures Unit(d, scale) == 1
    ensures d.Numerator() * Pow10(scale) == Exact(d, scale) * d.Denominator()
  {
    var f := d.fractionPart;
    var pad := scale - |f|;
    assert Kept(d, scale) == f + Zeros(pad);
    assert d.integerPart + Kept(d, scale) == (d.integerPart + f) + Zeros(pad);
    ValuePadEnd(d.integerPart + f, pad);
    Pow10Add(pad, |f|);
    assert Discarded(d, scale) == "";
    Reassociate(d.Sign(), Value(d.integerPart + f), Pow10(pad), Pow10(|f|));
  }

  lemma Reassociate(sign: int, n: int, a: int, b: int)
    ensures (sign * n) * (a * b) == (sign * (n * a)) * b
  {}

  /** Scaling loses nothing before rounding: kept and discarded digits make up the exact value. */
  lemma Transfer(d: DecimalText, scale: nat, mode: RoundingMode, r: int)
    requires d.Valid()
    ensures IsRounding(mode, d.Numerator() * Pow10(scale), d.Denominator(), r)
       <==> IsRounding(mode, Exact(d, scale), Unit(d, scale), r)
  {
    if |d.fractionPart| > scale {
      DecomposeLong(d, scale);
      RoundingScales(mode, Exact(d, scale), Unit(d, scale), Pow10(scale), r);
    } else {
      DecomposeShort(d, scale);
      RoundingScales(mode, Exact(d, scale), 1, d.Denominator(), r);
    }
  }

  // m units and v/q of a unit more, rounded up or not as `shouldRoundUp` says.
  lemma RoundUpMeaning(sign: int, m: nat, kept: string, discarded: string, mode: RoundingMode)
    requires sign == 1 || sign == -1
    requires AllDigits(kept) && AllDigits(discarded) && discarded != ""
    requires mode.HalfEven? ==> kept != "" && m % 2 == DigitOf(kept[|kept| - 1]) % 2
    ensures var q, v := Pow10(|discarded|), Value(discarded);
            match ShouldRoundUp(sign, kept, discarded, mode)
            case Err(e) => e == RoundingNecessary && mode == Unnecessary && 0 < v < q
            case Ok(up) => IsRounding(mode, sign * (m * q + v), q, (if up then m + 1 else m) * sign)
  {
    DiscardedDigits(discarded);
    ValueBound(discarded);
    if ShouldRoundUp(sign, kept, discarded, mode).Ok? {
      RoundsUpWhen(sign, m, Pow10(|discarded|), Value(discarded), mode,
                   ShouldRoundUp(sign, kept, discarded, mode).value);
    }
  }

  // Whether v/q of a unit beyond an odd or even number of units counts as a whole one, in each mode.
  predicate IsRoundedUp(mode: RoundingMode, sign: int, q: int, v: int, odd: bool, up: bool) {
    if v == 0 then !up
    else
      match mode
      case Unnecessary => false
      case Up => up
      case Down => !up
      case Ceiling => up == (sign > 0)
      case Floor => up == (sign < 0)
      case HalfUp => up == (2 * v >= q)
      case HalfDown => up == (2 * v > q)
      case HalfEven => up == (2 * v > q || (2 * v == q && odd))
  }

  // In these lemmas w stands for the product of m and q.
  lemma DirectedMeets(mode: RoundingMode, w: int, q: int, v: int, odd: bool, up: bool, even: bool)
    requires mode.Up? || mode.Down? || mode.Ceiling? || mode.Floor? || mode.Unnecessary?
    requires w >= 0 && 0 <= v < q
    ensures IsRoundedUp(mode, 1, q, v, odd, up) ==> Meets(mode, w + v, q, if up then w + q else w, even)
    ensures IsRoundedUp(mode, -1, q, v, odd, up) ==> Meets(mode, -(w + v), q, -(if up then w + q else w), even)
  {}

  lemma HalfUpMeets(w: int, q: int, v: int, odd: bool, up: bool, even: bool)
    requires w >= 0 && 0 <= v < q && IsRoundedUp(HalfUp, 1, q, v, odd, up)
    ensures Meets(HalfUp, w + v, q, if up then w + q else w, even)
    ensures Meets(HalfUp, -(w + v), q, -(if up then w + q else w), even)
  {}

  lemma HalfDownMeets(w: int, q: int, v: int, odd: bool, up: bool, even: bool)
    requires w >= 0 && 0 <= v < q && IsRoundedUp(HalfDown, 1, q, v, odd, up)
    ensures Meets(HalfDown, w + v, q, if up then w + q else w, even)
    ensures Meets(HalfDown, -(w + v), q, -(if up then w + q else w), even)
  {}

  lemma HalfEvenMeets(w: int, q: int, v: int, odd: bool, up: bool)
    requires w >= 0 && 0 <= v < q && IsRoundedUp(HalfEven, 1, q, v, odd, up)
    ensures Meets(HalfEven, w + v, q, if up then w + q else w, odd == up)
    ensures Meets(HalfEven, -(w + v), q, -(if up then w + q else w), odd == up)
  {}

  lemma MeetsWhen(mode: RoundingMode, sign: int, w: int, q: int, v: int, odd: bool, up: bool)
    requires sign == 1 || sign == -1
    requires w >= 0 && 0 <= v < q && IsRoundedUp(mode, sign, q, v, odd, up)
    ensures Meets(mode, sign * (w + v), q, sign * (if up then w + q else w), odd == up)
  {
    hide Meets;
    match mode {
      case HalfUp => HalfUpMeets(w, q, v, odd, up, odd == up);
      case HalfDown => HalfDownMeets(w, q, v, odd, up, odd == up);
      case HalfEven => HalfEvenMeets(w, q, v, odd, up);
      case _ => DirectedMeets(mode, w, q, v, odd, up, odd == up);
    }
  }

  // When m and v/q units become m or m + 1.
  lemma RoundsUpWhen(sign: int, m: int, q: int, v: int, mode: RoundingMode, up: bool)
    requires sign == 1 || sign == -1
    requires m >= 0 && 0 <= v < q && IsRoundedUp(mode, sign, q, v, m % 2 == 1, up)
    ensures IsRounding(mode, sign * (m * q + v), q, (if up then m + 1 else m) * sign)
  {
    hide Meets, IsRoundedUp;
    Candidates(sign, m, q);
    MeetsWhen(mode, sign, m * q, q, v, m % 2 == 1, up);
    Parity(sign, m, up);
  }

  lemma Parity(sign: int, m: int, up: bool)
    requires sign == 1 || sign == -1
    ensures ((if up then m + 1 else m) * sign) % 2 == 0 <==> (m % 2 == 1) == up
  {}

  lemma Candidates(sign: int, m: int, q: int)
    requires sign == 1 || sign == -1
    requires m >= 0 && q > 0
    ensures m * q >= 0
    ensures (m * sign) * q == sign * (m * q)
    ensures ((m + 1) * sign) * q == sign * (m * q + q)
  {
    Times(0, m, q);
    Distribute(0, m, q);
    Distribute(m, -1, q);
    Distribute(-m, 1, q);
  }

  lemma NotAnInteger(sign: int, m: int, q: int, v: int, r: int)
    requires sign == 1 || sign == -1
    requires 0 < v < q
    ensures !IsRounding(Unnecessary, sign * (m * q + v), q, r)
  {
    var up := sign * r;
    assert up * q == sign * (r * q) by { Distribute(0, r, q); }
    Times(up, m, q);
    Times(m + 1, up, q);
    Distribute(m, -1, q);
  }

  // The mode whose definition `scaleAmount` meets.
  function EffectiveMode(mode: RoundingMode, scale: nat): RoundingMode {
    if mode == HalfEven && scale == 0 then HalfDown else mode
  }

  lemma HalfEvenWithNothingKept(sign: int, discarded: string)
    requires AllDigits(discarded) && discarded != ""
    ensures ShouldRoundUp(sign, "", discarded, HalfEven) == ShouldRoundUp(sign, "", discarded, HalfDown)
  {}

  lemma ScaleAmountParts(d: DecimalText, scale: nat, mode: RoundingMode)
    requires d.Valid()
    ensures ScaleAmount(d, scale, mode) ==
            if Discarded(d, scale) == "" then Ok(Magnitude(d, scale) * d.Sign())
            else RoundedUp(Magnitude(d, scale), d.Sign(),
                           ShouldRoundUp(d.Sign(), Kept(d, scale), Discarded(d, scale), mode))
  {
    MagnitudeSplits(d, scale);
    hide ShouldRoundUp, Value;
  }

  function RoundedUp(m: nat, sign: int, up: Result<bool, MoneyError>): Result<int, MoneyError> {
    match up
    case Err(e) => Err(e)
    case Ok(u) => Ok((if u then m + 1 else m) * sign)
  }

  lemma ScaleAmountReduced(d: DecimalText, scale: nat, mode: RoundingMode)
    requires d.Valid()
    ensures match ScaleAmount(d, scale, mode)
            case Ok(r) => IsRounding(EffectiveMode(mode, scale), Exact(d, scale), Unit(d, scale), r)
            case Err(e) =>
              && e == RoundingNecessary && mode == Unnecessary
              && forall r :: !IsRounding(Unnecessary, Exact(d, scale), Unit(d, scale), r)
  {
    hide ScaleAmount, ShouldRoundUp, Magnitude, Kept, Discarded, IsRounding;
    ScaleAmountParts(d, scale, mode);
    var sign, m := d.Sign(), Magnitude(d, scale);
    var kept, discarded := Kept(d, scale), Discarded(d, scale);
    if discarded == "" {
      Candidates(sign, m, 1);
      RoundingOfInteger(EffectiveMode(mode, scale), 1, m * sign);
    } else {
      if mode == HalfEven && scale == 0 {
        HalfEvenWithNothingKept(sign, discarded);
      } else if mode == HalfEven {
        MagnitudeParity(d, scale);
      }
      RoundUpMeaning(sign, m, kept, discarded, EffectiveMode(mode, scale));
      if ScaleAmount(d, scale, mode).Err? {
        forall r ensures !IsRounding(Unnecessary, Exact(d, scale), Unit(d, scale), r) {
          NotAnInteger(sign, m, Unit(d, scale), Value(discarded), r);
        }
      }
    }
  }

  lemma MagnitudeParity(d: DecimalText, scale: nat)
    requires d.Valid() && scale > 0
    ensures Magnitude(d, scale) % 2 == DigitOf(Kept(d, scale)[scale - 1]) % 2
  {
    LastDigitParity(d.integerPart + Kept(d, scale));
  }

  /**
   Rounding is exact. The result is the mathematically defined rounding of the exact decimal in
   the requested mode, except that HALF_EVEN at scale 0 rounds as HALF_DOWN; and the only failure is
   UNNECESSARY on a value that is not a whole number of minor units.
   */
  lemma ScaleAmountRounds(d: DecimalText, scale: nat, mode: RoundingMode)
    requires d.Valid()
    ensures match ScaleAmount(d, scale, mode)
            case Ok(r) => IsRounding(EffectiveMode(mode, scale), d.Numerator() * Pow10(scale), d.Denominator(), r)
            case Err(e) =>
              && e == RoundingNecessary && mode == Unnecessary
              && forall r :: !IsRounding(Unnecessary, d.Numerator() * Pow10(scale), d.Denominator(), r)
  {
    ScaleAmountReduced(d, scale, mode);
    forall r, any: RoundingMode
      ensures IsRounding(any, d.Numerator() * Pow10(scale), d.Denominator(), r)
         <==> IsRounding(any, Exact(d, scale), Unit(d, scale), r)
    {
      Transfer(d, scale, any, r);
    }
  }

  // Exactly one half after an odd integer, with no fraction digit kept.
  predicate IsOddHalf(d: DecimalText, scale: nat)
    requires d.Valid()
  {
    && scale == 0
    && d.fractionPart != "" && d.fractionPart[0] == '5' && AllZeros(d.fractionPart[1..])
    && DigitOf(d.integerPart[|d.integerPart| - 1]) % 2 == 1
  }

  /** HALF_EVEN rounds half to even on exactly the amounts that are not an odd number and a half at scale 0. */
  lemma HalfEvenExactly(d: DecimalText, scale: nat)
    requires d.Valid()
    ensures ScaleAmount(d, scale, HalfEven).Ok?
    ensures IsRounding(HalfEven, d.Numerator() * Pow10(scale), d.Denominator(), ScaleAmount(d, scale, HalfEven).value)
       <==> !IsOddHalf(d, scale)
  {
    ScaleAmountReduced(d, scale, HalfEven);
    var r := ScaleAmount(d, scale, HalfEven).value;
    Transfer(d, scale, HalfEven, r);
    if scale == 0 {
      HalfEvenAtScaleZero(d, r);
    }
  }

  lemma HalfEvenAtScaleZero(d: DecimalText, r: int)
    requires d.Valid() && ScaleAmount(d, 0, HalfEven) == Ok(r)
    requires IsRounding(HalfDown, Exact(d, 0), Unit(d, 0), r)
    ensures IsRounding(HalfEven, Exact(d, 0), Unit(d, 0), r) <==> !IsOddHalf(d, 0)
  {
    var f, m := d.fractionPart, Magnitude(d, 0);
    assert d.integerPart + Kept(d, 0) == d.integerPart;
    LastDigitParity(d.integerPart);
    var v := Value(Discarded(d, 0));
    ValueBound(Discarded(d, 0));
    HalfDownIsHalfEven(d.Sign(), m, Unit(d, 0), v, r);
    if f != "" {
      assert Discarded(d, 0) == f;
      DiscardedDigits(f);
      NonZero(f[1..]);
      ValueZero(f[1..]);
    }
  }

  lemma HalfDownIsHalfEven(sign: int, m: int, q: int, v: int, r: int)
    requires sign == 1 || sign == -1
    requires m >= 0 && 0 <= v < q
    requires IsRounding(HalfDown, sign * (m * q + v), q, r)
    ensures IsRounding(HalfEven, sign * (m * q + v), q, r) <==> !(2 * v == q && m % 2 == 1)
  {
    var num := sign * (m * q + v);
    var down, even := 2 * v > q, 2 * v > q || (2 * v == q && m % 2 == 1);
    RoundsUpWhen(sign, m, q, v, HalfDown, down);
    RoundsUpWhen(sign, m, q, v, HalfEven, even);
    RoundingUnique(HalfDown, num, q, r, (if down then m + 1 else m) * sign);
    if IsRounding(HalfEven, num, q, r) {
      RoundingUnique(HalfEven, num, q, r, (if even then m + 1 else m) * sign);
    }
  }

  /** The smallest witness: "1.5" at scale 0 becomes 1, and rounding half to even would give 2. */
  lemma HalfEvenCounterexample()
    ensures ScaleAmount(DecimalText("", "1", "5"), 0, HalfEven) == Ok(1)
    ensures IsRounding(HalfEven, DecimalText("", "1", "5").Numerator(), DecimalText("", "1", "5").Denominator(), 2)
  {
    var d := DecimalText("", "1", "5");
    assert d.integerPart[..0] == "";
    ValueAppend("1", "5");
    assert "5"[..0] == "";
    assert Value("1") == 1 && Value("5") == 5 && Pow10(1) == 10;
    assert Drop("5", 0) == "5";
    assert PadEnd("5", 0)[..0] == "";
    assert HasNonZero("5");
  }
}
