/** What `serialize`, `deserialize` and `validate` promise, over all texts, scales and modes. */
module MoneyTheorems {
  import opened Decimal
  import opened Results
  import opened Rounding
  import opened FspiopMoney
  import opened MoneyRounding
  import opened MoneyText
  import Text

  // v is the rounding of the decimal d to `scale` decimals, in minor units.
  predicate Rounds(mode: RoundingMode, d: DecimalText, scale: nat, v: int)
    requires d.Valid()
  {
    IsRounding(mode, d.Numerator() * Pow10(scale), d.Denominator(), v)
  }

  lemma RoundsNorm(mode: RoundingMode, d: DecimalText, scale: nat, v: int)
    requires d.Valid()
    ensures Rounds(mode, Norm(d), scale, v) <==> Rounds(mode, d, scale, v)
  {
    var k := NormKeepsValue(d);
    var n := Norm(d);
    RoundingScales(mode, n.Numerator() * Pow10(scale), n.Denominator(), k, v);
    Swap(n.Numerator(), k, Pow10(scale));
  }

  lemma Swap(a: int, b: int, c: int)
    ensures (a * b) * c == (a * c) * b
  {}

  lemma SerializeUnfolds(amount: string, scale: nat, mode: RoundingMode)
    ensures match DecimalOf(amount)
            case None => Serialize(amount, scale, mode) == Err(NotDecimal)
            case Some(d) => Serialize(amount, scale, mode) == InRange(ScaleAmount(Norm(d), scale, mode))
  {
    Text.TrimIdempotent(amount);
    var trimmed := Text.Trim(amount);
    NormalizeDecimal(trimmed);
    assert DecimalOf(trimmed) == DecimalOf(amount);
    if DecimalOf(amount).Some? {
      assert ParseDecimalAmount(NormalizeAmount(trimmed)) == Ok(Norm(DecimalOf(amount).value));
    }
  }

  /**
   `serialize` is correct rounding with range checks: it accepts exactly the decimal texts whose
   rounding exists and lies in [0, UINT64_MAX], and returns that rounding.
   */
  lemma SerializeMeaning(amount: string, scale: nat, mode: RoundingMode)
    ensures match Serialize(amount, scale, mode)
            case Ok(v) =>
              && DecimalOf(amount).Some?
              && Rounds(EffectiveMode(mode, scale), DecimalOf(amount).value, scale, v)
              && v <= UINT64_MAX
            case Err(NotDecimal) => DecimalOf(amount).None?
            case Err(RoundingNecessary) =>
              && DecimalOf(amount).Some? && mode == Unnecessary
              && forall v :: !Rounds(Unnecessary, DecimalOf(amount).value, scale, v)
            case Err(NegativeAmount) =>
              && DecimalOf(amount).Some?
              && exists v :: v < 0 && Rounds(EffectiveMode(mode, scale), DecimalOf(amount).value, scale, v)
            case Err(AboveUint64Max) =>
              && DecimalOf(amount).Some?
              && exists v :: v > UINT64_MAX && Rounds(EffectiveMode(mode, scale), DecimalOf(amount).value, scale, v)
            case Err(_) => false
  {
    hide ScaleAmount, Serialize, IsRounding;
    SerializeUnfolds(amount, scale, mode);
    if DecimalOf(amount).Some? {
      var d := DecimalOf(amount).value;
      ScaleAmountRounds(Norm(d), scale, mode);
      forall v, any: RoundingMode ensures Rounds(any, Norm(d), scale, v) <==> Rounds(any, d, scale, v) {
        RoundsNorm(any, d, scale, v);
      }
      if ScaleAmount(Norm(d), scale, mode).Ok? {
        assert Rounds(EffectiveMode(mode, scale), d, scale, ScaleAmount(Norm(d), scale, mode).value);
      }
    }
  }

  // The decimal denotes exactly v minor units.
  predicate IsExactly(d: DecimalText, scale: nat, v: int)
    requires d.Valid()
  {
    d.Numerator() * Pow10(scale) == v * d.Denominator()
  }

  lemma ExactlyRounds(d: DecimalText, scale: nat, v: int, mode: RoundingMode, w: int)
    requires d.Valid() && IsExactly(d, scale, v)
    ensures Rounds(mode, d, scale, w) <==> w == v
  {
    RoundingOfInteger(mode, d.Denominator(), v);
    if Rounds(mode, d, scale, w) {
      RoundingUnique(mode, d.Numerator() * Pow10(scale), d.Denominator(), w, v);
    }
  }

  /** A whole number of minor units in range serialises to itself in every mode. */
  lemma SerializeExact(amount: string, scale: nat, mode: RoundingMode, v: nat)
    requires DecimalOf(amount).Some? && IsExactly(DecimalOf(amount).value, scale, v)
    requires v <= UINT64_MAX
    ensures Serialize(amount, scale, mode) == Ok(v)
  {
    var d := DecimalOf(amount).value;
    SerializeMeaning(amount, scale, mode);
    forall w, any: RoundingMode ensures Rounds(any, d, scale, w) <==> w == v {
      ExactlyRounds(d, scale, v, any, w);
    }
    assert Rounds(Unnecessary, d, scale, v);
  }

  lemma SerializeTooLarge(amount: string, scale: nat, mode: RoundingMode, v: nat)
    requires DecimalOf(amount).Some? && IsExactly(DecimalOf(amount).value, scale, v)
    requires v > UINT64_MAX
    ensures Serialize(amount, scale, mode) == Err(AboveUint64Max)
  {
    var d := DecimalOf(amount).value;
    SerializeMeaning(amount, scale, mode);
    forall w, any: RoundingMode ensures Rounds(any, d, scale, w) <==> w == v {
      ExactlyRounds(d, scale, v, any, w);
    }
    assert Rounds(Unnecessary, d, scale, v);
  }

  lemma NormExactly(d: DecimalText, scale: nat, v: int)
    requires d.Valid()
    ensures IsExactly(Norm(d), scale, v) <==> IsExactly(d, scale, v)
  {
    RoundsNorm(Unnecessary, d, scale, v);
  }

  // ---- deserialize -------------------------------------------------------------------------

  // The decimal that `deserialize` writes before normalising it.
  function Unnormalised(amount: nat, scale: nat): (d: DecimalText)
    ensures d.Valid()
  {
    var text := NatText(amount);
    NatTextValue(amount);
    if scale == 0 then DecimalText("", text, "")
    else if |text| <= scale then DecimalText("", "0", PadStart(text, scale))
    else DecimalText("", text[..|text| - scale], text[|text| - scale..])
  }

  lemma UnnormalisedValue(amount: nat, scale: nat)
    ensures var d := Unnormalised(amount, scale);
            && d.Valid() && d.sign == "" && |d.fractionPart| == scale
            && NoLeadingZero(d.integerPart)
            && Value(d.integerPart + d.fractionPart) == amount
  {
    var d, text := Unnormalised(amount, scale), NatText(amount);
    NatTextValue(amount);
    if scale == 0 {
      assert text + "" == text;
    } else if |text| <= scale {
      var zeros := Zeros(1 + scale - |text|);
      assert "0" + PadStart(text, scale) == zeros + text;
      ValueAppend(zeros, text);
      ValueZero(zeros);
    } else {
      assert d.integerPart + d.fractionPart == text;
    }
  }

  /** `deserialize` prints the canonical text of exactly amount / 10^scale, with at most `scale` decimals. */
  lemma DeserializeMeaning(amount: nat, scale: nat)
    ensures Deserialize(amount, scale).Ok?
    ensures var t := Deserialize(amount, scale).value;
            && DecimalOf(t).Some?
            && t == DecimalOf(t).value.Print()
            && Canonical(DecimalOf(t).value)
            && |DecimalOf(t).value.fractionPart| <= scale
            && IsExactly(DecimalOf(t).value, scale, amount)
  {
    var d := Unnormalised(amount, scale);
    UnnormalisedValue(amount, scale);
    assert IsExactly(d, scale, amount);
    NormExactly(d, scale, amount);
    DeserializePrintsNorm(amount, scale);
    MatchPrint(Norm(d));
    PrintIsTrimmed(Norm(d));
  }

  lemma PrintParts(d: DecimalText)
    requires d.sign == ""
    ensures d.Print() == if d.fractionPart == "" then d.integerPart else d.integerPart + "." + d.fractionPart
  {}

  lemma DeserializeNormalises(amount: nat, scale: nat)
    requires scale > 0
    ensures Deserialize(amount, scale) == Ok(NormalizeAmount(Unnormalised(amount, scale).Print()))
  {
    PrintParts(Unnormalised(amount, scale));
    if |NatText(amount)| <= scale {
      assert "0" + "." == "0.";
    }
  }

  lemma DeserializePrintsNorm(amount: nat, scale: nat)
    ensures Deserialize(amount, scale) == Ok(Norm(Unnormalised(amount, scale)).Print())
  {
    var d := Unnormalised(amount, scale);
    if scale == 0 {
      StripFixes("");
      assert Norm(d) == d;
      PrintParts(d);
    } else {
      MatchPrint(d);
      PrintIsTrimmed(d);
      NormalizeDecimal(d.Print());
      DeserializeNormalises(amount, scale);
    }
  }

  /** Printing a scaled amount and reading it back gives the amount, in every mode. */
  lemma SerializeDeserialize(amount: nat, scale: nat, mode: RoundingMode)
    requires amount <= UINT64_MAX
    ensures Deserialize(amount, scale).Ok?
    ensures Serialize(Deserialize(amount, scale).value, scale, mode) == Ok(amount)
  {
    DeserializeMeaning(amount, scale);
    SerializeExact(Deserialize(amount, scale).value, scale, mode, amount);
  }

  // A caller's check that the text can survive the round trip at this scale.
  predicate SurvivesRoundTrip(d: DecimalText, scale: nat)
    requires d.Valid()
  {
    && d.sign == ""
    && NoLeadingZero(d.integerPart)
    && |Norm(d).fractionPart| <= scale
  }

  lemma ShortFractionIsExact(d: DecimalText, scale: nat)
    requires d.Valid() && |d.fractionPart| <= scale
    ensures IsExactly(d, scale, Exact(d, scale))
  {
    DecomposeShort(d, scale);
  }

  lemma ExactlySameValue(d: DecimalText, e: DecimalText, scale: nat, v: int)
    requires d.Valid() && e.Valid() && IsExactly(d, scale, v) && IsExactly(e, scale, v)
    ensures SameValue(d, e)
  {
    var p := Pow10(scale);
    Swap(d.Numerator(), e.Denominator(), p);
    Swap(e.Numerator(), d.Denominator(), p);
    Swap(v, d.Denominator(), e.Denominator());
    CancelFactor(d.Numerator() * e.Denominator(), e.Numerator() * d.Denominator(), p);
  }

  /**
   Reading a text and printing it back gives its normal form exactly when the text is unsigned,
   has no leading zero and carries no significant digit beyond the scale.
   */
  lemma DeserializeSerialize(amount: string, scale: nat, mode: RoundingMode)
    requires Serialize(amount, scale, mode).Ok?
    ensures DecimalOf(amount).Some?
    ensures Deserialize(Serialize(amount, scale, mode).value, scale) == Ok(NormalizeAmount(amount))
       <==> SurvivesRoundTrip(DecimalOf(amount).value, scale)
  {
    var v := Serialize(amount, scale, mode).value;
    SerializeMeaning(amount, scale, mode);
    NormalizeDecimal(amount);
    DeserializeMeaning(v, scale);
    var n := Norm(DecimalOf(amount).value);
    var t := Deserialize(v, scale).value;
    if SurvivesRoundTrip(DecimalOf(amount).value, scale) {
      ShortFractionIsExact(n, scale);
      var x := Exact(n, scale);
      RoundsNorm(EffectiveMode(mode, scale), DecimalOf(amount).value, scale, v);
      RoundingOfInteger(EffectiveMode(mode, scale), n.Denominator(), x);
      RoundingUnique(EffectiveMode(mode, scale), n.Numerator() * Pow10(scale), n.Denominator(), v, x);
      ExactlySameValue(n, DecimalOf(t).value, scale, v);
      CanonicalUnique(n, DecimalOf(t).value);
    }
  }

  // ---- the exactness check of validate --------------------------------------------------------

  lemma ScaleOfPrint(d: DecimalText)
    requires d.Valid()
    ensures ScaleOf(d.Print()) == |d.fractionPart|
  {
    var s := d.Print();
    var lead := d.sign + d.integerPart;
    var tail := if d.fractionPart == "" then "" else "." + d.fractionPart;
    var dot := |lead|;
    assert s == lead + tail;
    assert forall i | 0 <= i < |lead| :: lead[i] != '.';
    forall i | 0 <= i < dot ensures !Text.OccursAt(s, ".", i) {
      assert s[i..i + 1] == [lead[i]];
    }
    if d.fractionPart == "" {
      Text.IndexOfIsLeast(s, ".");
      assert Text.IndexOf(s, ".") < 0 || Text.OccursAt(s, ".", Text.IndexOf(s, "."));
    } else {
      assert s[dot..dot + 1] == ".";
      Text.IndexOfAt(s, ".", dot);
    }
  }

  /**
   The check counts decimals, and that is the arithmetic question: the text has at most `scale`
   significant decimals iff it is a whole number of minor units, iff UNNECESSARY does not fail.
   */
  lemma ScaleCheckIsExactness(amount: string, scale: nat)
    requires DecimalOf(amount).Some?
    ensures ScaleOf(NormalizeAmount(amount)) <= scale
       <==> Serialize(amount, scale, Unnecessary) != Err(RoundingNecessary)
    ensures ScaleOf(NormalizeAmount(amount)) <= scale
       <==> exists v :: IsExactly(DecimalOf(amount).value, scale, v)
    ensures ScaleOf(NormalizeAmount(amount)) <= scale ==>
              forall mode: RoundingMode :: Serialize(amount, scale, mode) == Serialize(amount, scale, Unnecessary)
  {
    var d := DecimalOf(amount).value;
    NormalizeDecimal(amount);
    ScaleOfPrint(Norm(d));
    if |Norm(d).fractionPart| <= scale {
      ShortIsExact(amount, scale);
    } else {
      LongIsInexact(amount, scale);
    }
  }

  lemma ShortIsExact(amount: string, scale: nat)
    requires DecimalOf(amount).Some? && |Norm(DecimalOf(amount).value).fractionPart| <= scale
    ensures exists v :: IsExactly(DecimalOf(amount).value, scale, v)
    ensures Serialize(amount, scale, Unnecessary) != Err(RoundingNecessary)
    ensures forall mode: RoundingMode :: Serialize(amount, scale, mode) == Serialize(amount, scale, Unnecessary)
  {
    var d := DecimalOf(amount).value;
    ShortFractionIsExact(Norm(d), scale);
    NormExactly(d, scale, Exact(Norm(d), scale));
    forall mode: RoundingMode
      ensures Serialize(amount, scale, mode) == Serialize(amount, scale, Unnecessary)
    {
      ShortModesAgree(amount, scale, mode);
    }
    ShortModesAgree(amount, scale, Unnecessary);
  }

  lemma ShortModesAgree(amount: string, scale: nat, mode: RoundingMode)
    requires DecimalOf(amount).Some? && |Norm(DecimalOf(amount).value).fractionPart| <= scale
    ensures Serialize(amount, scale, mode) == Serialize(amount, scale, Unnecessary)
    ensures Serialize(amount, scale, mode) != Err(RoundingNecessary)
  {
    hide ScaleAmount, Serialize;
    NothingDiscarded(Norm(DecimalOf(amount).value), scale, mode);
    SerializeUnfolds(amount, scale, mode);
    SerializeUnfolds(amount, scale, Unnecessary);
  }

  lemma NothingDiscarded(d: DecimalText, scale: nat, mode: RoundingMode)
    requires d.Valid() && |d.fractionPart| <= scale
    ensures ScaleAmount(d, scale, mode).Ok?
    ensures ScaleAmount(d, scale, mode) == ScaleAmount(d, scale, Unnecessary)
  {}

  lemma SomethingDiscarded(d: DecimalText, scale: nat)
    requires d.Valid() && |d.fractionPart| > scale && d.fractionPart[|d.fractionPart| - 1] != '0'
    ensures ScaleAmount(d, scale, Unnecessary) == Err(RoundingNecessary)
  {
    var f := d.fractionPart;
    assert f[scale..][|f| - scale - 1] == f[|f| - 1];
    assert HasNonZero(f[scale..]);
  }

  lemma LongIsInexact(amount: string, scale: nat)
    requires DecimalOf(amount).Some? && |Norm(DecimalOf(amount).value).fractionPart| > scale
    ensures forall v :: !IsExactly(DecimalOf(amount).value, scale, v)
    ensures Serialize(amount, scale, Unnecessary) == Err(RoundingNecessary)
  {
    hide *;
    var d := DecimalOf(amount).value;
    NormDiscards(d, scale);
    SerializeUnfolds(amount, scale, Unnecessary);
    InRangeError(RoundingNecessary);
    forall v ensures !IsExactly(d, scale, v) {
      NotExact(d, scale, v);
    }
  }

  lemma NormDiscards(d: DecimalText, scale: nat)
    requires d.Valid() && |Norm(d).fractionPart| > scale
    ensures ScaleAmount(Norm(d), scale, Unnecessary) == Err(RoundingNecessary)
  {
    hide ScaleAmount;
    SomethingDiscarded(Norm(d), scale);
  }

  lemma InRangeError(e: MoneyError)
    ensures InRange(Err(e)) == Err(e)
  {}

  lemma NotExact(d: DecimalText, scale: nat, v: int)
    requires d.Valid() && ScaleAmount(Norm(d), scale, Unnecessary).Err?
    ensures !IsExactly(d, scale, v)
  {
    hide ScaleAmount;
    ScaleAmountRounds(Norm(d), scale, Unnecessary);
    RoundsNorm(Unnecessary, d, scale, v);
  }

  /** `validate` accepts a decimal iff its currency is known and the amount is a whole number of minor units. */
  lemma ValidateDecimal(currency: string, amount: string, profiles: CurrencyProfiles)
    requires DecimalOf(amount).Some?
    ensures AmountVerdict(currency, amount, profiles) == Ok(())
       <==> currency in profiles && exists v :: IsExactly(DecimalOf(amount).value, profiles[currency], v)
  {
    if currency in profiles {
      ScaleCheckIsExactness(amount, profiles[currency]);
    }
  }

  /**
   Text that is not a decimal can pass the same check, so acceptance alone does not make an amount
   readable. An accepted text can be read exactly when it is a decimal in range, and then as just what it
   denotes; being no decimal, negative, or too large are the only ways in which reading can fail.
   */
  lemma AcceptedIsReadable(currency: string, amount: string, profiles: CurrencyProfiles, mode: RoundingMode)
    requires AmountVerdict(currency, amount, profiles) == Ok(())
    ensures currency in profiles
    ensures var scale := profiles[currency];
      match Serialize(amount, scale, mode)
      case Ok(v) => DecimalOf(amount).Some? && IsExactly(DecimalOf(amount).value, scale, v) && v <= UINT64_MAX
      case Err(NotDecimal) => DecimalOf(amount).None?
      case Err(NegativeAmount) =>
        DecimalOf(amount).Some? && exists v :: v < 0 && IsExactly(DecimalOf(amount).value, scale, v)
      case Err(AboveUint64Max) =>
        DecimalOf(amount).Some? && exists v :: v > UINT64_MAX && IsExactly(DecimalOf(amount).value, scale, v)
      case Err(_) => false
    ensures Serialize(amount, profiles[currency], mode).Ok? <==>
              DecimalOf(amount).Some?
              && exists v :: 0 <= v <= UINT64_MAX && IsExactly(DecimalOf(amount).value, profiles[currency], v)
  {
    hide Serialize, IsExactly, Rounds;
    var scale := profiles[currency];
    SerializeMeaning(amount, scale, mode);
    if DecimalOf(amount).Some? {
      var d := DecimalOf(amount).value;
      ScaleCheckIsExactness(amount, scale);
      var x :| IsExactly(d, scale, x);
      forall w, any: RoundingMode ensures Rounds(any, d, scale, w) <==> w == x {
        ExactlyRounds(d, scale, x, any, w);
      }
      forall w ensures IsExactly(d, scale, w) <==> w == x {
        ExactlyIsUnnecessary(d, scale, w);
      }
    }
  }

  lemma ExactlyIsUnnecessary(d: DecimalText, scale: nat, v: int)
    requires d.Valid()
    ensures IsExactly(d, scale, v) <==> Rounds(Unnecessary, d, scale, v)
  {}

  lemma AbcIsNoDecimal()
    ensures DecimalOf("abc") == None && Text.Trim("abc") == "abc"
  {
    Text.TrimFixes("abc");
    assert DigitRun("abc") == 0;
  }

  lemma AcceptedNonDecimalExample()
    ensures AmountVerdict("USD", "abc", map["USD" := 2]) == Ok(())
    ensures Serialize("abc", 2, HalfUp) == Err(NotDecimal)
  {
    hide MatchDecimal, Text.Trim, Serialize, NormalizeAmount;
    AbcIsNoDecimal();
    SerializeUnfolds("abc", 2, HalfUp);
    NormalizeDecimal("abc");
    Text.IndexOfIsLeast("abc", ".");
    assert Text.IndexOf("abc", ".") < 0 || "abc"[Text.IndexOf("abc", ".")] == '.';
  }

  /** A negative scale is refused before anything else, and so is then a negative amount to print. */
  lemma ArgumentErrors(amount: string, mode: RoundingMode, minor: int, scale: int)
    ensures scale < 0 ==> Serialize(amount, scale, mode) == Err(InvalidScale)
    ensures scale < 0 ==> Deserialize(minor, scale) == Err(InvalidScale)
    ensures scale >= 0 && minor < 0 ==> Deserialize(minor, scale) == Err(NegativeAmount)
    ensures scale >= 0 && minor >= 0 ==> Deserialize(minor, scale).Ok?
  {
    hide NormalizeAmount, NatText;
  }

  // More than n characters follow the first dot.
  predicate HasLongTail(t: string, n: nat) {
    exists i :: 0 <= i < |t| && t[i] == '.' && '.' !in t[..i] && |t| - i - 1 > n
  }

  /** The verdict on any text, decimal or not: unknown currency first, then too many characters after the dot. */
  lemma VerdictOnAnyText(currency: string, amount: string, profiles: CurrencyProfiles)
    ensures AmountVerdict(currency, amount, profiles)
         == if currency !in profiles then Err(UnknownCurrency)
            else if HasLongTail(NormalizeAmount(amount), profiles[currency]) then Err(TooManyDecimals)
            else Ok(())
  {
    hide NormalizeAmount, Text.IndexOf;
    var t := NormalizeAmount(amount);
    var dot := Text.IndexOf(t, ".");
    Text.IndexOfIsLeast(t, ".");
    forall i | 0 <= i < |t| ensures Text.OccursAt(t, ".", i) <==> t[i] == '.' {
      assert t[i..i + 1] == [t[i]];
    }
    if dot >= 0 {
      assert Text.OccursAt(t, ".", dot);
      assert '.' !in t[..dot];
    }
    if i :| 0 <= i < |t| && t[i] == '.' && '.' !in t[..i] {
      FirstDot(t, i);
    }
  }

  lemma FirstDot(t: string, i: nat)
    requires i < |t| && t[i] == '.' && '.' !in t[..i]
    ensures Text.IndexOf(t, ".") == i
  {
    hide Text.IndexOf;
    assert t[i..i + 1] == ".";
    forall j | 0 <= j < i ensures !Text.OccursAt(t, ".", j) {
      assert t[j..j + 1] == [t[..i][j]];
    }
    Text.IndexOfAt(t, ".", i);
  }

  lemma PlainDecimal(n: nat)
    ensures DecimalOf(NatText(n)).Some? && IsExactly(DecimalOf(NatText(n)).value, 0, n)
  {
    hide MatchDecimal, NatText, Value, Text.Trim;
    NatTextValue(n);
    var d := DecimalText("", NatText(n), "");
    assert d.Valid() && d.Print() == NatText(n);
    MatchPrint(d);
    PrintIsTrimmed(d);
    assert NatText(n) + "" == NatText(n);
  }

  /** Plain integers up to 2^64 - 1 are read as themselves at scale 0, in every mode, and the next is too large. */
  lemma PlainIntegers(n: nat, mode: RoundingMode)
    ensures Serialize(NatText(n), 0, mode) == if n <= 18446744073709551615 then Ok(n) else Err(AboveUint64Max)
  {
    hide Serialize, NatText, DecimalOf, IsExactly;
    PlainDecimal(n);
    if n <= UINT64_MAX {
      SerializeExact(NatText(n), 0, mode, n);
    } else {
      SerializeTooLarge(NatText(n), 0, mode, n);
    }
  }
}
