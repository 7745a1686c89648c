/** What `validate` lets pass, how far it bounds the scheme fee, and what the extension list holds. */
module FeeBounds {
  import opened CatalystFees
  import opened Decimal
  import opened ExtensionKeys
  import opened FeeTheorems
  import opened FspiopMoney
  import opened Results
  import opened Sums
  import MoneyText
  import MoneyTheorems
  import Rounding
  import Text

  // ---- the validator's bound ------------------------------------------------------------------------

  // What a split with an amount would cost, charged or not.
  function FullWeight(scale: nat): ((string, Fee)) -> nat {
    (s: (string, Fee)) => AmountOf(s.1, scale)
  }

  // Splits under one of these keys.
  function CoveredWeight(keys: set<string>, scale: nat): ((string, Fee)) -> nat {
    (s: (string, Fee)) => if ToExtensionKey(s.0) in keys then AmountOf(s.1, scale) else 0
  }

  lemma SplitsAreChargedOrCovered(keys: set<string>, splits: seq<(string, Fee)>, scale: nat)
    ensures SumBy(splits, FullWeight(scale))
         == SumBy(splits, SplitWeight(keys, scale)) + SumBy(splits, CoveredWeight(keys, scale))
  {
    SumByPlus(splits, FullWeight(scale), SplitWeight(keys, scale), CoveredWeight(keys, scale));
  }

  lemma CoveredByKey(keys: set<string>, key: string, splits: seq<(string, Fee)>, scale: nat)
    requires key !in keys
    ensures SumBy(splits, CoveredWeight(keys + {key}, scale))
         == SumBy(splits, CoveredWeight(keys, scale)) + SumBy(splits, CoveredWeight({key}, scale))
  {
    hide ToExtensionKey, AmountOf;
    SumByPlus(splits, CoveredWeight(keys + {key}, scale), CoveredWeight(keys, scale), CoveredWeight({key}, scale));
  }

  lemma {:induction false} FirstPresentIn(splits: FeeSplits, keys: seq<string>)
    ensures FirstPresent(splits, keys).Some? ==>
              exists k | k in keys :: (k, FirstPresent(splits, keys).value) in splits
  {
    if keys != [] && Lookup(splits, keys[0]).None? {
      FirstPresentIn(splits, keys[1..]);
      if FirstPresent(splits, keys).Some? {
        var k :| k in keys[1..] && (k, FirstPresent(splits, keys).value) in splits;
        assert k in keys;
      }
    }
  }

  // An accepted fee is at most what its role's splits are calculated to cost.
  lemma AcceptedFee(role: FeeSplitRole, fee: Fee, splits: FeeSplits, profiles: CurrencyProfiles)
    requires CheckFee(role, fee, FirstPresent(splits, CandidateKeys(role)), profiles).Ok?
    ensures fee.currency.Some? && fee.currency.value in profiles
    ensures AmountOf(fee, profiles[fee.currency.value])
         <= SumBy(splits, CoveredWeight({RoleKey(role)}, profiles[fee.currency.value]))
  {
    hide SerializeFee, ToExtensionKey, CandidateKeys;
    var scale := profiles[fee.currency.value];
    var split := FirstPresent(splits, CandidateKeys(role)).value;
    FirstPresentIn(splits, CandidateKeys(role));
    var k :| k in CandidateKeys(role) && (k, split) in splits;
    AliasesNormalise(role, k);
    SumByAtLeast(splits, CoveredWeight({RoleKey(role)}, scale), (k, split));
  }

  lemma {:induction false} VerdictElements(
    fees: seq<(FeeSplitRole, Fee)>, splits: FeeSplits, profiles: CurrencyProfiles)
    requires Verdict(fees, splits, profiles).Ok?
    ensures forall f | f in fees :: CheckFee(f.0, f.1, FirstPresent(splits, CandidateKeys(f.0)), profiles).Ok?
  {
    hide CheckFee, FirstPresent;
    if fees != [] {
      VerdictElements(fees[1..], splits, profiles);
      assert fees == [fees[0]] + fees[1..];
    }
  }

  /** The first of the keys that is present, and no earlier one is. */
  lemma {:induction false} FirstPresentMeaning(splits: FeeSplits, keys: seq<string>)
    ensures FirstPresent(splits, keys).None? <==> forall k | k in keys :: Lookup(splits, k).None?
    ensures FirstPresent(splits, keys).Some? ==> exists i ::
              && 0 <= i < |keys| && FirstPresent(splits, keys) == Lookup(splits, keys[i])
              && forall j | 0 <= j < i :: Lookup(splits, keys[j]).None?
  {
    hide Lookup;
    assert keys != [] ==> keys[0] in keys;
    if keys != [] && Lookup(splits, keys[0]).None? {
      FirstPresentMeaning(splits, keys[1..]);
      assert keys == [keys[0]] + keys[1..];
      if FirstPresent(splits, keys).Some? {
        var i :| 0 <= i < |keys[1..]| && FirstPresent(splits, keys[1..]) == Lookup(splits, keys[1..][i])
          && forall j | 0 <= j < i :: Lookup(splits, keys[1..][j]).None?;
        forall j | 0 <= j < i + 1 ensures Lookup(splits, keys[j]).None? {
          assert j > 0 ==> keys[j] == keys[1..][j - 1];
        }
        assert keys[i + 1] == keys[1..][i];
      }
    }
  }

  /** Fee and split are amounts of one known currency, and the fee is not more than the split. */
  predicate Acceptable(fee: Fee, split: Fee, profiles: CurrencyProfiles) {
    && fee.currency.Some? && fee.currency == split.currency && fee.currency.value in profiles
    && fee.amount.Some? && split.amount.Some?
    && var scale := profiles[fee.currency.value];
       var own, calculated := SerializeFee(fee.amount, scale), SerializeFee(split.amount, scale);
       own.Ok? && calculated.Ok? && own.value <= calculated.value
  }

  /** `validate` passes exactly without a policy, or when every fee is acceptable against its role's split. */
  lemma ValidatePassesExactly(fees: FeeMap, result: FeeCalculationResult, profiles: CurrencyProfiles)
    ensures ValidateSpec(fees, result, profiles).Ok? <==>
              result.feePolicy.None? || forall f | f in fees ::
                var split := FirstPresent(result.feeSplits, CandidateKeys(f.0));
                split.Some? && Acceptable(f.1, split.value, profiles)
  {
    hide CandidateKeys, SerializeFee, FirstPresent;
    VerdictPasses(fees, result.feeSplits, profiles);
  }

  lemma {:induction false} VerdictPasses(fees: seq<(FeeSplitRole, Fee)>, splits: FeeSplits, profiles: CurrencyProfiles)
    ensures Verdict(fees, splits, profiles).Ok? <==>
              forall f | f in fees ::
                var split := FirstPresent(splits, CandidateKeys(f.0));
                split.Some? && Acceptable(f.1, split.value, profiles)
  {
    hide CandidateKeys, SerializeFee, FirstPresent;
    if fees != [] {
      VerdictPasses(fees[1..], splits, profiles);
      assert fees == [fees[0]] + fees[1..];
    }
  }

  /** And it reports the failure of the first fee that has one. */
  lemma {:induction false} VerdictIsFirstFailure(
    fees: seq<(FeeSplitRole, Fee)>, splits: FeeSplits, profiles: CurrencyProfiles) returns (i: nat)
    requires Verdict(fees, splits, profiles).Err?
    ensures i < |fees|
    ensures CheckFee(fees[i].0, fees[i].1, FirstPresent(splits, CandidateKeys(fees[i].0)), profiles)
         == Verdict(fees, splits, profiles)
    ensures forall j | 0 <= j < i ::
              CheckFee(fees[j].0, fees[j].1, FirstPresent(splits, CandidateKeys(fees[j].0)), profiles).Ok?
  {
    hide CheckFee, CandidateKeys, FirstPresent;
    if CheckFee(fees[0].0, fees[0].1, FirstPresent(splits, CandidateKeys(fees[0].0)), profiles).Err? {
      return 0;
    }
    var rest := VerdictIsFirstFailure(fees[1..], splits, profiles);
    i := rest + 1;
    assert forall j | 0 <= j < |fees| - 1 :: fees[1..][j] == fees[j + 1];
  }

  /** A split under any accepted name of a role is found, and if it is the only one it is the one used. */
  lemma AliasIsFound(role: FeeSplitRole, alias: string, splits: FeeSplits)
    requires match role
      case Payer => alias in ["PAYER_FSP", "payer_fsp", "payer_fsp_fee", "payer_fsp_fee_cc"]
      case Payee => alias in ["PAYEE_FSP", "payee_fsp", "payee_fsp_fee", "payee_fsp_fee_cc"]
      case Hub => alias in ["HUB", "hub", "hub_fee"]
      case Si => alias in ["SI", "si"]
      case Fxp => alias in ["FXP", "fxp"]
    ensures Lookup(splits, alias).Some? ==> FirstPresent(splits, CandidateKeys(role)).Some?
    ensures Lookup(splits, alias).Some?
            && (forall k | k in CandidateKeys(role) && k != alias :: Lookup(splits, k).None?) ==>
              FirstPresent(splits, CandidateKeys(role)) == Lookup(splits, alias)
  {
    hide Lookup, FirstPresent;
    assert alias in CandidateKeys(role);
    FirstPresentMeaning(splits, CandidateKeys(role));
  }

  /** The role's own name is preferred to its aliases. */
  lemma OwnNameFirst(role: FeeSplitRole, splits: FeeSplits)
    ensures var name := match role
                        case Payer => "PAYER_FSP"
                        case Payee => "PAYEE_FSP"
                        case Hub => "HUB"
                        case Si => "SI"
                        case Fxp => "FXP";
      Lookup(splits, name).Some? ==> FirstPresent(splits, CandidateKeys(role)) == Lookup(splits, name)
  {}

  /** What each failure of a fee says about fee and split. */
  lemma FeeFailureMeaning(role: FeeSplitRole, fee: Fee, split: Option<Fee>, profiles: CurrencyProfiles)
    ensures match CheckFee(role, fee, split, profiles)
      case Ok(_) => split.Some? && Acceptable(fee, split.value, profiles)
      case Err(SplitNotResolved(r)) => r == role && split.None?
      case Err(MissingCurrency(r)) => r == role && (fee.currency.None? || split.value.currency.None?)
      case Err(CurrencyMismatch(r)) =>
        r == role && fee.currency.Some? && split.value.currency.Some? && fee.currency != split.value.currency
      case Err(MissingAmount(r)) => r == role && (fee.amount.None? || split.value.amount.None?)
      case Err(WrongCurrency(r)) => r == role && fee.currency.value !in profiles
      case Err(FeeTooLarge(r)) =>
        var scale := profiles[fee.currency.value];
        && r == role && SerializeFee(fee.amount, scale).Ok? && SerializeFee(split.value.amount, scale).Ok?
        && SerializeFee(fee.amount, scale).value > SerializeFee(split.value.amount, scale).value
      case Err(BadAmount(e)) =>
        var scale := profiles[fee.currency.value];
        || (fee.amount.Some? && Serialize(fee.amount.value, scale, Rounding.HalfUp) == Err(e))
        || (split.value.amount.Some? && Serialize(split.value.amount.value, scale, Rounding.HalfUp) == Err(e))
      case Err(_) => false
  {
    hide Serialize;
  }

  predicate OneCurrency(fees: seq<(FeeSplitRole, Fee)>, currency: string) {
    forall f | f in fees :: f.1.currency == Some(currency)
  }

  lemma {:induction false} AcceptedFees(fees: seq<(FeeSplitRole, Fee)>, splits: FeeSplits, profiles: CurrencyProfiles,
                                        currency: string)
    requires DistinctRoles(fees) && OneCurrency(fees, currency) && currency in profiles
    requires forall f | f in fees :: CheckFee(f.0, f.1, FirstPresent(splits, CandidateKeys(f.0)), profiles).Ok?
    ensures SumBy(fees, FeeWeight(profiles[currency]))
         <= SumBy(splits, CoveredWeight(FeeKeys(fees), profiles[currency]))
  {
    hide CheckFee, FirstPresent, AmountOf, RoleKey, ToExtensionKey;
    if fees != [] {
      var front, last := fees[..|fees| - 1], fees[|fees| - 1];
      AcceptedFees(front, splits, profiles, currency);
      AcceptedFee(last.0, last.1, splits, profiles);
      assert fees == front + [last];
      assert FeeKeys(fees) == FeeKeys(front) + {RoleKey(last.0)};
      assert RoleKey(last.0) !in FeeKeys(front) by {
        forall f | f in front ensures RoleKey(f.0) != RoleKey(last.0) {
          RoleKeysDistinct(f.0, last.0);
        }
      }
      CoveredByKey(FeeKeys(front), RoleKey(last.0), splits, profiles[currency]);
    }
  }

  /**
   The bound across both files: with a policy and one currency, a fee map that `validate` accepts
   cannot make the engine charge more than all calculated splits together.
   */
  lemma SchemeFeeBound(fees: FeeMap, result: FeeCalculationResult, profiles: CurrencyProfiles, currency: string)
    requires result.feePolicy.Some? && ValidateSpec(fees, result, profiles).Ok?
    requires OneCurrency(fees, currency) && currency in profiles
    requires SchemeFeeTotal(fees, result.feeSplits, profiles[currency]).Ok?
    ensures SchemeFeeTotal(fees, result.feeSplits, profiles[currency]).value
         <= SumBy(result.feeSplits, FullWeight(profiles[currency]))
  {
    var scale, splits := profiles[currency], result.feeSplits;
    TotalByWeight(fees, splits, scale);
    VerdictElements(fees, splits, profiles);
    AcceptedFees(fees, splits, profiles, currency);
    SplitsAreChargedOrCovered(FeeKeys(fees), splits, scale);
  }

  // ---- the extension list ----------------------------------------------------------------------------

  lemma {:induction false} CcKeysEndInCc(splits: seq<(string, Fee)>)
    ensures forall e | e in CcExtensions(splits) :: Text.EndsWith(e.key, "_cc")
  {
    hide ToExtensionKey;
    if splits != [] {
      CcKeysEndInCc(splits[..|splits| - 1]);
      assert forall key: string :: Text.EndsWith(key + "_cc", "_cc");
    }
  }

  lemma FeeKeysAreNotSchemeFee(fees: seq<(FeeSplitRole, Fee)>)
    ensures forall e | e in FeeExtensions(fees) :: e.key != SCHEME_FEE_AMOUNT_KEY
  {
    hide RoleKey;
    forall e | e in FeeExtensions(fees) ensures e.key != SCHEME_FEE_AMOUNT_KEY {
      var i :| 0 <= i < |fees| && FeeExtensions(fees)[i] == e;
      RoleKeyOf(fees[i].0);
      assert |SCHEME_FEE_AMOUNT_KEY| == 17;
    }
  }

  /** The splits that have an amount, in their order. */
  function Priced(splits: seq<(string, Fee)>): seq<(string, Fee)> {
    if splits == [] then []
    else
      var last := splits[|splits| - 1];
      Priced(splits[..|splits| - 1]) + (if last.1.amount.Some? then [last] else [])
  }

  predicate InOrder(splits: seq<(string, Fee)>, x: (string, Fee), y: (string, Fee)) {
    exists p, q :: 0 <= p < q < |splits| && splits[p] == x && splits[q] == y
  }

  /** Which splits these are: those with an amount, each as often as it is there. */
  lemma {:induction false} PricedMeaning(splits: seq<(string, Fee)>, s: (string, Fee))
    ensures multiset(Priced(splits))[s] == if s.1.amount.Some? then multiset(splits)[s] else 0
  {
    if splits != [] {
      var front, last := splits[..|splits| - 1], splits[|splits| - 1];
      PricedMeaning(front, s);
      assert splits == front + [last];
    }
  }

  /** And they come in their order. */
  lemma {:induction false} PricedInOrder(splits: seq<(string, Fee)>, i: nat, j: nat)
    requires i < j < |Priced(splits)|
    ensures InOrder(splits, Priced(splits)[i], Priced(splits)[j])
  {
    var n := |splits| - 1;
    var front := splits[..n];
    var earlier := Priced(front);
    if j < |earlier| {
      PricedInOrder(front, i, j);
      var p, q :| 0 <= p < q < n && front[p] == earlier[i] && front[q] == earlier[j];
      assert splits[p] == front[p] && splits[q] == front[q];
    } else {
      PricedIsSplit(front, i);
      var p :| 0 <= p < n && front[p] == earlier[i];
      assert splits[p] == front[p] && splits[n] == Priced(splits)[j];
    }
  }

  lemma PricedIsSplit(splits: seq<(string, Fee)>, i: nat)
    requires i < |Priced(splits)|
    ensures Priced(splits)[i] in splits
  {
    PricedMeaning(splits, Priced(splits)[i]);
    assert Priced(splits)[i] in multiset(Priced(splits));
    assert Priced(splits)[i] in multiset(splits);
  }

  lemma {:induction false} CcExtensionsAt(splits: seq<(string, Fee)>)
    ensures |CcExtensions(splits)| == |Priced(splits)|
    ensures forall k | 0 <= k < |Priced(splits)| ::
              CcExtensions(splits)[k] == Extension(ToCcKey(Priced(splits)[k].0), Priced(splits)[k].1.amount)
  {
    hide ToCcKey;
    if splits != [] {
      CcExtensionsAt(splits[..|splits| - 1]);
    }
  }

  /**
   The whole extension list, entry by entry: each pre-calculated fee under its role's key with its own amount;
   then each split with an amount, in order, under its key; then the scheme fee, the fee currency and the trimmed
   policy id, each under its name and only if it is there.
   */
  lemma ListHolds(fees: FeeMap, splits: FeeSplits, feeCurrency: Option<string>, feePolicyId: Option<string>,
                  profiles: CurrencyProfiles)
    requires ExtensionListSpec(fees, splits, feeCurrency, feePolicyId, profiles).Ok?
    ensures SchemeFeeAmount(fees, splits, feeCurrency, profiles).Ok?
    ensures var list := ExtensionListSpec(fees, splits, feeCurrency, feePolicyId, profiles).value;
      var schemeFee := SchemeFeeAmount(fees, splits, feeCurrency, profiles).value;
      var priced := Priced(splits);
      && |list| >= |fees| + |priced|
      && (forall i | 0 <= i < |fees| :: list[i] == Extension(RoleKey(fees[i].0), fees[i].1.amount))
      && (forall k | 0 <= k < |priced| ::
            list[|fees| + k] == Extension(ToCcKey(priced[k].0), priced[k].1.amount))
      && list[|fees| + |priced|..]
         == (if schemeFee.Some? then [Extension("scheme_fee_amount", schemeFee)] else [])
          + (if feeCurrency.Some? then [Extension("scheme_fee_currency", feeCurrency)] else [])
          + (if feePolicyId.Some? && Text.Trim(feePolicyId.value) != ""
             then [Extension("scheme_fee_policy_id", Some(Text.Trim(feePolicyId.value)))] else [])
  {
    hide SchemeFeeAmount, RoleKey, ToCcKey, Text.Trim, CcExtensions, Priced;
    CcExtensionsAt(splits);
    var head := FeeExtensions(fees) + CcExtensions(splits);
    var schemeFee := SchemeFeeAmount(fees, splits, feeCurrency, profiles).value;
    var tail := OptionalExtension(SCHEME_FEE_AMOUNT_KEY, schemeFee)
      + OptionalExtension(FEE_CURRENCY_KEY, feeCurrency) + PolicyExtension(feePolicyId);
    assert ExtensionListSpec(fees, splits, feeCurrency, feePolicyId, profiles).value == head + tail;
  }

  /** No calculated split is published under the key of a pre-calculated fee. */
  lemma FeeAndSplitKeysDisjoint(fees: seq<(FeeSplitRole, Fee)>, splits: seq<(string, Fee)>, e: Extension, c: Extension)
    requires e in FeeExtensions(fees) && c in CcExtensions(splits)
    ensures e.key != c.key
  {
    hide RoleKey, CcExtensions;
    CcKeysEndInCc(splits);
    var i :| 0 <= i < |fees| && FeeExtensions(fees)[i] == e;
    RoleKeyOf(fees[i].0);
    assert "payer_fsp_fee"[12] == 'e' && "payee_fsp_fee"[12] == 'e' && "hub_fee"[6] == 'e' && "si_fee"[5] == 'e';
    assert "fxp_fee"[6] == 'e' && "_cc"[2] == 'c';
    assert c.key[|c.key| - 3..][2] == c.key[|c.key| - 1];
  }

  function Occurrences(list: seq<Extension>, key: string): nat {
    if list == [] then 0
    else (if list[0].key == key then 1 else 0) + Occurrences(list[1..], key)
  }

  lemma {:induction false} OccurrencesAppend(a: seq<Extension>, b: seq<Extension>, key: string)
    ensures Occurrences(a + b, key) == Occurrences(a, key) + Occurrences(b, key)
  {
    if a == [] {
      assert a + b == b;
    } else {
      OccurrencesAppend(a[1..], b, key);
      assert (a + b)[1..] == a[1..] + b;
    }
  }

  lemma {:induction false} NoOccurrence(list: seq<Extension>, key: string)
    requires forall e | e in list :: e.key != key
    ensures Occurrences(list, key) == 0
  {
    if list != [] {
      assert list[0] in list;
      NoOccurrence(list[1..], key);
    }
  }

  // The entries before and after the scheme fee.
  lemma SchemeFeeNeighbours(
    fees: FeeMap, splits: FeeSplits, feeCurrency: Option<string>, feePolicyId: Option<string>)
    ensures forall e | e in FeeExtensions(fees) + CcExtensions(splits) :: e.key != SCHEME_FEE_AMOUNT_KEY
    ensures forall e | e in OptionalExtension(FEE_CURRENCY_KEY, feeCurrency) + PolicyExtension(feePolicyId) ::
              e.key != SCHEME_FEE_AMOUNT_KEY
  {
    hide FeeExtensions, CcExtensions, Text.Trim;
    CcKeysEndInCc(splits);
    FeeKeysAreNotSchemeFee(fees);
    assert !Text.EndsWith(SCHEME_FEE_AMOUNT_KEY, "_cc") by {
      assert SCHEME_FEE_AMOUNT_KEY[16] == 't' && "_cc"[2] == 'c';
    }
    assert |SCHEME_FEE_AMOUNT_KEY| == 17 && |FEE_CURRENCY_KEY| == 19 && |FEE_POLICY_ID_KEY| == 20;
  }

  /** A reader of the list finds the scheme fee under its key, exactly once, or not at all if there is none. */
  lemma SchemeFeeEntry(fees: FeeMap, splits: FeeSplits, feeCurrency: Option<string>, feePolicyId: Option<string>,
                       profiles: CurrencyProfiles, e: Extension)
    requires ExtensionListSpec(fees, splits, feeCurrency, feePolicyId, profiles).Ok?
    requires e.key == SCHEME_FEE_AMOUNT_KEY
    ensures SchemeFeeAmount(fees, splits, feeCurrency, profiles).Ok?
    ensures e in ExtensionListSpec(fees, splits, feeCurrency, feePolicyId, profiles).value
       <==> e.value.Some? && e.value == SchemeFeeAmount(fees, splits, feeCurrency, profiles).value
    ensures var list := ExtensionListSpec(fees, splits, feeCurrency, feePolicyId, profiles).value;
      Occurrences(list, SCHEME_FEE_AMOUNT_KEY)
      == if SchemeFeeAmount(fees, splits, feeCurrency, profiles).value.Some? then 1 else 0
  {
    hide SchemeFeeAmount, FeeExtensions, CcExtensions, PolicyExtension, SCHEME_FEE_AMOUNT_KEY;
    SchemeFeeNeighbours(fees, splits, feeCurrency, feePolicyId);
    var schemeFee := SchemeFeeAmount(fees, splits, feeCurrency, profiles).value;
    var before := FeeExtensions(fees) + CcExtensions(splits);
    var own := OptionalExtension(SCHEME_FEE_AMOUNT_KEY, schemeFee);
    var after := OptionalExtension(FEE_CURRENCY_KEY, feeCurrency) + PolicyExtension(feePolicyId);
    assert ExtensionListSpec(fees, splits, feeCurrency, feePolicyId, profiles).value == before + own + after;
    OccurrencesAppend(before + own, after, SCHEME_FEE_AMOUNT_KEY);
    OccurrencesAppend(before, own, SCHEME_FEE_AMOUNT_KEY);
    NoOccurrence(before, SCHEME_FEE_AMOUNT_KEY);
    NoOccurrence(after, SCHEME_FEE_AMOUNT_KEY);
  }

  /**
   End to end: whatever the calculator answers, a strict run with a policy and one currency either
   fails or publishes one scheme fee, which denotes an amount not above all calculated splits together.
   */
  lemma StrictRunIsBounded(result: FeeCalculationResult, fees: FeeMap, feePolicyId: int, profiles: CurrencyProfiles,
                           currency: string)
    requires result.feePolicy.Some? && OneCurrency(fees, currency) && currency in profiles
    requires SchemeCurrency(fees, result.feeCurrency) == Some(currency)
    requires ExecuteSpec(Strict, Ok(result), fees, feePolicyId, profiles).Ok?
    ensures exists text, total: nat ::
              && (forall e | e in ExecuteSpec(Strict, Ok(result), fees, feePolicyId, profiles).value
                             && e.key == SCHEME_FEE_AMOUNT_KEY :: e.value == Some(text))
              && Extension(SCHEME_FEE_AMOUNT_KEY, Some(text))
                 in ExecuteSpec(Strict, Ok(result), fees, feePolicyId, profiles).value
              && MoneyText.DecimalOf(text).Some?
              && MoneyTheorems.IsExactly(MoneyText.DecimalOf(text).value, profiles[currency], total)
              && total <= SumBy(result.feeSplits, FullWeight(profiles[currency]))
  {
    hide ValidateSpec, ExtensionListSpec, SchemeFeeTotal, Deserialize;
    var policyId := ResolvedPolicyId(result, feePolicyId);
    var list := ExtensionListSpec(fees, result.feeSplits, result.feeCurrency, policyId, profiles);
    forall e: Extension | e.key == SCHEME_FEE_AMOUNT_KEY
      ensures SchemeFeeAmount(fees, result.feeSplits, result.feeCurrency, profiles).Ok?
      ensures e in list.value
         <==> e.value.Some? && e.value == SchemeFeeAmount(fees, result.feeSplits, result.feeCurrency, profiles).value
    {
      SchemeFeeEntry(fees, result.feeSplits, result.feeCurrency, policyId, profiles, e);
    }
    assert Extension(SCHEME_FEE_AMOUNT_KEY, None).key == SCHEME_FEE_AMOUNT_KEY;
    var text := SchemeFeeAmount(fees, result.feeSplits, result.feeCurrency, profiles).value.value;
    var total := SchemeFeeTotal(fees, result.feeSplits, profiles[currency]).value;
    assert Extension(SCHEME_FEE_AMOUNT_KEY, Some(text)) in list.value;
    SchemeFeeReadsBack(fees, result.feeSplits, result.feeCurrency, profiles, Rounding.HalfUp);
    SchemeFeeBound(fees, result, profiles, currency);
  }

  /**
   In bypass mode nobody is asked and nothing is validated: the list is the pre-calculated fees and their sum in
   the currency of the first, if that is known.
   */
  lemma BypassPublishesFees(calculation: Result<FeeCalculationResult, FeeError>, fees: FeeMap, feePolicyId: int,
                            profiles: CurrencyProfiles)
    requires ExecuteSpec(Bypass, calculation, fees, feePolicyId, profiles).Ok?
    ensures var list := ExecuteSpec(Bypass, calculation, fees, feePolicyId, profiles).value;
      && |fees| <= |list| <= |fees| + 1
      && (forall i | 0 <= i < |fees| :: list[i] == Extension(RoleKey(fees[i].0), fees[i].1.amount))
      && (|list| == |fees| + 1 <==>
          fees != [] && fees[0].1.currency.Some? && fees[0].1.currency.value in profiles)
      && (|list| == |fees| + 1 ==>
          && list[|fees|].key == "scheme_fee_amount"
          && Ok(list[|fees|].value) == SchemeFeeAmount(fees, [], None, profiles))
  {
    hide SchemeFeeTotal, Deserialize, RoleKey, ExtensionListSpec;
    ListHolds(fees, [], None, None, profiles);
    assert Priced([]) == [];
  }

  /** A positive policy id decides the question alone; otherwise the scenario does. */
  lemma QuestionAsked(scenario: string, feePolicyId: int)
    ensures feePolicyId > 0 ==> KeyOf(scenario, feePolicyId) == ByPolicy(feePolicyId)
    ensures feePolicyId <= 0 ==> KeyOf(scenario, feePolicyId) == ByScenario(scenario)
  {}

  /**
   A strict run passes on the calculator's failure or the validator's, and otherwise publishes the calculated
   splits and currency, with the policy id of the answer, or else the one asked for, in decimal.
   */
  lemma StrictRunMeaning(calculation: Result<FeeCalculationResult, FeeError>, fees: FeeMap, feePolicyId: int,
                         profiles: CurrencyProfiles)
    ensures var r := ExecuteSpec(Strict, calculation, fees, feePolicyId, profiles);
      match calculation
      case Err(e) => r == Err(e)
      case Ok(answer) =>
        var asked := if feePolicyId > 0 then Some(NatText(feePolicyId)) else None;
        var own := match answer.feePolicy case None => None case Some(policy) => policy.feePolicyId;
        var id := if own.Some? then own else asked;
        var verdict := ValidateSpec(fees, answer, profiles);
        && (verdict.Err? ==> r == Err(verdict.error))
        && (verdict.Ok? ==>
            r == ExtensionListSpec(fees, answer.feeSplits, answer.feeCurrency, id, profiles))
  {
    hide ValidateSpec, ExtensionListSpec, NatText;
  }

  /** The scheme fee is published in the calculated currency, else in that of the first fee; never in an unknown one. */
  lemma SchemeFeeCurrency(fees: FeeMap, splits: FeeSplits, feeCurrency: Option<string>, profiles: CurrencyProfiles)
    requires SchemeFeeAmount(fees, splits, feeCurrency, profiles).Ok?
    ensures var currency := if feeCurrency.Some? then feeCurrency
                            else if fees == [] then None
                            else fees[0].1.currency;
      && (SchemeFeeAmount(fees, splits, feeCurrency, profiles).value.Some? <==>
          currency.Some? && currency.value in profiles)
      && (SchemeFeeAmount(fees, splits, feeCurrency, profiles).value.Some? ==>
          SchemeCurrency(fees, feeCurrency) == currency)
  {
    hide SchemeFeeTotal, Deserialize;
  }
}
