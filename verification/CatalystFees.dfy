/**
 Fee validation and the fee extension list:
 packages/shared/catalyst/component/fee-validator.ts and catalyst-fee-engine.ts.
 */
module CatalystFees {
  import opened Decimal
  import opened Results
  import opened FspiopMoney
  import Rounding
  import Text

  datatype FeeSplitRole = Payer | Payee | Hub | Si | Fxp {
    // The value of the enumeration member, `String(role)`.
    function Name(): string {
      match this
      case Payer => "PAYER_FSP"
      case Payee => "PAYEE_FSP"
      case Hub => "HUB"
      case Si => "SI"
      case Fxp => "FXP"
    }
  }

  /** An amount with its currency; both may be missing in what callers and the calculator send. */
  datatype Fee = Fee(amount: Option<string>, currency: Option<string>)

  // A Map<FeeSplitRole, Money> in iteration order.
  type FeeMap = m: seq<(FeeSplitRole, Fee)> | DistinctRoles(m) witness []

  predicate DistinctRoles(m: seq<(FeeSplitRole, Fee)>) {
    forall i, j | 0 <= i < j < |m| :: m[i].0 != m[j].0
  }

  // An object of splits in the order of its own entries.
  type FeeSplits = m: seq<(string, Fee)> | DistinctKeys(m) witness []

  predicate DistinctKeys(m: seq<(string, Fee)>) {
    forall i, j | 0 <= i < j < |m| :: m[i].0 != m[j].0
  }

  datatype FeePolicy = FeePolicy(feePolicyId: Option<string>)

  datatype FeeCalculationResult = FeeCalculationResult(
    feePolicy: Option<FeePolicy>,
    feeCurrency: Option<string>,
    feeSplits: FeeSplits)

  datatype FeeError =
    | CalculatorFailed
    | SplitNotResolved(role: FeeSplitRole)
    | MissingCurrency(role: FeeSplitRole)
    | CurrencyMismatch(role: FeeSplitRole)
    | MissingAmount(role: FeeSplitRole)
    | WrongCurrency(role: FeeSplitRole)
    | FeeTooLarge(role: FeeSplitRole)
    | AmountMissing
    | BadAmount(error: MoneyError)

  // ---- fee-validator.ts ------------------------------------------------------------------------

  function ResolveRoleAliases(role: FeeSplitRole): seq<string> {
    match role
    case Payer => ["payer_fsp", "payer_fsp_fee", "payer_fsp_fee_cc", "PAYER_FSP"]
    case Payee => ["payee_fsp", "payee_fsp_fee", "payee_fsp_fee_cc", "PAYEE_FSP"]
    case Hub => ["hub", "hub_fee", "HUB"]
    case Si => ["si", "SI"]
    case Fxp => ["fxp", "FXP"]
  }

  /** Property access on the splits object. */
  function Lookup(splits: seq<(string, Fee)>, key: string): (r: Option<Fee>)
    ensures r.Some? ==> (key, r.value) in splits
    ensures r.None? ==> forall e | e in splits :: e.0 != key
  {
    if splits == [] then None
    else if splits[0].0 == key then Some(splits[0].1)
    else Lookup(splits[1..], key)
  }

  // The split under the first of these keys that is present.
  function FirstPresent(splits: FeeSplits, keys: seq<string>): Option<Fee> {
    if keys == [] then None
    else if Lookup(splits, keys[0]).Some? then Lookup(splits, keys[0])
    else FirstPresent(splits, keys[1..])
  }

  function CandidateKeys(role: FeeSplitRole): seq<string> {
    [role.Name()] + ResolveRoleAliases(role)
  }

  method ResolveSplit(splits: FeeSplits, role: FeeSplitRole) returns (r: Option<Fee>)
    ensures r == FirstPresent(splits, CandidateKeys(role))
  {
    var direct := Lookup(splits, role.Name());
    if direct.Some? {
      return direct;
    }
    var keys := ResolveRoleAliases(role);
    assert CandidateKeys(role)[1..] == keys;
    for i := 0 to |keys|
      invariant FirstPresent(splits, CandidateKeys(role)) == FirstPresent(splits, keys[i..])
    {
      var match_ := Lookup(splits, keys[i]);
      if match_.Some? {
        return match_;
      }
      assert keys[i..][1..] == keys[i + 1..];
    }
    return None;
  }

  function SerializeFee(amount: Option<string>, scale: nat): Result<nat, FeeError> {
    match amount
    case None => Err(AmountMissing)
    case Some(a) =>
      match Serialize(a, scale, Rounding.HalfUp)
      case Err(e) => Err(BadAmount(e))
      case Ok(v) => Ok(v)
  }

  /** The checks on one pre-calculated fee, in the order they are made. */
  function CheckFee(role: FeeSplitRole, fee: Fee, split: Option<Fee>, profiles: CurrencyProfiles)
    : Result<(), FeeError>
  {
    if split.None? then Err(SplitNotResolved(role))
    else if fee.currency.None? || split.value.currency.None? then Err(MissingCurrency(role))
    else if fee.currency != split.value.currency then Err(CurrencyMismatch(role))
    else if fee.amount.None? || split.value.amount.None? then Err(MissingAmount(role))
    else if fee.currency.value !in profiles then Err(WrongCurrency(role))
    else
      var scale := profiles[fee.currency.value];
      match SerializeFee(fee.amount, scale)
      case Err(e) => Err(e)
      case Ok(preCalculated) =>
        match SerializeFee(split.value.amount, scale)
        case Err(e) => Err(e)
        case Ok(calculated) =>
          if preCalculated > calculated then Err(FeeTooLarge(role)) else Ok(())
  }

  // The first failure in iteration order, if any.
  function Verdict(fees: seq<(FeeSplitRole, Fee)>, splits: FeeSplits, profiles: CurrencyProfiles)
    : Result<(), FeeError>
  {
    if fees == [] then Ok(())
    else
      match CheckFee(fees[0].0, fees[0].1, FirstPresent(splits, CandidateKeys(fees[0].0)), profiles)
      case Err(e) => Err(e)
      case Ok(_) => Verdict(fees[1..], splits, profiles)
  }

  function ValidateSpec(fees: FeeMap, result: FeeCalculationResult, profiles: CurrencyProfiles): Result<(), FeeError> {
    if result.feePolicy.None? then Ok(()) else Verdict(fees, result.feeSplits, profiles)
  }

  method Validate(fees: FeeMap, result: FeeCalculationResult, profiles: CurrencyProfiles)
    returns (r: Result<(), FeeError>)
    ensures r == ValidateSpec(fees, result, profiles)
  {
    if result.feePolicy.None? {
      return Ok(());
    }
    for i := 0 to |fees|
      invariant Verdict(fees, result.feeSplits, profiles) == Verdict(fees[i..], result.feeSplits, profiles)
    {
      var (role, fee) := fees[i];
      var split := ResolveSplit(result.feeSplits, role);
      assert fees[i..][1..] == fees[i + 1..];
      var check := CheckFee(role, fee, split, profiles);
      if check.Err? {
        return check;
      }
    }
    return Ok(());
  }

  // ---- catalyst-fee-engine.ts --------------------------------------------------------------------

  // `toLowerCase` on the letters of ASCII.
  function ToLowerCase(s: string): string {
    seq(|s|, i requires 0 <= i < |s| => Text.ToLower(s[i]))
  }

  function ToExtensionKey(role: string): string {
    KeyOfName(Text.Trim(role))
  }

  // The names that the engine knows for each role, and the key it gives them.
  const PAYER_NAMES := ["PAYER_FSP", "payer_fsp", "payer_fsp_fee", "payer_fsp_fee_cc"]
  const PAYEE_NAMES := ["PAYEE_FSP", "payee_fsp", "payee_fsp_fee", "payee_fsp_fee_cc"]
  const HUB_NAMES := ["HUB", "hub", "hub_fee", "hub_fee_cc"]
  const SI_NAMES := ["SI", "si", "si_fee", "si_fee_cc"]
  const FXP_NAMES := ["FXP", "fxp", "fxp_fee", "fxp_fee_cc"]

  function KeyOfName(normalized: string): string {
    if normalized in PAYER_NAMES then "payer_fsp_fee"
    else if normalized in PAYEE_NAMES then "payee_fsp_fee"
    else if normalized in HUB_NAMES then "hub_fee"
    else if normalized in SI_NAMES then "si_fee"
    else if normalized in FXP_NAMES then "fxp_fee"
    else ToLowerCase(normalized)
  }

  function RoleKey(role: FeeSplitRole): string {
    ToExtensionKey(role.Name())
  }

  datatype Extension = Extension(key: string, value: Option<string>)

  function ToCcKey(role: string): string {
    var key := ToExtensionKey(role);
    if Text.EndsWith(key, "_cc") then key else key + "_cc"
  }

  // The keys of the roles that have a pre-calculated fee.
  function FeeKeys(fees: seq<(FeeSplitRole, Fee)>): set<string> {
    set f | f in fees :: RoleKey(f.0)
  }

  // A split is charged when it has an amount and no pre-calculated fee stands for it.
  predicate Charged(keys: set<string>, split: (string, Fee)) {
    split.1.amount.Some? && ToExtensionKey(split.0) !in keys
  }

  type Charge = Result<nat, FeeError>

  /** A running sum that stops at the first failure. */
  function Total(charges: seq<Charge>): Charge {
    if charges == [] then Ok(0)
    else
      match Total(charges[..|charges| - 1])
      case Err(e) => Err(e)
      case Ok(total) => Plus(total, charges[|charges| - 1])
  }

  function Plus(total: nat, charge: Charge): Charge {
    match charge
    case Err(e) => Err(e)
    case Ok(v) => Ok(total + v)
  }

  function FeeCharges(fees: seq<(FeeSplitRole, Fee)>, scale: nat): (r: seq<Charge>)
    ensures |r| == |fees|
  {
    seq(|fees|, i requires 0 <= i < |fees| => SerializeFee(fees[i].1.amount, scale))
  }

  function SplitCharge(keys: set<string>, split: (string, Fee), scale: nat): Charge {
    if Charged(keys, split) then SerializeFee(split.1.amount, scale) else Ok(0)
  }

  function SplitCharges(keys: set<string>, splits: seq<(string, Fee)>, scale: nat): (r: seq<Charge>)
    ensures |r| == |splits|
  {
    seq(|splits|, i requires 0 <= i < |splits| => SplitCharge(keys, splits[i], scale))
  }

  function AllCharges(fees: seq<(FeeSplitRole, Fee)>, splits: seq<(string, Fee)>, scale: nat): seq<Charge> {
    FeeCharges(fees, scale) + SplitCharges(FeeKeys(fees), splits, scale)
  }

  /** The sum `toSchemeFeeAmount` accumulates: all pre-calculated fees, then the charged splits. */
  function SchemeFeeTotal(fees: FeeMap, splits: FeeSplits, scale: nat): Charge {
    Total(AllCharges(fees, splits, scale))
  }

  // The currency whose scale the scheme fee uses.
  function SchemeCurrency(fees: FeeMap, feeCurrency: Option<string>): Option<string> {
    if feeCurrency.Some? then feeCurrency
    else if fees != [] then fees[0].1.currency
    else None
  }

  function SchemeFeeAmount(fees: FeeMap, splits: FeeSplits, feeCurrency: Option<string>, profiles: CurrencyProfiles)
    : Result<Option<string>, FeeError>
  {
    var currency := SchemeCurrency(fees, feeCurrency);
    if currency.None? || currency.value !in profiles then Ok(None)
    else
      match SchemeFeeTotal(fees, splits, profiles[currency.value])
      case Err(e) => Err(e)
      case Ok(total) =>
        match Deserialize(total, profiles[currency.value])
        case Err(e) => Err(BadAmount(e))
        case Ok(text) => Ok(Some(text))
  }

  lemma TotalOfNone()
    ensures Total([]) == Ok(0)
  {}

  lemma TotalStep(charges: seq<Charge>, i: nat, total: nat)
    requires i < |charges| && Total(charges[..i]) == Ok(total)
    ensures charges[i].Ok? ==> Total(charges[..i + 1]) == Ok(total + charges[i].value)
    ensures charges[i].Err? ==> Total(charges[..i + 1]) == Err(charges[i].error)
  {
    assert charges[..i + 1][..i] == charges[..i];
  }

  lemma {:induction false} TotalStopsAtError(charges: seq<Charge>, i: nat)
    requires i <= |charges| && Total(charges[..i]).Err?
    ensures Total(charges) == Total(charges[..i])
  {
    if i < |charges| {
      var front := charges[..|charges| - 1];
      assert front[..i] == charges[..i];
      TotalStopsAtError(front, i);
    } else {
      assert charges[..i] == charges;
    }
  }

  method ToSchemeFeeAmount(fees: FeeMap, keys: set<string>, splits: FeeSplits, feeCurrency: Option<string>,
                           profiles: CurrencyProfiles)
    returns (r: Result<Option<string>, FeeError>)
    requires keys == FeeKeys(fees)
    ensures r == SchemeFeeAmount(fees, splits, feeCurrency, profiles)
  {
    var currency := if feeCurrency.Some? then feeCurrency else if fees != [] then fees[0].1.currency else None;
    if currency.None? || currency.value !in profiles {
      return Ok(None);
    }
    hide Serialize, Total, Deserialize;
    var scale := profiles[currency.value];
    var total := AddPreCalculated(fees, splits, scale);
    if total.Ok? {
      total := AddCharged(fees, keys, splits, scale, total.value);
    }
    match total {
      case Err(e) => return Err(e);
      case Ok(sum) =>
        var text := Deserialize(sum, scale);
        match text {
          case Err(e) => return Err(BadAmount(e));
          case Ok(t) => return Ok(Some(t));
        }
    }
  }

  // The first accumulation loop of `toSchemeFeeAmount`.
  method AddPreCalculated(fees: FeeMap, ghost splits: FeeSplits, scale: nat) returns (r: Charge)
    ensures r.Ok? ==> Total(AllCharges(fees, splits, scale)[..|fees|]) == r
    ensures r.Err? ==> Total(AllCharges(fees, splits, scale)) == r
  {
    hide Serialize, Total;
    TotalOfNone();
    ghost var charges := AllCharges(fees, splits, scale);
    assert charges[..0] == [];
    var total: nat := 0;
    for i := 0 to |fees|
      invariant Total(charges[..i]) == Ok(total)
    {
      TotalStep(charges, i, total);
      var amount := SerializeFee(fees[i].1.amount, scale);
      assert amount == charges[i];
      if amount.Err? {
        TotalStopsAtError(charges, i + 1);
        return Err(amount.error);
      }
      total := total + amount.value;
    }
    return Ok(total);
  }

  // The second accumulation loop of `toSchemeFeeAmount`.
  method AddCharged(ghost fees: FeeMap, keys: set<string>, splits: FeeSplits, scale: nat, start: nat)
    returns (r: Charge)
    requires keys == FeeKeys(fees)
    requires Total(AllCharges(fees, splits, scale)[..|fees|]) == Ok(start)
    ensures r == SchemeFeeTotal(fees, splits, scale)
  {
    hide Serialize, SerializeFee, Total, ToExtensionKey, FeeCharges;
    ghost var charges := AllCharges(fees, splits, scale);
    var total: nat := start;
    for i := 0 to |splits|
      invariant Total(charges[..|fees| + i]) == Ok(total)
    {
      var amount := splits[i].1.amount;
      TotalStep(charges, |fees| + i, total);
      assert charges[|fees| + i] == SplitCharge(keys, splits[i], scale);
      if amount.None? {
        continue;
      }
      if ToExtensionKey(splits[i].0) in keys {
        continue;
      }
      var charge := SerializeFee(amount, scale);
      if charge.Err? {
        TotalStopsAtError(charges, |fees| + i + 1);
        return Err(charge.error);
      }
      total := total + charge.value;
    }
    assert charges[..|fees| + |splits|] == charges;
    return Ok(total);
  }

  function FeeExtensions(fees: seq<(FeeSplitRole, Fee)>): seq<Extension> {
    seq(|fees|, i requires 0 <= i < |fees| => Extension(RoleKey(fees[i].0), fees[i].1.amount))
  }

  function CcExtensions(splits: seq<(string, Fee)>): seq<Extension> {
    if splits == [] then []
    else
      var last := splits[|splits| - 1];
      CcExtensions(splits[..|splits| - 1])
      + (if last.1.amount.None? then [] else [Extension(ToCcKey(last.0), last.1.amount)])
  }

  function OptionalExtension(key: string, value: Option<string>): seq<Extension> {
    if value.None? then [] else [Extension(key, value)]
  }

  function PolicyExtension(feePolicyId: Option<string>): seq<Extension> {
    if feePolicyId.None? || Text.Trim(feePolicyId.value) == "" then []
    else [Extension(FEE_POLICY_ID_KEY, Some(Text.Trim(feePolicyId.value)))]
  }

  const SCHEME_FEE_AMOUNT_KEY := "scheme_fee_amount"
  const FEE_CURRENCY_KEY := "scheme_fee_currency"
  const FEE_POLICY_ID_KEY := "scheme_fee_policy_id"

  function ExtensionListSpec(fees: FeeMap, splits: FeeSplits, feeCurrency: Option<string>,
                             feePolicyId: Option<string>, profiles: CurrencyProfiles)
    : Result<seq<Extension>, FeeError>
  {
    match SchemeFeeAmount(fees, splits, feeCurrency, profiles)
    case Err(e) => Err(e)
    case Ok(schemeFee) =>
      Ok(FeeExtensions(fees) + CcExtensions(splits)
         + OptionalExtension(SCHEME_FEE_AMOUNT_KEY, schemeFee)
         + OptionalExtension(FEE_CURRENCY_KEY, feeCurrency)
         + PolicyExtension(feePolicyId))
  }

  method ToExtensionList(fees: FeeMap, splits: FeeSplits, feeCurrency: Option<string>,
                         feePolicyId: Option<string>, profiles: CurrencyProfiles)
    returns (r: Result<seq<Extension>, FeeError>)
    ensures r == ExtensionListSpec(fees, splits, feeCurrency, feePolicyId, profiles)
  {
    var extensions := FeeExtensions(fees);
    var keys := set f | f in fees :: ToExtensionKey(f.0.Name());
    assert keys == FeeKeys(fees);
    for i := 0 to |splits|
      invariant extensions == FeeExtensions(fees) + CcExtensions(splits[..i])
    {
      assert splits[..i + 1][..i] == splits[..i];
      if splits[i].1.amount.None? {
        continue;
      }
      extensions := extensions + [Extension(ToCcKey(splits[i].0), splits[i].1.amount)];
    }
    assert splits[..|splits|] == splits;
    var schemeFee := ToSchemeFeeAmount(fees, keys, splits, feeCurrency, profiles);
    if schemeFee.Err? {
      return Err(schemeFee.error);
    }
    extensions := extensions
      + OptionalExtension(SCHEME_FEE_AMOUNT_KEY, schemeFee.value)
      + OptionalExtension(FEE_CURRENCY_KEY, feeCurrency)
      + PolicyExtension(feePolicyId);
    return Ok(extensions);
  }

  datatype EngineMode = Bypass | Strict

  /** The calculator is asked by policy id when one is given, else by scenario. */
  datatype CalculationKey = ByPolicy(feePolicyId: nat) | ByScenario(scenario: string)

  function KeyOf(scenario: string, feePolicyId: int): CalculationKey {
    if feePolicyId > 0 then ByPolicy(feePolicyId) else ByScenario(scenario)
  }

  function ResolvedPolicyId(result: FeeCalculationResult, feePolicyId: int): Option<string> {
    if result.feePolicy.Some? && result.feePolicy.value.feePolicyId.Some? then result.feePolicy.value.feePolicyId
    else if feePolicyId > 0 then Some(NatText(feePolicyId))
    else None
  }

  function ExecuteSpec(mode: EngineMode, calculation: Result<FeeCalculationResult, FeeError>, fees: FeeMap,
                       feePolicyId: int, profiles: CurrencyProfiles)
    : Result<seq<Extension>, FeeError>
  {
    match mode
    case Bypass => ExtensionListSpec(fees, [], None, None, profiles)
    case Strict =>
      match calculation
      case Err(e) => Err(e)
      case Ok(result) =>
        match ValidateSpec(fees, result, profiles)
        case Err(e) => Err(e)
        case Ok(_) => ExtensionListSpec(fees, result.feeSplits, result.feeCurrency,
                                        ResolvedPolicyId(result, feePolicyId), profiles)
  }

  /** `calculator` stands for any fee calculator, including one that fails. */
  method Execute(mode: EngineMode, calculator: (CalculationKey, Fee) -> Result<FeeCalculationResult, FeeError>,
                 fees: FeeMap, scenario: string, amount: Fee, feePolicyId: int, profiles: CurrencyProfiles)
    returns (r: Result<seq<Extension>, FeeError>)
    ensures r == ExecuteSpec(mode, calculator(KeyOf(scenario, feePolicyId), amount), fees, feePolicyId, profiles)
  {
    if mode == Bypass {
      r := ToExtensionList(fees, [], None, None, profiles);
      return;
    }
    var calculation := if feePolicyId > 0 then calculator(ByPolicy(feePolicyId), amount)
                       else calculator(ByScenario(scenario), amount);
    if calculation.Err? {
      return Err(calculation.error);
    }
    var result := calculation.value;
    var verdict := Validate(fees, result, profiles);
    if verdict.Err? {
      return Err(verdict.error);
    }
    r := ToExtensionList(fees, result.feeSplits, result.feeCurrency,
                         ResolvedPolicyId(result, feePolicyId), profiles);
  }
}
