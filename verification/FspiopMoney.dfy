/** Decimal amounts as text and as scaled integers: packages/shared/fspiop/component/fspiop-money.ts. */
module FspiopMoney {
  import opened Decimal
  import opened Results
  import opened Rounding
  import Text

  const UINT64_MAX: nat := 18446744073709551615

  datatype MoneyError =
    | InvalidScale
    | NegativeAmount
    | NotDecimal
    | RoundingNecessary
    | AboveUint64Max
    | UnknownCurrency
    | TooManyDecimals

  /** The three groups of the pattern  [+-]? digits ( "." digits )?  ; no fraction group is "". */
  datatype DecimalText = DecimalText(sign: string, integerPart: string, fractionPart: string) {
    predicate Valid() {
      && (sign == "" || sign == "+" || sign == "-")
      && integerPart != "" && AllDigits(integerPart)
      && AllDigits(fractionPart)
    }

    function Print(): string {
      sign + (if fractionPart == "" then integerPart else integerPart + "." + fractionPart)
    }

    function Sign(): int {
      if sign == "-" then -1 else 1
    }

    // The exact value is Numerator / Denominator.
    function Numerator(): int
      requires Valid()
    {
      Sign() * Value(integerPart + fractionPart)
    }

    function Denominator(): (d: nat)
      ensures d > 0
    {
      Pow10(|fractionPart|)
    }
  }

  function DigitRun(s: string): (n: nat)
    ensures n <= |s| && AllDigits(s[..n])
    ensures n < |s| ==> !IsDigit(s[n])
  {
    if s != "" && IsDigit(s[0]) then
      var n := 1 + DigitRun(s[1..]);
      assert s[..n] == [s[0]] + s[1..][..n - 1];
      n
    else 0
  }

  // The digits ( "." digits )?  part of the pattern.
  function MatchUnsigned(sign: string, rest: string): (r: Option<DecimalText>)
    requires sign == "" || sign == "+" || sign == "-"
    ensures r.Some? ==> r.value.Valid() && r.value.sign == sign && r.value.Print() == sign + rest
  {
    var n := DigitRun(rest);
    if n == 0 then None
    else if n == |rest| then Some(DecimalText(sign, rest, ""))
    else if rest[n] == '.' && n + 1 < |rest| && AllDigits(rest[n + 1..]) then
      assert rest == rest[..n] + "." + rest[n + 1..];
      Some(DecimalText(sign, rest[..n], rest[n + 1..]))
    else None
  }

  /** The regular expression match shared by `normalizeAmount` and `parseDecimalAmount`. */
  function MatchDecimal(s: string): (r: Option<DecimalText>)
    ensures r.Some? ==> r.value.Valid() && r.value.Print() == s
  {
    if "+" <= s then assert s == "+" + s[1..]; MatchUnsigned("+", s[1..])
    else if "-" <= s then assert s == "-" + s[1..]; MatchUnsigned("-", s[1..])
    else assert s == "" + s; MatchUnsigned("", s)
  }

  function StripTrailingZeros(s: string): (r: string)
    ensures r <= s
    ensures AllDigits(s) ==> AllDigits(r)
    ensures r != "" ==> r[|r| - 1] != '0'
    ensures s == r + Zeros(|s| - |r|)
  {
    if s != "" && s[|s| - 1] == '0' then
      var r := StripTrailingZeros(s[..|s| - 1]);
      assert s == s[..|s| - 1] + ['0'];
      assert Zeros(|s| - |r|) == Zeros(|s| - 1 - |r|) + ['0'];
      r
    else s
  }

  function NormalizeAmount(amount: string): string {
    var trimmed := Text.Trim(amount);
    match MatchDecimal(trimmed)
    case None => trimmed
    case Some(d) => d.(fractionPart := StripTrailingZeros(d.fractionPart)).Print()
  }

  function ParseDecimalAmount(amount: string): Result<DecimalText, MoneyError> {
    match MatchDecimal(amount)
    case None => Err(NotDecimal)
    case Some(d) => Ok(d)
  }

  predicate HasNonZero(s: string) {
    exists i | 0 <= i < |s| :: '1' <= s[i] <= '9'
  }

  function ShouldRoundUp(sign: int, kept: string, discarded: string, mode: RoundingMode): Result<bool, MoneyError>
    requires AllDigits(kept) && AllDigits(discarded) && discarded != ""
  {
    if !HasNonZero(discarded) then Ok(false)
    else
      var first := DigitOf(discarded[0]);
      var hasNonZeroTail := HasNonZero(discarded[1..]);
      match mode
      case Unnecessary => Err(RoundingNecessary)
      case Up => Ok(true)
      case Down => Ok(false)
      case Ceiling => Ok(sign > 0)
      case Floor => Ok(sign < 0)
      case HalfUp => Ok(first >= 5)
      case HalfDown => Ok(first > 5 || (first == 5 && hasNonZeroTail))
      case HalfEven =>
        var lastKept := if kept != "" then DigitOf(kept[|kept| - 1]) else 0;
        Ok(first > 5 || (first == 5 && (hasNonZeroTail || lastKept % 2 != 0)))
  }

  function PadEnd(s: string, n: nat): string {
    if |s| >= n then s else s + Zeros(n - |s|)
  }

  function Drop(s: string, n: nat): string {
    if n <= |s| then s[n..] else ""
  }

  function ScaleAmount(d: DecimalText, scale: nat, mode: RoundingMode): Result<int, MoneyError>
    requires d.Valid()
  {
    var integerValue := Value(d.integerPart) * Pow10(scale);
    var kept := PadEnd(d.fractionPart, scale)[..scale];
    var discarded := Drop(d.fractionPart, scale);
    var scaled := integerValue + Value(kept);
    if discarded == "" then Ok(scaled * d.Sign())
    else
      match ShouldRoundUp(d.Sign(), kept, discarded, mode)
      case Err(e) => Err(e)
      case Ok(up) => Ok((if up then scaled + 1 else scaled) * d.Sign())
  }

  function InRange(scaled: Result<int, MoneyError>): Result<nat, MoneyError> {
    match scaled
    case Err(e) => Err(e)
    case Ok(v) =>
      if v < 0 then Err(NegativeAmount)
      else if v > UINT64_MAX then Err(AboveUint64Max)
      else Ok(v)
  }

  function Serialize(amount: string, scale: int, mode: RoundingMode): Result<nat, MoneyError> {
    if scale < 0 then Err(InvalidScale)
    else
      var normalized := NormalizeAmount(Text.Trim(amount));
      match ParseDecimalAmount(normalized)
      case Err(e) => Err(e)
      case Ok(parsed) =>
        InRange(ScaleAmount(parsed, scale, mode))
  }

  function PadStart(s: string, n: nat): string {
    if |s| >= n then s else Zeros(n - |s|) + s
  }

  function Deserialize(amount: int, scale: int): Result<string, MoneyError> {
    if scale < 0 then Err(InvalidScale)
    else if amount < 0 then Err(NegativeAmount)
    else
      var text := NatText(amount);
      if scale == 0 then Ok(text)
      else if |text| <= scale then Ok(NormalizeAmount("0." + PadStart(text, scale)))
      else Ok(NormalizeAmount(text[..|text| - scale] + "." + text[|text| - scale..]))
  }

  function ScaleOf(amount: string): nat {
    var dot := Text.IndexOf(amount, ".");
    if dot < 0 then 0 else |amount| - dot - 1
  }

  /** The FSPIOP 2.0 `Amount` type: the regular expression AMOUNT_PATTERN. */
  predicate IsAmount(s: string) {
    match MatchDecimal(s)
    case None => false
    case Some(d) =>
      && d.sign == ""
      && (d.integerPart == "0" || (d.integerPart[0] != '0' && |d.integerPart| <= 18))
      && |d.fractionPart| <= 4
      && (d.fractionPart != "" ==> d.fractionPart[|d.fractionPart| - 1] != '0')
  }

  /** `profiles` is the currency table, from code to number of decimals. */
  type CurrencyProfiles = map<string, nat>

  class Money {
    const currency: string
    var amount: string

    constructor (currency: string, amount: string)
      ensures this.currency == currency && this.amount == amount
    {
      this.currency, this.amount := currency, amount;
    }
  }

  // The verdict of `validate` on a currency and an amount text.
  function AmountVerdict(currency: string, amount: string, profiles: CurrencyProfiles): Result<(), MoneyError> {
    if currency !in profiles then Err(UnknownCurrency)
    else if ScaleOf(NormalizeAmount(amount)) > profiles[currency] then Err(TooManyDecimals)
    else Ok(())
  }

  /** Overwrites the amount with its normal form, even when it is then rejected. */
  method Validate(money: Money?, profiles: CurrencyProfiles) returns (r: Result<(), MoneyError>)
    modifies money
    ensures money == null ==> r == Ok(())
    ensures money != null ==> money.amount == NormalizeAmount(old(money.amount))
    ensures money != null ==> r == AmountVerdict(money.currency, old(money.amount), profiles)
  {
    if money == null {
      return Ok(());
    }
    money.amount := NormalizeAmount(money.amount);
    if money.currency !in profiles {
      return Err(UnknownCurrency);
    }
    var submittedScale := ScaleOf(money.amount);
    if submittedScale > profiles[money.currency] {
      return Err(TooManyDecimals);
    }
    r := Ok(());
  }
}
