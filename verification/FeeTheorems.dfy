/** What the scheme fee counts, and that its text says so. */
module FeeTheorems {
  import opened CatalystFees
  import opened Decimal
  import opened ExtensionKeys
  import opened FspiopMoney
  import opened Results
  import opened Sums
  import MoneyText
  import MoneyTheorems
  import Rounding
  import Text

  // ---- the ledger of a scheme fee -------------------------------------------------------------------

  function AmountOf(fee: Fee, scale: nat): nat {
    match SerializeFee(fee.amount, scale)
    case Ok(v) => v
    case Err(_) => 0
  }

  function FeeEntry(f: (FeeSplitRole, Fee), scale: nat): (string, nat) {
    (RoleKey(f.0), AmountOf(f.1, scale))
  }

  function SplitEntry(s: (string, Fee), scale: nat): (string, nat) {
    (ToExtensionKey(s.0), AmountOf(s.1, scale))
  }

  function FeeLedger(fees: seq<(FeeSplitRole, Fee)>, scale: nat): Ledger {
    if fees == [] then []
    else FeeLedger(fees[..|fees| - 1], scale) + [FeeEntry(fees[|fees| - 1], scale)]
  }

  // The splits that have an amount and stand for no pre-calculated fee.
  function SplitLedger(keys: set<string>, splits: seq<(string, Fee)>, scale: nat): Ledger {
    if splits == [] then []
    else
      var last := splits[|splits| - 1];
      SplitLedger(keys, splits[..|splits| - 1], scale)
      + (if Charged(keys, last) then [SplitEntry(last, scale)] else [])
  }

  function SchemeLedger(fees: seq<(FeeSplitRole, Fee)>, splits: seq<(string, Fee)>, scale: nat): Ledger {
    FeeLedger(fees, scale) + SplitLedger(FeeKeys(fees), splits, scale)
  }

  function ChargeAmount(c: Charge): nat {
    match c
    case Ok(v) => v
    case Err(_) => 0
  }

  lemma {:induction false} TotalIsSum(charges: seq<Charge>)
    requires Total(charges).Ok?
    ensures Total(charges).value == SumBy(charges, ChargeAmount)
  {
    if charges != [] { TotalIsSum(charges[..|charges| - 1]); }
  }

  lemma {:induction false} FeeLedgerSum(fees: seq<(FeeSplitRole, Fee)>, scale: nat)
    ensures SumBy(FeeCharges(fees, scale), ChargeAmount) == SumBy(FeeLedger(fees, scale), Amount)
  {
    hide SerializeFee, RoleKey;
    if fees != [] {
      var front := fees[..|fees| - 1];
      FeeLedgerSum(front, scale);
      assert FeeCharges(fees, scale)[..|front|] == FeeCharges(front, scale);
      assert FeeLedger(fees, scale)[..|FeeLedger(fees, scale)| - 1] == FeeLedger(front, scale);
    }
  }

  lemma {:induction false} SplitLedgerSum(keys: set<string>, splits: seq<(string, Fee)>, scale: nat)
    ensures SumBy(SplitCharges(keys, splits, scale), ChargeAmount) == SumBy(SplitLedger(keys, splits, scale), Amount)
  {
    hide SerializeFee, ToExtensionKey;
    if splits != [] {
      var front, last := splits[..|splits| - 1], splits[|splits| - 1];
      SplitLedgerSum(keys, front, scale);
      assert SplitCharges(keys, splits, scale)[..|front|] == SplitCharges(keys, front, scale);
      var ledger := SplitLedger(keys, front, scale);
      if Charged(keys, last) {
        assert SplitLedger(keys, splits, scale)[..|ledger|] == ledger;
      } else {
        assert SplitLedger(keys, splits, scale) == ledger;
      }
    }
  }

  /** The accumulated total is the sum of the ledger. */
  lemma TotalIsLedger(fees: FeeMap, splits: FeeSplits, scale: nat)
    requires SchemeFeeTotal(fees, splits, scale).Ok?
    ensures SchemeFeeTotal(fees, splits, scale).value == SumBy(SchemeLedger(fees, splits, scale), Amount)
  {
    TotalIsSum(AllCharges(fees, splits, scale));
    SumByAppend(FeeCharges(fees, scale), SplitCharges(FeeKeys(fees), splits, scale), ChargeAmount);
    FeeLedgerSum(fees, scale);
    SplitLedgerSum(FeeKeys(fees), splits, scale);
    SumByAppend(FeeLedger(fees, scale), SplitLedger(FeeKeys(fees), splits, scale), Amount);
  }

  lemma LedgerConservation(fees: FeeMap, splits: FeeSplits, scale: nat)
    requires SchemeFeeTotal(fees, splits, scale).Ok?
    ensures var ledger := SchemeLedger(fees, splits, scale);
      SchemeFeeTotal(fees, splits, scale).value == SumSet(Keys(ledger), k => Once(ledger, k)) + Repeats(ledger)
  {
    TotalIsLedger(fees, splits, scale);
    LedgerTotal(SchemeLedger(fees, splits, scale));
  }

  predicate DistinctExtensionKeys(splits: seq<(string, Fee)>) {
    forall i, j | 0 <= i < j < |splits| :: ToExtensionKey(splits[i].0) != ToExtensionKey(splits[j].0)
  }

  lemma {:induction false} FeeLedgerKeys(fees: seq<(FeeSplitRole, Fee)>, scale: nat)
    ensures Keys(FeeLedger(fees, scale)) == FeeKeys(fees)
    ensures |FeeLedger(fees, scale)| == |fees|
    ensures forall i | 0 <= i < |fees| :: FeeLedger(fees, scale)[i].0 == RoleKey(fees[i].0)
  {
    hide RoleKey, AmountOf;
    if fees != [] {
      var front, last := fees[..|fees| - 1], fees[|fees| - 1];
      FeeLedgerKeys(front, scale);
      assert fees == front + [last];
      assert FeeKeys(fees) == FeeKeys(front) + {RoleKey(last.0)};
    }
  }

  lemma {:induction false} RepeatsAppend(a: Ledger, b: Ledger)
    requires Keys(a) !! Keys(b)
    ensures Repeats(a + b) == Repeats(a) + Repeats(b)
  {
    if b == [] {
      assert a + b == a;
    } else {
      var front, last := b[..|b| - 1], b[|b| - 1];
      assert (a + b)[..|a + b| - 1] == a + front;
      assert b == front + [last];
      assert last.0 in Keys(b);
      assert Keys(a + front) == Keys(a) + Keys(front);
      RepeatsAppend(a, front);
    }
  }

  lemma {:induction false} FeesDoNotRepeat(fees: seq<(FeeSplitRole, Fee)>, scale: nat)
    requires DistinctRoles(fees)
    ensures Repeats(FeeLedger(fees, scale)) == 0
  {
    hide RoleKey, AmountOf;
    if fees != [] {
      var front, last := fees[..|fees| - 1], fees[|fees| - 1];
      FeesDoNotRepeat(front, scale);
      FeeLedgerKeys(front, scale);
      var ledger := FeeLedger(fees, scale);
      assert ledger[..|ledger| - 1] == FeeLedger(front, scale);
      forall f | f in front ensures RoleKey(f.0) != RoleKey(last.0) {
        RoleKeysDistinct(f.0, last.0);
      }
    }
  }

  // ---- the ledger in terms of the fees and splits ------------------------------------------------------

  /** The pre-calculated fee of the role with this key. */
  function FeeOf(fees: seq<(FeeSplitRole, Fee)>, key: string): Option<Fee> {
    if fees == [] then None
    else
      var last := fees[|fees| - 1];
      var earlier := FeeOf(fees[..|fees| - 1], key);
      if earlier.Some? then earlier else if RoleKey(last.0) == key then Some(last.1) else None
  }

  /** The first split with an amount whose name has this key. */
  function PricedSplit(splits: seq<(string, Fee)>, key: string): Option<Fee> {
    if splits == [] then None
    else
      var last := splits[|splits| - 1];
      var earlier := PricedSplit(splits[..|splits| - 1], key);
      if earlier.Some? then earlier
      else if last.1.amount.Some? && ToExtensionKey(last.0) == key then Some(last.1)
      else None
  }

  function PricedKeys(splits: seq<(string, Fee)>): set<string> {
    set s | s in splits && s.1.amount.Some? :: ToExtensionKey(s.0)
  }

  /** What a key is to be charged: its pre-calculated fee if there is one, else its calculated amount. */
  function Counted(fees: seq<(FeeSplitRole, Fee)>, splits: seq<(string, Fee)>, scale: nat, key: string): nat {
    if FeeOf(fees, key).Some? then AmountOf(FeeOf(fees, key).value, scale)
    else if PricedSplit(splits, key).Some? then AmountOf(PricedSplit(splits, key).value, scale)
    else 0
  }

  /** A charged split whose key an earlier charged split has too. */
  predicate IsExtra(keys: set<string>, splits: seq<(string, Fee)>, j: nat)
    requires j < |splits|
  {
    Charged(keys, splits[j]) && PricedSplit(splits[..j], ToExtensionKey(splits[j].0)).Some?
  }

  // What the extra splits are charged.
  function Extra(keys: set<string>, splits: seq<(string, Fee)>, scale: nat): nat {
    if splits == [] then 0
    else
      var n := |splits| - 1;
      Extra(keys, splits[..n], scale) + (if IsExtra(keys, splits, n) then AmountOf(splits[n].1, scale) else 0)
  }

  lemma {:induction false} FeeOfMeaning(fees: seq<(FeeSplitRole, Fee)>, scale: nat, key: string)
    ensures FeeOf(fees, key).Some? <==> key in FeeKeys(fees)
    ensures Once(FeeLedger(fees, scale), key)
         == if FeeOf(fees, key).Some? then AmountOf(FeeOf(fees, key).value, scale) else 0
  {
    hide RoleKey, AmountOf, Once;
    if fees == [] {
      OnceOfNone(key);
    } else {
      var front, last := fees[..|fees| - 1], fees[|fees| - 1];
      FeeOfMeaning(front, scale, key);
      FeeLedgerKeys(front, scale);
      assert fees == front + [last];
      assert FeeKeys(fees) == FeeKeys(front) + {RoleKey(last.0)};
      OnceAppend(FeeLedger(front, scale), FeeEntry(last, scale), key);
    }
  }

  lemma OnceOfNone(key: string)
    ensures Once([], key) == 0
  {}

  lemma {:induction false} PricedSplitMeaning(splits: seq<(string, Fee)>, key: string)
    ensures PricedSplit(splits, key).Some? <==> key in PricedKeys(splits)
  {
    hide ToExtensionKey;
    if splits != [] {
      var front, last := splits[..|splits| - 1], splits[|splits| - 1];
      PricedSplitMeaning(front, key);
      assert splits == front + [last];
      assert PricedKeys(splits)
          == PricedKeys(front) + (if last.1.amount.Some? then {ToExtensionKey(last.0)} else {});
    }
  }

  lemma {:induction false} SplitLedgerMeaning(keys: set<string>, splits: seq<(string, Fee)>, scale: nat, key: string)
    ensures Keys(SplitLedger(keys, splits, scale)) == PricedKeys(splits) - keys
    ensures key !in keys ==>
              Once(SplitLedger(keys, splits, scale), key)
              == (if PricedSplit(splits, key).Some? then AmountOf(PricedSplit(splits, key).value, scale) else 0)
  {
    hide ToExtensionKey, AmountOf, Once;
    if splits == [] {
      OnceOfNone(key);
    } else {
      var front, last := splits[..|splits| - 1], splits[|splits| - 1];
      SplitLedgerMeaning(keys, front, scale, key);
      PricedSplitMeaning(front, key);
      assert splits == front + [last];
      assert PricedKeys(splits)
          == PricedKeys(front) + (if last.1.amount.Some? then {ToExtensionKey(last.0)} else {});
      var ledger := SplitLedger(keys, front, scale);
      if Charged(keys, last) {
        KeysAppend(ledger, SplitEntry(last, scale));
        OnceAppend(ledger, SplitEntry(last, scale), key);
      } else {
        assert SplitLedger(keys, splits, scale) == ledger;
      }
    }
  }

  lemma KeysAppend(ledger: Ledger, e: (string, nat))
    ensures Keys(ledger + [e]) == Keys(ledger) + {e.0}
  {}

  lemma {:induction false} OnceOfBoth(a: Ledger, b: Ledger, key: string)
    ensures Once(a + b, key) == if key in Keys(a) then Once(a, key) else Once(b, key)
  {
    if a == [] {
      assert a + b == b;
    } else {
      OnceOfBoth(a[1..], b, key);
      assert (a + b)[1..] == a[1..] + b;
      assert a == [a[0]] + a[1..];
    }
  }

  lemma SchemeLedgerMeaning(fees: FeeMap, splits: FeeSplits, scale: nat, key: string)
    ensures Keys(SchemeLedger(fees, splits, scale)) == FeeKeys(fees) + PricedKeys(splits)
    ensures Once(SchemeLedger(fees, splits, scale), key) == Counted(fees, splits, scale, key)
  {
    hide FeeLedger, SplitLedger, AmountOf, Once, RoleKey, ToExtensionKey;
    FeeLedgerKeys(fees, scale);
    FeeOfMeaning(fees, scale, key);
    SplitLedgerMeaning(FeeKeys(fees), splits, scale, key);
    OnceOfBoth(FeeLedger(fees, scale), SplitLedger(FeeKeys(fees), splits, scale), key);
    KeysOfBoth(FeeLedger(fees, scale), SplitLedger(FeeKeys(fees), splits, scale));
  }

  lemma KeysOfBoth(a: Ledger, b: Ledger)
    ensures Keys(a + b) == Keys(a) + Keys(b)
  {}

  lemma {:induction false} RepeatsAreExtra(keys: set<string>, splits: seq<(string, Fee)>, scale: nat)
    ensures Repeats(SplitLedger(keys, splits, scale)) == Extra(keys, splits, scale)
  {
    hide ToExtensionKey, AmountOf;
    if splits != [] {
      var front, last := splits[..|splits| - 1], splits[|splits| - 1];
      RepeatsAreExtra(keys, front, scale);
      SplitLedgerMeaning(keys, front, scale, ToExtensionKey(last.0));
      PricedSplitMeaning(front, ToExtensionKey(last.0));
      var ledger := SplitLedger(keys, front, scale);
      if Charged(keys, last) {
        assert (ledger + [SplitEntry(last, scale)])[..|ledger|] == ledger;
      } else {
        assert SplitLedger(keys, splits, scale) == ledger;
      }
    }
  }

  lemma {:induction false} NoExtra(keys: set<string>, splits: seq<(string, Fee)>, scale: nat)
    ensures Extra(keys, splits, scale) == 0 <==>
              forall j | 0 <= j < |splits| && IsExtra(keys, splits, j) :: AmountOf(splits[j].1, scale) == 0
  {
    hide AmountOf, ToExtensionKey, PricedSplit;
    if splits != [] {
      var n := |splits| - 1;
      NoExtra(keys, splits[..n], scale);
      forall j | 0 <= j < n ensures IsExtra(keys, splits, j) <==> IsExtra(keys, splits[..n], j) {
        assert splits[..n][..j] == splits[..j];
      }
    }
  }

  lemma LedgerRepeats(fees: FeeMap, splits: FeeSplits, scale: nat)
    ensures Repeats(SchemeLedger(fees, splits, scale)) == Extra(FeeKeys(fees), splits, scale)
  {
    hide FeeLedger, SplitLedger, Repeats, Extra;
    FeesDoNotRepeat(fees, scale);
    FeeLedgerKeys(fees, scale);
    SplitLedgerMeaning(FeeKeys(fees), splits, scale, "");
    RepeatsAppend(FeeLedger(fees, scale), SplitLedger(FeeKeys(fees), splits, scale));
    RepeatsAreExtra(FeeKeys(fees), splits, scale);
  }

  /**
   Conservation. The scheme fee is one charge for each key that has a fee or a priced split - the
   pre-calculated fee if there is one, else the first calculated amount - plus what the extra splits
   charge: those with a key that an earlier split has already been charged for.
   */
  lemma SchemeFeeConservation(fees: FeeMap, splits: FeeSplits, scale: nat)
    requires SchemeFeeTotal(fees, splits, scale).Ok?
    ensures SchemeFeeTotal(fees, splits, scale).value
         == SumSet(FeeKeys(fees) + PricedKeys(splits), k => Counted(fees, splits, scale, k))
          + Extra(FeeKeys(fees), splits, scale)
    ensures Extra(FeeKeys(fees), splits, scale) == 0 <==>
              forall j | 0 <= j < |splits| && IsExtra(FeeKeys(fees), splits, j) :: AmountOf(splits[j].1, scale) == 0
  {
    hide SchemeFeeTotal, SchemeLedger, Counted, IsExtra, Once, Repeats, Extra;
    var ledger := SchemeLedger(fees, splits, scale);
    LedgerConservation(fees, splits, scale);
    LedgerRepeats(fees, splits, scale);
    NoExtra(FeeKeys(fees), splits, scale);
    var counted := k => Counted(fees, splits, scale, k);
    SchemeLedgerMeaning(fees, splits, scale, "");
    forall k ensures Once(ledger, k) == counted(k) {
      SchemeLedgerMeaning(fees, splits, scale, k);
    }
    SumSetCongruent(Keys(ledger), k => Once(ledger, k), counted);
  }

  /** What each fee and each priced split without a fee adds, when split keys stay distinct after normalisation. */
  lemma CountedAmounts(fees: FeeMap, splits: FeeSplits, scale: nat)
    ensures forall f | f in fees :: Counted(fees, splits, scale, RoleKey(f.0)) == AmountOf(f.1, scale)
    ensures DistinctExtensionKeys(splits) ==>
              forall s | s in splits && s.1.amount.Some? && ToExtensionKey(s.0) !in FeeKeys(fees) ::
                Counted(fees, splits, scale, ToExtensionKey(s.0)) == AmountOf(s.1, scale)
  {
    hide AmountOf, RoleKey, ToExtensionKey, FeeOf, PricedSplit;
    forall f | f in fees ensures FeeOf(fees, RoleKey(f.0)) == Some(f.1) {
      FeeOfRole(fees, f);
    }
    forall s | DistinctExtensionKeys(splits) && s in splits && s.1.amount.Some?
        && ToExtensionKey(s.0) !in FeeKeys(fees)
      ensures FeeOf(fees, ToExtensionKey(s.0)).None? && PricedSplit(splits, ToExtensionKey(s.0)) == Some(s.1)
    {
      FeeOfMeaning(fees, scale, ToExtensionKey(s.0));
      PricedSplitOfKey(splits, s);
    }
  }

  lemma {:induction false} FeeOfRole(fees: seq<(FeeSplitRole, Fee)>, f: (FeeSplitRole, Fee))
    requires DistinctRoles(fees) && f in fees
    ensures FeeOf(fees, RoleKey(f.0)) == Some(f.1)
  {
    hide RoleKey;
    var front, last := fees[..|fees| - 1], fees[|fees| - 1];
    assert fees == front + [last];
    if f in front {
      FeeOfRole(front, f);
    } else {
      FeeOfMeaning(front, 0, RoleKey(f.0));
      forall g | g in front ensures RoleKey(g.0) != RoleKey(f.0) {
        RoleKeysDistinct(g.0, f.0);
      }
    }
  }

  lemma {:induction false} PricedSplitOfKey(splits: seq<(string, Fee)>, s: (string, Fee))
    requires DistinctExtensionKeys(splits) && s in splits && s.1.amount.Some?
    ensures PricedSplit(splits, ToExtensionKey(s.0)) == Some(s.1)
  {
    hide ToExtensionKey;
    var front, last := splits[..|splits| - 1], splits[|splits| - 1];
    assert splits == front + [last];
    if s in front {
      PricedSplitOfKey(front, s);
    } else {
      PricedSplitMeaning(front, ToExtensionKey(s.0));
      forall t | t in front ensures ToExtensionKey(t.0) != ToExtensionKey(s.0) {
        var i :| 0 <= i < |front| && front[i] == t;
        assert splits[i] == t && splits[|splits| - 1] == s;
      }
    }
  }

  /** When split keys stay distinct after normalisation, every key is counted exactly once. */
  lemma DistinctKeysCountOnce(fees: FeeMap, splits: FeeSplits, scale: nat)
    requires SchemeFeeTotal(fees, splits, scale).Ok?
    requires DistinctExtensionKeys(splits)
    ensures SchemeFeeTotal(fees, splits, scale).value
         == SumSet(FeeKeys(fees) + PricedKeys(splits), k => Counted(fees, splits, scale, k))
  {
    hide SchemeFeeTotal, Counted, AmountOf;
    SchemeFeeConservation(fees, splits, scale);
    forall j | 0 <= j < |splits| ensures !IsExtra(FeeKeys(fees), splits, j) {
      DistinctIsNotExtra(FeeKeys(fees), splits, j);
    }
  }

  lemma DistinctIsNotExtra(keys: set<string>, splits: seq<(string, Fee)>, j: nat)
    requires DistinctExtensionKeys(splits) && j < |splits|
    ensures !IsExtra(keys, splits, j)
  {
    hide ToExtensionKey;
    PricedSplitMeaning(splits[..j], ToExtensionKey(splits[j].0));
    forall s | s in splits[..j] ensures ToExtensionKey(s.0) != ToExtensionKey(splits[j].0) {
      var i :| 0 <= i < j && splits[..j][i] == s;
      assert splits[i] == s;
    }
  }

  lemma OneIsOne()
    ensures SerializeFee(Some("1"), 0) == Ok(1)
  {
    hide Serialize, MatchDecimal;
    var d := DecimalText("", "1", "");
    assert d.Valid() && d.Print() == "1";
    MoneyText.MatchPrint(d);
    Text.TrimFixes("1");
    assert "1" + "" == "1";
    SingleDigit("1");
    MoneyTheorems.SerializeExact("1", 0, Rounding.HalfUp, 1);
  }

  function HubTwice(): FeeSplits {
    var splits := [("hub", Fee(Some("1"), None)), ("HUB", Fee(Some("1"), None))];
    assert splits[0].0[0] != splits[1].0[0];
    splits
  }

  /** Two names of one role: without fees, splits of 1 under "hub" and "HUB" make a scheme fee of 2. */
  lemma AliasedSplitsCountTwice()
    ensures ToExtensionKey("hub") == ToExtensionKey("HUB")
    ensures DistinctKeys(HubTwice()) && SchemeFeeTotal([], HubTwice(), 0) == Ok(2)
  {
    hide SerializeFee, ToExtensionKey;
    HubNames();
    OneIsOne();
    var splits := HubTwice();
    var charges: seq<Charge> := AllCharges([], splits, 0);
    assert charges == [Ok(1), Ok(1)];
    assert charges[..1] == [Ok(1)];
    TotalOfNone();
    assert charges[..0] == [] && charges[..2] == charges;
    TotalStep(charges, 0, 0);
    TotalStep(charges, 1, 1);
  }

  // What a split adds to the total, as a weight.
  function SplitWeight(keys: set<string>, scale: nat): ((string, Fee)) -> nat {
    (s: (string, Fee)) => ChargeAmount(SplitCharge(keys, s, scale))
  }

  function FeeWeight(scale: nat): ((FeeSplitRole, Fee)) -> nat {
    (f: (FeeSplitRole, Fee)) => AmountOf(f.1, scale)
  }

  lemma {:induction false} SplitChargesWeigh(keys: set<string>, splits: seq<(string, Fee)>, scale: nat)
    ensures SumBy(SplitCharges(keys, splits, scale), ChargeAmount) == SumBy(splits, SplitWeight(keys, scale))
  {
    hide SplitCharge;
    if splits != [] {
      SplitChargesWeigh(keys, splits[..|splits| - 1], scale);
      assert SplitCharges(keys, splits, scale)[..|splits| - 1] == SplitCharges(keys, splits[..|splits| - 1], scale);
    }
  }

  lemma {:induction false} FeeChargesWeigh(fees: seq<(FeeSplitRole, Fee)>, scale: nat)
    ensures SumBy(FeeCharges(fees, scale), ChargeAmount) == SumBy(fees, FeeWeight(scale))
  {
    hide SerializeFee;
    if fees != [] {
      FeeChargesWeigh(fees[..|fees| - 1], scale);
      assert FeeCharges(fees, scale)[..|fees| - 1] == FeeCharges(fees[..|fees| - 1], scale);
    }
  }

  lemma TotalByWeight(fees: FeeMap, splits: FeeSplits, scale: nat)
    requires SchemeFeeTotal(fees, splits, scale).Ok?
    ensures SchemeFeeTotal(fees, splits, scale).value
         == SumBy(fees, FeeWeight(scale)) + SumBy(splits, SplitWeight(FeeKeys(fees), scale))
  {
    TotalIsSum(AllCharges(fees, splits, scale));
    SumByAppend(FeeCharges(fees, scale), SplitCharges(FeeKeys(fees), splits, scale), ChargeAmount);
    FeeChargesWeigh(fees, scale);
    SplitChargesWeigh(FeeKeys(fees), splits, scale);
  }

  lemma {:induction false} TotalSucceedsExactly(charges: seq<Charge>)
    ensures Total(charges).Ok? <==> forall c | c in charges :: c.Ok?
  {
    if charges != [] {
      var front, last := charges[..|charges| - 1], charges[|charges| - 1];
      TotalSucceedsExactly(front);
      assert charges == front + [last];
    }
  }

  // Summing succeeds when every fee and every charged split serialises.
  lemma SchemeFeeSucceeds(fees: FeeMap, splits: FeeSplits, scale: nat)
    ensures SchemeFeeTotal(fees, splits, scale).Ok? <==>
              && (forall f | f in fees :: SerializeFee(f.1.amount, scale).Ok?)
              && (forall s | s in splits :: SplitCharge(FeeKeys(fees), s, scale).Ok?)
  {
    hide SerializeFee, SplitCharge, FeeKeys;
    var x, y := FeeCharges(fees, scale), SplitCharges(FeeKeys(fees), splits, scale);
    TotalSucceedsExactly(x + y);
    if forall c: Charge | c in x + y :: c.Ok? {
      forall f | f in fees ensures SerializeFee(f.1.amount, scale).Ok? {
        var i :| 0 <= i < |fees| && fees[i] == f;
        assert x[i] in x + y;
      }
      forall s | s in splits ensures SplitCharge(FeeKeys(fees), s, scale).Ok? {
        var i :| 0 <= i < |splits| && splits[i] == s;
        assert y[i] in x + y;
      }
    }
  }

  /** Neither the success nor the sum depends on the iteration order of either collection. */
  lemma TotalOrderIndependent(fees: FeeMap, fees': FeeMap, splits: FeeSplits, splits': FeeSplits, scale: nat)
    requires multiset(fees) == multiset(fees') && multiset(splits) == multiset(splits')
    ensures SchemeFeeTotal(fees, splits, scale).Ok? <==> SchemeFeeTotal(fees', splits', scale).Ok?
    ensures SchemeFeeTotal(fees, splits, scale).Ok? ==>
              SchemeFeeTotal(fees, splits, scale) == SchemeFeeTotal(fees', splits', scale)
  {
    hide *;
    SameElements(fees, fees');
    SameElements(splits, splits');
    FeeKeysOfPermutation(fees, fees');
    SchemeFeeSucceeds(fees, splits, scale);
    SchemeFeeSucceeds(fees', splits', scale);
    if SchemeFeeTotal(fees, splits, scale).Ok? {
      TotalByWeight(fees, splits, scale);
      TotalByWeight(fees', splits', scale);
      SumByPermutation(fees, fees', FeeWeight(scale));
      SumByPermutation(splits, splits', SplitWeight(FeeKeys(fees), scale));
    }
  }

  lemma SameElements<T>(s: seq<T>, t: seq<T>)
    requires multiset(s) == multiset(t)
    ensures forall x :: x in s <==> x in t
  {
    assert forall x :: x in s <==> x in multiset(s);
    assert forall x :: x in t <==> x in multiset(t);
  }

  lemma FeeKeysOfPermutation(fees: seq<(FeeSplitRole, Fee)>, fees': seq<(FeeSplitRole, Fee)>)
    requires multiset(fees) == multiset(fees')
    ensures FeeKeys(fees) == FeeKeys(fees')
  {
    hide RoleKey;
    SameElements(fees, fees');
  }

  /** The printed scheme fee denotes the total exactly, and reads back as it whenever it fits uint64. */
  lemma SchemeFeeReadsBack(fees: FeeMap, splits: FeeSplits, feeCurrency: Option<string>, profiles: CurrencyProfiles,
                           mode: Rounding.RoundingMode)
    requires SchemeFeeAmount(fees, splits, feeCurrency, profiles).Ok?
    requires SchemeFeeAmount(fees, splits, feeCurrency, profiles).value.Some?
    ensures SchemeCurrency(fees, feeCurrency).Some? && SchemeCurrency(fees, feeCurrency).value in profiles
    ensures var scale := profiles[SchemeCurrency(fees, feeCurrency).value];
            var text := SchemeFeeAmount(fees, splits, feeCurrency, profiles).value.value;
            && SchemeFeeTotal(fees, splits, scale).Ok?
            && MoneyText.DecimalOf(text).Some? &&
            var total := SchemeFeeTotal(fees, splits, scale).value;
            && MoneyTheorems.IsExactly(MoneyText.DecimalOf(text).value, scale, total)
            && (total <= UINT64_MAX ==> Serialize(text, scale, mode) == Ok(total))
  {
    hide SchemeFeeTotal, Serialize, Deserialize;
    var scale := profiles[SchemeCurrency(fees, feeCurrency).value];
    var total := SchemeFeeTotal(fees, splits, scale).value;
    MoneyTheorems.DeserializeMeaning(total, scale);
    if total <= UINT64_MAX {
      MoneyTheorems.SerializeDeserialize(total, scale, mode);
    }
  }

  /**
   The printed scheme fee serialises back to the sum over all keys, each counted once, whenever split
   keys stay distinct after normalisation and the sum fits uint64.
   */
  lemma SchemeFeeIsSumOverKeys(fees: FeeMap, splits: FeeSplits, feeCurrency: Option<string>,
                               profiles: CurrencyProfiles, mode: Rounding.RoundingMode)
    requires DistinctExtensionKeys(splits)
    requires SchemeFeeAmount(fees, splits, feeCurrency, profiles).Ok?
    requires SchemeFeeAmount(fees, splits, feeCurrency, profiles).value.Some?
    ensures SchemeCurrency(fees, feeCurrency).Some? && SchemeCurrency(fees, feeCurrency).value in profiles
    ensures var scale := profiles[SchemeCurrency(fees, feeCurrency).value];
      var text := SchemeFeeAmount(fees, splits, feeCurrency, profiles).value.value;
      var sum := SumSet(FeeKeys(fees) + PricedKeys(splits), k => Counted(fees, splits, scale, k));
      && MoneyText.DecimalOf(text).Some?
      && MoneyTheorems.IsExactly(MoneyText.DecimalOf(text).value, scale, sum)
      && (sum <= UINT64_MAX ==> Serialize(text, scale, mode) == Ok(sum))
  {
    hide SchemeFeeAmount, SchemeFeeTotal, Counted, Serialize, PricedKeys, MoneyTheorems.IsExactly;
    SchemeFeeReadsBack(fees, splits, feeCurrency, profiles, mode);
    DistinctKeysCountOnce(fees, splits, profiles[SchemeCurrency(fees, feeCurrency).value]);
  }
}
