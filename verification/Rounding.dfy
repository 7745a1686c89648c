/**
 What the rounding modes mean: conditions on an integer and an exact fraction, written
 without reference to digits. `IsRounding` determines its integer, so an algorithm that
 meets it computes the rounding.
 */
module Rounding {

  datatype RoundingMode = Up | Down | Ceiling | Floor | HalfUp | HalfDown | HalfEven | Unnecessary

  function Abs(x: int): nat {
    if x < 0 then -x else x
  }

  /** r is the value of the fraction num/den rounded to an integer in the given mode. */
  predicate IsRounding(mode: RoundingMode, num: int, den: int, r: int)
    requires den > 0
  {
    Meets(mode, num, den, r * den, r % 2 == 0)
  }

  // rd is within half a unit of num, where den is one unit.
  predicate Near(num: int, den: int, rd: int) {
    -den <= 2 * (num - rd) <= den
  }

  // num lies exactly half way between rd and a neighbouring multiple of den.
  predicate Tie(num: int, den: int, rd: int) {
    2 * Abs(num - rd) == den
  }

  predicate IsFloor(num: int, den: int, rd: int) {
    rd <= num < rd + den
  }

  predicate IsCeiling(num: int, den: int, rd: int) {
    rd - den < num <= rd
  }

  // The definition of each mode, with rd standing for r * den.
  predicate Meets(mode: RoundingMode, num: int, den: int, rd: int, even: bool) {
    match mode
    case Floor => IsFloor(num, den, rd)
    case Ceiling => IsCeiling(num, den, rd)
    case Down => if num >= 0 then IsFloor(num, den, rd) else IsCeiling(num, den, rd)
    case Up => if num >= 0 then IsCeiling(num, den, rd) else IsFloor(num, den, rd)
    case HalfUp => Near(num, den, rd) && (Tie(num, den, rd) ==> Abs(num) <= Abs(rd))
    case HalfDown => Near(num, den, rd) && (Tie(num, den, rd) ==> Abs(num) >= Abs(rd))
    case HalfEven => Near(num, den, rd) && (Tie(num, den, rd) ==> even)
    case Unnecessary => rd == num
  }

  lemma Distribute(a: int, b: int, k: int)
    ensures (a - b) * k == a * k - b * k
  {}

  // Products with a fixed positive factor compare as the other factor does.
  lemma Times(a: int, b: int, den: int)
    requires den > 0
    ensures a <= b ==> a * den <= b * den
    ensures a < b ==> a * den + den <= b * den
    ensures a + 2 <= b ==> a * den + 2 * den <= b * den
  {
    Distribute(b, a, den);
    AtLeast(b - a, den);
  }

  lemma AtLeast(x: int, den: int)
    requires den > 0
    ensures x >= 0 ==> x * den >= 0
    ensures x >= 1 ==> x * den >= den
    ensures x >= 2 ==> x * den >= 2 * den
  {
    Distribute(x, 1, den);
    Distribute(x, 2, den);
  }

  lemma Order(a: int, b: int, k: int)
    requires k > 0
    ensures a <= b <==> a * k <= b * k
    ensures a < b <==> a * k < b * k
  {
    Times(a, b, k);
    Times(b, a, k);
  }

  lemma AbsTimes(a: int, k: int)
    requires k > 0
    ensures Abs(a * k) == Abs(a) * k
  {
    Order(a, 0, k);
    Distribute(0, a, k);
  }

  /** A fraction has at most one rounding in each mode. */
  lemma RoundingUnique(mode: RoundingMode, num: int, den: int, r: int, q: int)
    requires den > 0
    requires IsRounding(mode, num, den, r) && IsRounding(mode, num, den, q)
    ensures r == q
  {
    if r < q {
      NotBoth(mode, num, den, r, q);
    } else if q < r {
      NotBoth(mode, num, den, q, r);
    }
  }

  lemma NotBoth(mode: RoundingMode, num: int, den: int, r: int, q: int)
    requires den > 0 && r < q
    ensures !(IsRounding(mode, num, den, r) && IsRounding(mode, num, den, q))
  {
    Times(r, q, den);
    AtLeast(r, den);
    AtLeast(-q, den);
    Distribute(0, q, den);
    Times(r + 1, q, den);
    Distribute(r, -1, den);
    NotBothProducts(mode, num, den, r * den, q * den, r % 2 == 0, q % 2 == 0);
  }

  lemma NotBothProducts(mode: RoundingMode, num: int, den: int, rd: int, qd: int, evenR: bool, evenQ: bool)
    requires den > 0 && rd + den <= qd
    requires rd + den == qd ==> evenR != evenQ && (rd >= 0 || qd <= 0)
    requires rd + den == qd || rd + 2 * den <= qd
    ensures !(Meets(mode, num, den, rd, evenR) && Meets(mode, num, den, qd, evenQ))
  {}

  /** Cancelling a common factor of numerator and denominator does not change the rounding. */
  lemma RoundingScales(mode: RoundingMode, num: int, den: int, k: int, r: int)
    requires den > 0 && k > 0
    ensures den * k > 0
    ensures IsRounding(mode, num * k, den * k, r) <==> IsRounding(mode, num, den, r)
  {
    AtLeast(den, k);
    Associate(r, den, k);
    MeetsScales(mode, num, den, r * den, k, r % 2 == 0);
  }

  lemma Associate(a: int, b: int, c: int)
    ensures a * (b * c) == (a * b) * c
  {}

  lemma MeetsScales(mode: RoundingMode, num: int, den: int, rd: int, k: int, even: bool)
    requires k > 0
    ensures Meets(mode, num * k, den * k, rd * k, even) <==> Meets(mode, num, den, rd, even)
  {
    FloorScales(num, den, rd, k);
    NearScales(num, den, rd, k);
    Order(0, num, k);
    Order(rd, num, k);
    Order(num, rd, k);
    AbsTimes(num, k);
    AbsTimes(rd, k);
    Order(Abs(num), Abs(rd), k);
    Order(Abs(rd), Abs(num), k);
  }

  lemma FloorScales(num: int, den: int, rd: int, k: int)
    requires k > 0
    ensures IsFloor(num * k, den * k, rd * k) <==> IsFloor(num, den, rd)
    ensures IsCeiling(num * k, den * k, rd * k) <==> IsCeiling(num, den, rd)
  {
    Order(rd, num, k);
    Order(num, rd, k);
    Order(num - rd, den, k);
    Order(rd - num, den, k);
    Distribute(num, rd, k);
    Distribute(rd, num, k);
  }

  lemma NearScales(num: int, den: int, rd: int, k: int)
    requires k > 0
    ensures Near(num * k, den * k, rd * k) <==> Near(num, den, rd)
    ensures Tie(num * k, den * k, rd * k) <==> Tie(num, den, rd)
  {
    Distribute(num, rd, k);
    Distribute(rd, num, k);
    DoubleScales(num - rd, den, k);
    DoubleScales(rd - num, den, k);
  }

  lemma DoubleScales(x: int, den: int, k: int)
    requires k > 0
    ensures 2 * x <= den <==> 2 * (x * k) <= den * k
    ensures 2 * x >= den <==> 2 * (x * k) >= den * k
  {
    Distribute(2 * x, x, k);
    Order(2 * x, den, k);
    Order(den, 2 * x, k);
  }

  /** An integer is its own rounding in every mode. */
  lemma RoundingOfInteger(mode: RoundingMode, den: int, r: int)
    requires den > 0
    ensures IsRounding(mode, r * den, den, r)
  {}

  /** HALF_UP never reverses the order of two fractions. */
  lemma HalfUpMonotone(num1: int, den1: int, r1: int, num2: int, den2: int, r2: int)
    requires den1 > 0 && den2 > 0
    requires num1 * den2 <= num2 * den1
    requires IsRounding(HalfUp, num1, den1, r1) && IsRounding(HalfUp, num2, den2, r2)
    ensures r1 <= r2
  {
    // Bring both fractions to the common denominator.
    RoundingScales(HalfUp, num1, den1, den2, r1);
    RoundingScales(HalfUp, num2, den2, den1, r2);
    HalfUpMonotoneCommon(num1 * den2, num2 * den1, den1 * den2, r1, r2);
  }

  lemma HalfUpMonotoneCommon(num1: int, num2: int, den: int, r1: int, r2: int)
    requires den > 0 && num1 <= num2
    requires IsRounding(HalfUp, num1, den, r1) && IsRounding(HalfUp, num2, den, r2)
    ensures r1 <= r2
  {
    if r2 < r1 {
      Times(r2, r1, den);
      AtLeast(r2, den);
      AtLeast(-r1, den);
      Distribute(0, r1, den);
      Times(r2 + 1, r1, den);
      Distribute(r2, -1, den);
      HalfUpProducts(num1, num2, den, r1 * den, r2 * den);
    }
  }

  lemma HalfUpProducts(num1: int, num2: int, den: int, rd1: int, rd2: int)
    requires den > 0 && num1 <= num2 && rd2 + den <= rd1
    requires rd2 + den == rd1 ==> rd2 >= 0 || rd1 <= 0
    requires rd2 + den == rd1 || rd2 + 2 * den <= rd1
    ensures !(Meets(HalfUp, num1, den, rd1, true) && Meets(HalfUp, num2, den, rd2, true))
    ensures !(Meets(HalfUp, num1, den, rd1, false) && Meets(HalfUp, num2, den, rd2, false))
    ensures !(Meets(HalfUp, num1, den, rd1, true) && Meets(HalfUp, num2, den, rd2, false))
    ensures !(Meets(HalfUp, num1, den, rd1, false) && Meets(HalfUp, num2, den, rd2, true))
  {}
}
