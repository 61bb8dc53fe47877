/** Decimals as mantissa and scale, and their half-even rounding to whole cents. */
module Money {
  import opened Arithmetic
  import opened Text

  /** The number mantissa / 10^scale. */
  datatype Decimal = Decimal(mantissa: int, scale: nat)

  /** The number of units of 10^-scale in one cent, when the scale exceeds two. */
  function CentUnit(x: Decimal): int
    requires x.scale > 2
  {
    Pow10(x.scale - 2)
  }

  /**
   * `round_dp_with_strategy(2, MidpointNearestEven)`, as a number of cents: a value of scale
   * at most two is kept, any other is rounded on its magnitude and given its sign back.
   */
  function RoundMoney(x: Decimal): int {
    if x.scale <= 2 then x.mantissa * Pow10(2 - x.scale)
    else if x.mantissa >= 0 then RoundMagnitude(x.mantissa, CentUnit(x))
    else -RoundMagnitude(-x.mantissa, CentUnit(x))
  }

  function RoundMagnitude(m: int, unit: int): int
    requires m >= 0 && unit >= 1
  {
    PickNearest(m / unit, m % unit, unit)
  }

  function PickNearest(q: int, r: int, unit: int): int {
    if 2 * r > unit || (2 * r == unit && q % 2 == 1) then q + 1 else q
  }

  /** x <= y as numbers. */
  ghost predicate AtMost(x: Decimal, y: Decimal) {
    x.mantissa * Pow10(y.scale) <= y.mantissa * Pow10(x.scale)
  }

  function Negate(x: Decimal): Decimal {
    Decimal(-x.mantissa, x.scale)
  }

  /** c / 100 is a nearest number of cents to m / (100 * unit), the even one when two are equally near. */
  ghost predicate IsHalfEven(m: int, unit: int, c: int) {
    IsNearest(m - c * unit, unit, c)
  }

  /** The rest left by c cents is at most half a unit, and at exactly half a unit c is even. */
  ghost predicate IsNearest(rest: int, unit: int, c: int) {
    -unit <= 2 * rest <= unit && (2 * rest in {unit, -unit} ==> c % 2 == 0)
  }

  /** The independent definition that RoundMoney meets: nearest cent, ties to even; exact at scale two or less. */
  ghost predicate IsRounded(x: Decimal, c: int) {
    if x.scale <= 2 then c == x.mantissa * Pow10(2 - x.scale) else IsHalfEven(x.mantissa, CentUnit(x), c)
  }

  lemma PickIsNearest(q: int, r: int, unit: int)
    requires 0 <= r < unit
    ensures var c := PickNearest(q, r, unit);
            var rest := if c == q then r else r - unit;
            IsNearest(rest, unit, c) && IsNearest(-rest, unit, -c)
  {
  }

  lemma RestOfPick(m: int, q: int, r: int, unit: int)
    requires m - q * unit == r
    ensures var c := PickNearest(q, r, unit); m - c * unit == if c == q then r else r - unit
  {
    MulDistributes(q, 1, unit);
  }

  lemma MagnitudeIsHalfEven(m: int, unit: int)
    requires m >= 0 && unit >= 1
    ensures IsHalfEven(m, unit, RoundMagnitude(m, unit))
    ensures IsHalfEven(-m, unit, -RoundMagnitude(m, unit))
  {
    DivForm(m, unit);
    PickIsNearest(m / unit, m % unit, unit);
    RestOfPick(m, m / unit, m % unit, unit);
    MulNegates(RoundMagnitude(m, unit), unit);
  }

  lemma AtLeastTwice(d: int, unit: int)
    requires unit >= 0
    ensures d >= 2 ==> d * unit >= 2 * unit
  {
    if d >= 2 && unit >= 1 {
      MulDistributes(d, 2, unit);
      MulSigns(d - 2, unit);
    } else if unit == 0 {
      assert d * unit == 0;
    }
  }

  /** Two half-even roundings of ordered numbers are ordered, hence the rounding is unique. */
  lemma HalfEvenMonotone(m1: int, m2: int, unit: int, c1: int, c2: int)
    requires unit >= 1 && m1 <= m2 && IsHalfEven(m1, unit, c1) && IsHalfEven(m2, unit, c2)
    ensures c1 <= c2
  {
    MulDistributes(c1, c2, unit);
    AtLeastTwice(c1 - c2, unit);
  }

  /** RoundMoney computes the half-even rounding, and nothing else is one. */
  lemma RoundMoneyIsHalfEven(x: Decimal, c: int)
    ensures IsRounded(x, c) <==> c == RoundMoney(x)
  {
    if x.scale > 2 {
      MagnitudeIsHalfEven(if x.mantissa >= 0 then x.mantissa else -x.mantissa, CentUnit(x));
      assert IsRounded(x, RoundMoney(x));
      if IsRounded(x, c) {
        HalfEvenMonotone(x.mantissa, x.mantissa, CentUnit(x), c, RoundMoney(x));
        HalfEvenMonotone(x.mantissa, x.mantissa, CentUnit(x), RoundMoney(x), c);
      }
    }
  }

  /** The same number written with a longer mantissa. */
  function Rescale(x: Decimal, extra: nat): Decimal {
    Decimal(x.mantissa * Pow10(extra), x.scale + extra)
  }

  lemma NearestScales(rest: int, unit: int, c: int, f: int)
    requires unit >= 1 && f >= 1 && IsNearest(rest, unit, c)
    ensures IsNearest(rest * f, unit * f, c)
  {
    MulDistributes(unit, 2 * rest, f);
    MulAssociates(2, rest, f);
    MulSigns(unit - 2 * rest, f);
    MulSigns(unit + 2 * rest, f);
  }

  lemma ScaledHalfEven(m: int, unit: int, c: int, f: int)
    requires unit >= 1 && f >= 1 && IsHalfEven(m, unit, c)
    ensures IsHalfEven(m * f, unit * f, c)
  {
    var rest := m - c * unit;
    MulAssociates(c, unit, f);
    MulDistributes(m, c * unit, f);
    NearestScales(rest, unit, c, f);
  }

  lemma ExactIsHalfEven(c: int, unit: int)
    requires unit >= 1
    ensures IsHalfEven(c * unit, unit, c)
  {
  }

  /** Rounding depends on the number alone, not on how many digits write it. */
  lemma RoundingIgnoresScale(x: Decimal, extra: nat)
    ensures RoundMoney(Rescale(x, extra)) == RoundMoney(x)
  {
    var y, c := Rescale(x, extra), RoundMoney(x);
    if y.scale <= 2 {
      PowerSum(10, extra, 2 - y.scale);
      MulAssociates(x.mantissa, Pow10(extra), Pow10(2 - y.scale));
    } else if x.scale > 2 {
      RoundMoneyIsHalfEven(x, c);
      PowerSum(10, x.scale - 2, extra);
      ScaledHalfEven(x.mantissa, CentUnit(x), c, Pow10(extra));
      RoundMoneyIsHalfEven(y, c);
    } else {
      PowerSum(10, 2 - x.scale, y.scale - 2);
      MulAssociates(x.mantissa, Pow10(2 - x.scale), CentUnit(y));
      ExactIsHalfEven(c, CentUnit(y));
      RoundMoneyIsHalfEven(y, c);
    }
  }

  lemma MonotoneAtOneScale(a: Decimal, b: Decimal)
    requires a.scale == b.scale > 2 && a.mantissa <= b.mantissa
    ensures RoundMoney(a) <= RoundMoney(b)
  {
    RoundMoneyIsHalfEven(a, RoundMoney(a));
    RoundMoneyIsHalfEven(b, RoundMoney(b));
    HalfEvenMonotone(a.mantissa, b.mantissa, CentUnit(a), RoundMoney(a), RoundMoney(b));
  }

  lemma MantissaOfRescale(x: Decimal, scale: nat)
    ensures Rescale(x, scale + 3).mantissa == x.mantissa * Pow10(scale) * Pow10(3)
  {
    PowerSum(10, scale, 3);
    MulAssociates(x.mantissa, Pow10(scale), Pow10(3));
  }

  lemma OrderOfRescale(x: Decimal, y: Decimal)
    requires AtMost(x, y)
    ensures Rescale(x, y.scale + 3).mantissa <= Rescale(y, x.scale + 3).mantissa
  {
    MantissaOfRescale(x, y.scale);
    MantissaOfRescale(y, x.scale);
    MulMono(x.mantissa * Pow10(y.scale), y.mantissa * Pow10(x.scale), Pow10(3));
  }

  /** A larger number never rounds to fewer cents, at any scales. */
  lemma RoundingIsMonotone(x: Decimal, y: Decimal)
    requires AtMost(x, y)
    ensures RoundMoney(x) <= RoundMoney(y)
  {
    RoundingIgnoresScale(x, y.scale + 3);
    RoundingIgnoresScale(y, x.scale + 3);
    OrderOfRescale(x, y);
    MonotoneAtOneScale(Rescale(x, y.scale + 3), Rescale(y, x.scale + 3));
  }

  /** Rounding is odd, within half a cent, and leaves whole cents alone. */
  lemma RoundingLaws(x: Decimal)
    ensures RoundMoney(Negate(x)) == -RoundMoney(x)
    ensures x.scale > 2 ==> -CentUnit(x) <= 2 * (x.mantissa - RoundMoney(x) * CentUnit(x)) <= CentUnit(x)
    ensures RoundMoney(Decimal(RoundMoney(x), 2)) == RoundMoney(x)
  {
    RoundMoneyIsHalfEven(x, RoundMoney(x));
    if x.scale <= 2 {
      MulNegates(x.mantissa, Pow10(2 - x.scale));
    }
    assert Pow10(0) == 1;
  }

  /** The sum of two decimals, written at the larger scale. */
  function Add(x: Decimal, y: Decimal): Decimal {
    if x.scale >= y.scale then Decimal(x.mantissa + y.mantissa * Pow10(x.scale - y.scale), x.scale)
    else Decimal(x.mantissa * Pow10(y.scale - x.scale) + y.mantissa, y.scale)
  }

  /** On stored balances and validated amounts the rounding of a sum moves no cent. */
  lemma RoundedSumOfCents(balance: Decimal, amount: Decimal)
    requires balance.scale <= 2 && amount.scale <= 2
    ensures RoundMoney(Add(balance, amount)) == RoundMoney(balance) + RoundMoney(amount)
    ensures RoundMoney(Add(balance, Negate(amount))) == RoundMoney(balance) - RoundMoney(amount)
  {
    RoundedSumAtMostTwo(balance, amount);
    RoundedSumAtMostTwo(balance, Negate(amount));
    RoundingLaws(amount);
  }

  lemma RoundedSumAtMostTwo(x: Decimal, y: Decimal)
    requires x.scale <= 2 && y.scale <= 2
    ensures RoundMoney(Add(x, y)) == RoundMoney(x) + RoundMoney(y)
  {
    if x.scale >= y.scale {
      var p, q := Pow10(2 - x.scale), Pow10(x.scale - y.scale);
      PowerSum(10, x.scale - y.scale, 2 - x.scale);
      MulDistributes(x.mantissa, y.mantissa * q, p);
      MulAssociates(y.mantissa, q, p);
    } else {
      var p, q := Pow10(2 - y.scale), Pow10(y.scale - x.scale);
      PowerSum(10, y.scale - x.scale, 2 - y.scale);
      MulDistributes(x.mantissa * q, y.mantissa, p);
      MulAssociates(x.mantissa, q, p);
    }
  }

  /**
   * Beyond scale two, adding whole cents commutes with rounding unless the number lies half-way
   * between two cents and an odd number of cents is added: exactly then the sum is off by one.
   */
  lemma RoundedSumBeyondCents(x: Decimal, cents: int)
    requires x.scale > 2
    ensures var u := CentUnit(x);
            RoundMoney(Decimal(x.mantissa + cents * u, x.scale)) == RoundMoney(x) + cents
            <==> cents % 2 == 0 || 2 * (x.mantissa - RoundMoney(x) * u) !in {u, -u}
  {
    var u, c := CentUnit(x), RoundMoney(x);
    var y := Decimal(x.mantissa + cents * u, x.scale);
    RoundMoneyIsHalfEven(x, c);
    RoundMoneyIsHalfEven(y, c + cents);
    ShiftKeepsRest(x.mantissa, c, cents, u);
    NearestAfterShift(x.mantissa - c * u, u, c, cents);
  }

  lemma NearestAfterShift(rest: int, unit: int, c: int, cents: int)
    requires IsNearest(rest, unit, c)
    ensures IsNearest(rest, unit, c + cents) <==> cents % 2 == 0 || 2 * rest !in {unit, -unit}
  {
  }

  lemma ShiftKeepsRest(m: int, c: int, cents: int, unit: int)
    ensures m + cents * unit - (c + cents) * unit == m - c * unit
  {
    MulDistributes(c, cents, unit);
  }
}
