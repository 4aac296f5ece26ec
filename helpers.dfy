/** backend/utils/helpers.py: price rounding, order totals and defensive dictionary access.
    Money is counted in integer cents; a caller-supplied amount that may carry more decimals is
    an exact `Decimal`. */
module Helpers {
  import opened Results
  import opened PyValues

  /** The exact decimal number `units / 10^scale` (what Python's `Decimal(value)` holds). */
  datatype Decimal = Decimal(units: int, scale: nat)

  function Pow10(n: nat): (r: nat)
    ensures r >= 1
  {
    if n == 0 then 1 else 10 * Pow10(n - 1)
  }

  lemma {:induction false} Pow10Add(a: nat, b: nat)
    ensures Pow10(a + b) == Pow10(a) * Pow10(b)
  {
    if a > 0 {
      Pow10Add(a - 1, b);
      assert Pow10(a + b) == 10 * Pow10(a - 1 + b);
    }
  }

  function Abs(x: int): nat { if x < 0 then -x else x }

  /** Magnitude of `a / unit` rounded to the nearest integer, halves upwards. */
  function RoundHalfUp(a: nat, unit: nat): (m: nat)
    requires unit >= 1
    ensures 2 * Abs(m * unit - a) <= unit
    ensures 2 * Abs(m * unit - a) == unit ==> m * unit > a
  {
    var q := a / unit;
    HalfUpStep(a, unit, q, a % unit);
    if 2 * (a % unit) >= unit then q + 1 else q
  }

  /** The two candidates of RoundHalfUp, written against the quotient and remainder. */
  lemma HalfUpStep(a: nat, unit: nat, q: nat, rem: nat)
    requires unit >= 1 && q == a / unit && rem == a % unit
    ensures 2 * rem >= unit ==>
      2 * Abs((q + 1) * unit - a) <= unit && (2 * Abs((q + 1) * unit - a) == unit ==> (q + 1) * unit > a)
    ensures 2 * rem < unit ==>
      2 * Abs(q * unit - a) <= unit && (2 * Abs(q * unit - a) == unit ==> q * unit > a)
  {
    DivMod(a, unit);
    var qu := q * unit;
    assert a == qu + rem;
    assert (q + 1) * unit == qu + unit;
  }

  lemma DivMod(a: nat, unit: nat)
    requires unit >= 1
    ensures a == (a / unit) * unit + a % unit && 0 <= a % unit < unit
  {
  }

  /** `round_price(value)`: `Decimal(value).quantize(Decimal("1.00"), ROUND_HALF_UP)` as cents;
      `None` stands for a value that cannot be converted, which yields 0.0. The result is
      within half a cent of the input, and an exact half rounds away from zero. */
  function RoundPrice(d: Option<Decimal>): (cents: int)
    ensures d.None? ==> cents == 0
    ensures d.Some? ==>
      2 * Abs(cents * Pow10(d.value.scale) - 100 * d.value.units) <= Pow10(d.value.scale)
    ensures d.Some? && 2 * Abs(cents * Pow10(d.value.scale) - 100 * d.value.units) == Pow10(d.value.scale) ==>
      Abs(cents) * Pow10(d.value.scale) > 100 * Abs(d.value.units)
    ensures d.Some? && d.value.units >= 0 ==> cents >= 0
    ensures d.Some? && d.value.units <= 0 ==> cents <= 0
  {
    match d
    case None => 0
    case Some(Decimal(units, scale)) =>
      if scale <= 2 then
        Pow10Add(2 - scale, scale);
        assert Pow10(2) == 100;
        assert units * Pow10(2 - scale) * Pow10(scale) == 100 * units;
        units * Pow10(2 - scale)
      else
        var unit := Pow10(scale - 2);
        Pow10Add(2, scale - 2);
        assert Pow10(scale) == 100 * unit;
        var m := RoundHalfUp(Abs(units), unit);
        var cents := if units < 0 then -(m as int) else m;
        ScaledGap(cents, units, m, unit);
        cents
  }

  lemma ScaledGap(cents: int, units: int, m: nat, unit: nat)
    requires unit >= 1
    requires cents == (if units < 0 then -(m as int) else m)
    ensures Abs(cents * (100 * unit) - 100 * units) == 100 * Abs(m * unit - Abs(units))
    ensures Abs(cents) * (100 * unit) == 100 * (m * unit)
  {
    if units < 0 {
      assert cents * (100 * unit) - 100 * units == -100 * (m * unit - Abs(units));
    } else {
      assert cents * (100 * unit) - 100 * units == 100 * (m * unit - Abs(units));
    }
  }

  /** Rounding a value that already has at most two decimals (however many trailing zeros
      its representation carries) changes nothing: `round_price` is idempotent. */
  lemma RoundPriceFixesCents(c: int, k: nat)
    ensures RoundPrice(Some(Decimal(c * Pow10(k), k + 2))) == c
  {
    var p := Pow10(k);
    if k == 0 {
      assert p == 1 && c * p == c;
      assert Pow10(2 - (k + 2)) == 1;
    } else {
      assert k + 2 - 2 == k;
      AbsScaled(c, p);
      HalfUpExact(Abs(c), p);
    }
  }

  /** Scaling by a positive factor scales the magnitude and keeps the sign. */
  lemma AbsScaled(c: int, p: nat)
    requires p >= 1
    ensures Abs(c * p) == Abs(c) * p
    ensures c * p < 0 <==> c < 0
  {
    if c < 0 {
      assert c * p == -((-c) * p);
      MulMonotone(1, -c, p);
    } else {
      MulMonotone(0, c, p);
    }
  }

  /** A whole number of units rounds to itself. */
  lemma HalfUpExact(n: nat, p: nat)
    requires p >= 1
    ensures RoundHalfUp(n * p, p) == n
  {
    var m := RoundHalfUp(n * p, p);
    Factor2(m, n, p);
    GapZero(m - n, p);
  }

  lemma Factor2(m: int, n: int, p: int)
    ensures m * p - n * p == p * (m - n)
  {
  }

  /** An amount equal to a whole number of cents, at any scale of two or more, does not exceed
      those cents. */
  lemma FullAmountWithin(c: int, k: nat)
    ensures !Exceeds(Decimal(c * Pow10(k), k + 2), c)
  {
    var p := Pow10(k);
    Pow10Add(k, 2);
    assert Pow10(2) == 100;
    assert Pow10(k + 2) == p * 100;
    Scale100(c, p);
  }

  lemma Scale100(c: int, p: int)
    ensures (c * p) * 100 == c * (p * 100)
  {
  }

  /** A whole multiple of `p` within half of `p` of zero is zero. */
  lemma GapZero(d: int, p: nat)
    requires p >= 1
    requires 2 * Abs(p * d) <= p
    ensures d == 0
  {
    if d >= 1 {
      MulMonotone(1, d, p);
    } else if d <= -1 {
      MulMonotone(1, -d, p);
    }
  }

  /** `amount > total_amount` for an exact amount against a total in cents. */
  predicate Exceeds(amount: Decimal, cents: int) {
    amount.units * 100 > cents * Pow10(amount.scale)
  }

  /** An amount that does not exceed a whole number of cents still does not exceed it once
      rounded. */
  lemma RoundedWithinBound(d: Decimal, cents: int)
    requires !Exceeds(d, cents)
    ensures RoundPrice(Some(d)) <= cents
  {
    var r := RoundPrice(Some(d));
    var p := Pow10(d.scale);
    var rp := r * p;
    assert 2 * Abs(rp - 100 * d.units) <= p;
    assert d.units * 100 <= cents * p;
    if r > cents {
      MulMonotone(cents + 1, r, p);
      Distrib(cents, p);
      assert false;
    }
  }

  lemma Distrib(a: int, p: int)
    ensures (a + 1) * p == a * p + p
  {
  }

  lemma MulMonotone(a: int, b: int, p: nat)
    requires a <= b
    ensures a * p <= b * p
  {
    assert b * p - a * p == (b - a) * p;
  }

  /** One entry of `order_items`: `{"price_each": ..., "quantity": ...}`, either key may be absent. */
  datatype PricedLine = PricedLine(priceEach: Option<int>, quantity: Option<int>)

  /** A line's contribution `price_each * quantity`, with an absent field read as 0. */
  function LineAmount(l: PricedLine): int {
    l.priceEach.GetOr(0) * l.quantity.GetOr(0)
  }

  /** The sum of the line amounts, defined from the end so that it extends one line at a time. */
  function LinesSum(ls: seq<PricedLine>): int {
    if ls == [] then 0 else LinesSum(ls[..|ls| - 1]) + LineAmount(ls[|ls| - 1])
  }

  /** The sum over two lists of lines is the sum of the two sums. */
  lemma {:induction false} LinesSumAppend(a: seq<PricedLine>, b: seq<PricedLine>)
    ensures LinesSum(a + b) == LinesSum(a) + LinesSum(b)
  {
    if b != [] {
      LinesSumAppend(a, b[..|b| - 1]);
      assert (a + b)[..|a + b| - 1] == a + b[..|b| - 1];
    } else {
      assert a + b == a;
    }
  }

  /** `calculate_order_total(order_items)`: accumulates price × quantity over the lines and
      rounds the total to cents. */
  method CalculateOrderTotal(items: seq<PricedLine>) returns (total: int)
    ensures total == LinesSum(items)
    ensures items == [] ==> total == 0
  {
    var sum := 0;
    var i := 0;
    while i < |items|
      invariant 0 <= i <= |items|
      invariant sum == LinesSum(items[..i])
    {
      var price := items[i].priceEach.GetOr(0);
      var qty := items[i].quantity.GetOr(0);
      sum := sum + price * qty;
      assert items[..i + 1][..i] == items[..i];
      i := i + 1;
    }
    assert items[..i] == items;
    RoundPriceFixesCents(sum, 0);
    total := RoundPrice(Some(Decimal(sum, 2)));
  }

  /** `safe_get(dct, key, default)`. */
  function SafeGet(dct: Value, key: string, default: Value): (r: Value)
    ensures !dct.VDict? ==> r == default
    ensures dct.VDict? && key !in Keys(dct.entries) ==> r == default
    ensures dct.VDict? && key in Keys(dct.entries) ==> (key, r) in dct.entries
  {
    if !dct.VDict? then default else Lookup(dct.entries, key).GetOr(default)
  }

  /** A key stored in a dictionary gives back its stored value. */
  lemma SafeGetStored(dct: Dict, key: string, v: Value, default: Value)
    requires DistinctKeys(dct) && (key, v) in dct
    ensures SafeGet(VDict(dct), key, default) == v
  {
    LookupStored(dct, key, v);
  }
}
