/** Rounding of fixed-point values to a coarser unit. The agent keeps its
    readings as whole numbers of a small unit (thousandths, bits per second)
    instead of floating point; rounding to one decimal place or to a whole
    number becomes rounding to a multiple of `unit`. */
module Rounding {

  function Dist(a: int, b: int): nat {
    if a <= b then b - a else a - b
  }

  /** `r * unit` is a nearest multiple of `unit` to `v`. */
  predicate Nearest(v: int, unit: nat, r: int) {
    2 * Dist(r * unit, v) <= unit
  }

  /** `r * unit` lies exactly half a unit away from `v`. */
  predicate IsTie(v: int, unit: nat, r: int) {
    2 * Dist(r * unit, v) == unit
  }

  /** `r * unit` is the multiple `Math.Round` picks in its default mode
      (MidpointRounding.ToEven): a nearest one, and the even one on a tie. */
  predicate IsHalfEvenRounding(v: int, unit: nat, r: int) {
    Nearest(v, unit, r) && (IsTie(v, unit, r) ==> r % 2 == 0)
  }

  /** `r * unit` is the multiple the .NET custom formats "0" and "0.#" pick:
      a nearest one, and the larger one on a tie. */
  predicate IsHalfUpRounding(v: int, unit: nat, r: int) {
    Nearest(v, unit, r) && (IsTie(v, unit, r) ==> r * unit > v)
  }

  /** Round-half-to-even on a natural number. */
  function RoundNatHalfEven(v: nat, unit: nat): (r: nat)
    requires unit > 0
    ensures IsHalfEvenRounding(v, unit, r)
  {
    var q, m := v / unit, v % unit;
    assert v == q * unit + m;
    assert (q + 1) * unit == q * unit + unit;
    if 2 * m < unit then q
    else if 2 * m > unit then q + 1
    else if q % 2 == 0 then q
    else q + 1
  }

  /** `Math.Round` in its default mode (MidpointRounding.ToEven), with the
      tenths or whole units given by `unit`: the nearest multiple, and on a
      tie the even one. It is symmetric about zero. */
  function RoundHalfEven(v: int, unit: nat): (r: int)
    requires unit > 0
    ensures IsHalfEvenRounding(v, unit, r)
  {
    if v >= 0 then RoundNatHalfEven(v, unit)
    else
      var q: int := RoundNatHalfEven(-v, unit);
      assert (-q) * unit == -(q * unit);
      -q
  }

  /** The rounding done by the .NET custom formats "0" and "0.#" on a
      non-negative value: the nearest multiple, and on a tie the larger one
      (half away from zero). */
  function RoundHalfUp(v: nat, unit: nat): (r: nat)
    requires unit > 0
    ensures IsHalfUpRounding(v, unit, r)
  {
    var q, m := v / unit, v % unit;
    assert v == q * unit + m;
    assert (q + 1) * unit == q * unit + unit;
    if 2 * m < unit then q else q + 1
  }

  /** The contract of RoundHalfEven determines its result: there is exactly
      one nearest multiple that is even on ties. */
  lemma HalfEvenIsUnique(v: int, unit: nat, r1: int, r2: int)
    requires unit > 0
    requires IsHalfEvenRounding(v, unit, r1) && IsHalfEvenRounding(v, unit, r2)
    ensures r1 == r2
  {
    NearestAreClose(v, unit, r1, r2);
  }

  /** The contract of RoundHalfUp determines its result. */
  lemma HalfUpIsUnique(v: nat, unit: nat, r1: int, r2: int)
    requires unit > 0
    requires IsHalfUpRounding(v, unit, r1) && IsHalfUpRounding(v, unit, r2)
    ensures r1 == r2
  {
    NearestAreClose(v, unit, r1, r2);
  }

  /** Two nearest multiples are at most one unit apart, and when they differ
      both lie exactly half a unit from `v`. */
  lemma NearestAreClose(v: int, unit: nat, r1: int, r2: int)
    requires unit > 0
    requires Nearest(v, unit, r1) && Nearest(v, unit, r2)
    ensures r1 - 1 <= r2 <= r1 + 1
    ensures r1 != r2 ==> IsTie(v, unit, r1) && IsTie(v, unit, r2)
  {
    var d := r1 - r2;
    assert d * unit == r1 * unit - r2 * unit;
    ProductBounds(d, unit);
  }

  /** The multiples of a positive `u` that lie within `u` of zero: the
      products NearestAreClose needs, which the solver does not find on its
      own reliably. */
  lemma ProductBounds(d: int, u: int)
    requires u > 0
    ensures d >= 2 ==> d * u >= 2 * u
    ensures d <= -2 ==> d * u <= -2 * u
    ensures d == 1 ==> d * u == u
    ensures d == -1 ==> d * u == -u
  {
  }
}
