/**
 * The percentage shown while searching: each finished file adds 100 / n to an
 * accumulator, and the shown value is `(int)Math.Round(accumulator, 1)`. The
 * accumulator is modelled on exact reals.
 */
module Progress {

  /** Math.Round to a whole number with the default midpoint rule (to even). */
  function RoundHalfEven(y: real): (r: int)
    ensures (r as real) - 0.5 <= y <= (r as real) + 0.5
    ensures y == (r as real) - 0.5 || y == (r as real) + 0.5 ==> r % 2 == 0
  {
    var f := y.Floor;
    var frac := y - f as real;
    if frac < 0.5 then f
    else if frac > 0.5 then f + 1
    else if f % 2 == 0 then f
    else f + 1
  }

  /** The C# cast from double to int: the fraction is dropped toward zero. */
  function TruncateTenths(q: int): (r: int)
    ensures q >= 0 ==> 0 <= 10 * r <= q < 10 * r + 10
    ensures q < 0 ==> 10 * r - 10 < q <= 10 * r <= 0
  {
    if q >= 0 then q / 10 else -((-q) / 10)
  }

  /** (int)Math.Round(v, 1) */
  function Percent(v: real): int {
    TruncateTenths(RoundHalfEven(10.0 * v))
  }

  lemma RoundHalfEvenMonotone(x: real, y: real)
    requires x <= y
    ensures RoundHalfEven(x) <= RoundHalfEven(y)
  {
    var fx, fy := x.Floor, y.Floor;
    if fx == fy {
      assert x - fx as real <= y - fy as real;
    } else {
      assert fx < fy;
    }
  }

  /** A larger accumulator never shows a smaller percentage. */
  lemma PercentMonotone(v: real, w: real)
    requires v <= w
    ensures Percent(v) <= Percent(w)
  {
    RoundHalfEvenMonotone(10.0 * v, 10.0 * w);
  }

  /** Nothing done shows 0; everything done shows 100; in between stays in range. */
  lemma PercentRange(v: real)
    requires 0.0 <= v <= 100.0
    ensures Percent(0.0) == 0 && Percent(100.0) == 100
    ensures 0 <= Percent(v) <= 100
  {
    assert RoundHalfEven(0.0) == 0;
    assert RoundHalfEven(1000.0) == 1000;
    PercentMonotone(0.0, v);
    PercentMonotone(v, 100.0);
  }

  /**
   * Rounding to one decimal before the cast absorbs a small shortfall of the
   * accumulator below 100; 99.94 is the largest tenth boundary below it.
   */
  lemma PercentNearWhole(v: real)
    requires 99.95 <= v <= 100.0
    ensures Percent(v) == 100 && Percent(99.94) == 99
  {
    assert RoundHalfEven(999.4) == 999;
    assert RoundHalfEven(10.0 * v) == 1000;
  }

  /** The accumulator after `count` additions of `tick` to 0. */
  function Accumulated(count: nat, tick: real): real {
    if count == 0 then 0.0 else Accumulated(count - 1, tick) + tick
  }

  lemma {:induction false} AccumulatedIsProduct(count: nat, tick: real)
    ensures Accumulated(count, tick) == (count as real) * tick
  {
    if count > 0 {
      AccumulatedIsProduct(count - 1, tick);
    }
  }

  /**
   * With n files each worth 100 / n, the accumulator stays between 0 and 100
   * and reaches exactly 100 when all n are done.
   */
  lemma AccumulatedWithinWhole(i: nat, n: nat)
    requires 0 < n && i <= n
    ensures 0.0 <= Accumulated(i, 100.0 / n as real) <= 100.0
    ensures Accumulated(n, 100.0 / n as real) == 100.0
  {
    var tick := 100.0 / n as real;
    AccumulatedIsProduct(i, tick);
    AccumulatedIsProduct(n, tick);
    assert (n as real) * tick == 100.0;
    assert (i as real) * tick <= (n as real) * tick;
  }
}
