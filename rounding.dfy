/** numpy's rounding, used by `Series.round()` and `Series.round(5)`: round half to even. */
module Rounding {

  /** The integer nearest to `x`; a tie goes to the even neighbour. */
  function RoundHalfEven(x: real): (r: int)
    ensures x - 0.5 <= r as real <= x + 0.5
    ensures (r as real == x - 0.5 || r as real == x + 0.5) ==> r % 2 == 0
  {
    var f := x.Floor;
    var d := x - f as real;
    if d < 0.5 then f
    else if d > 0.5 then f + 1
    else if f % 2 == 0 then f
    else f + 1
  }

  /** Rounding to 5 decimal digits (`.round(5)`), over exact reals. */
  function Round5(x: real): (r: real)
    ensures x - 0.000005 <= r <= x + 0.000005
  {
    RoundHalfEven(x * 100000.0) as real / 100000.0
  }

  lemma RoundHalfEvenOfInt(n: int)
    ensures RoundHalfEven(n as real) == n
  {
    assert (n as real).Floor == n;
  }

  lemma RoundHalfEvenMonotone(x: real, y: real)
    requires x <= y
    ensures RoundHalfEven(x) <= RoundHalfEven(y)
  {
    var fx, fy := x.Floor, y.Floor;
    if fx == fy {
      assert x - fx as real <= y - fy as real;
    } else {
      assert fx < fy;
    }
  }

  lemma Round5Monotone(x: real, y: real)
    requires x <= y
    ensures Round5(x) <= Round5(y)
  {
    RoundHalfEvenMonotone(x * 100000.0, y * 100000.0);
  }

  /** A cumulative weight of exactly 1 stays 1 after rounding. */
  lemma Round5One()
    ensures Round5(1.0) == 1.0
  {
    RoundHalfEvenOfInt(100000);
  }

  lemma Round5NonNegative(x: real)
    requires x >= 0.0
    ensures Round5(x) >= 0.0
  {
    RoundHalfEvenOfInt(0);
    Round5Monotone(0.0, x);
  }

  /** On the unit interval `round()` gives 0 up to and including one half, and 1 above it. */
  lemma RoundUnitInterval(p: real)
    requires 0.0 <= p <= 1.0
    ensures RoundHalfEven(p) == if p <= 0.5 then 0 else 1
  {
    var r := RoundHalfEven(p);
    if p == 0.5 {
      assert r == 0 || r == 1;
      assert r % 2 == 0;
    }
  }
}
