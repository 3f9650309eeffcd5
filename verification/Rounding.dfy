/** The two ways the money code rounds, kept apart: they differ on a negative half. */
module Rounding {

  /** `Math.round(a / b)` for a positive divisor: the nearest whole number, a half upwards. */
  function RoundOver(a: int, b: int): (r: int)
    requires b > 0
    ensures -b <= 2 * a - 2 * b * r < b
  {
    (2 * a + b) / (2 * b)
  }

  /** `Math.round(a / b)` for any divisor but zero, as JavaScript works it out. */
  function MathRound(a: int, b: int): (r: int)
    requires b != 0
    ensures b > 0 ==> -b <= 2 * a - 2 * b * r < b
    ensures b < 0 ==> b < 2 * a - 2 * b * r <= -b
  {
    if b > 0 then RoundOver(a, b) else RoundOver(-a, -b)
  }

  /** `Math.sign(a) * Math.round(Math.abs(a) / b)`: a half goes away from zero. */
  function HalfAway(a: int, b: int): (r: int)
    requires b > 0
    ensures -b <= 2 * a - 2 * b * r <= b
    ensures a >= 0 ==> r >= 0
    ensures a <= 0 ==> r <= 0
  {
    if a >= 0 then RoundOver(a, b) else -RoundOver(-a, b)
  }

  lemma NoMultipleBetween(b: int, k: int)
    requires b > 0 && b * k < b
    ensures k <= 0
  {
    if k > 0 {
      assert b * (k - 1) >= 0;
    }
  }

  lemma TimesMonotone(a: int, c: int, b: int)
    requires a <= c && 0 <= b
    ensures a * b <= c * b
  {
    assert (c - a) * b >= 0;
  }

  lemma TimesStrict(a: int, c: int, b: int)
    requires a < c && 1 <= b
    ensures a * b < c * b
  {
    TimesMonotone(1, c - a, b);
    assert (c - a) * b == c * b - a * b;
  }

  lemma DivisionIs(b: int, q: int, r: int)
    requires 0 <= r < b
    ensures (q * b + r) / b == q && (q * b + r) % b == r
  {
    var d, m := (q * b + r) / b, (q * b + r) % b;
    assert q * b + r == d * b + m;
    NoMultipleBetween(b, q - d) by { assert b * (q - d) == q * b - d * b; }
    NoMultipleBetween(b, d - q) by { assert b * (d - q) == d * b - q * b; }
  }

  lemma RoundIsTheNearest(a: int, b: int, r: int)
    requires b > 0
    requires -b <= 2 * a - 2 * b * r < b
    ensures r == RoundOver(a, b)
  {
    var s := RoundOver(a, b);
    NoMultipleBetween(b, r - s) by { assert b * (r - s) == b * r - b * s; }
    NoMultipleBetween(b, s - r) by { assert b * (s - r) == b * s - b * r; }
  }

  /** To the nearest, and of two that are as near to the one further from zero. */
  lemma HalfAwayIsTheNearest(a: int, b: int, r: int)
    requires b > 0 && r == HalfAway(a, b)
    ensures a >= 0 ==> -b <= 2 * a - 2 * b * r < b
    ensures a <= 0 ==> -b < 2 * a - 2 * b * r <= b
  {
    if a == 0 {
      RoundIsTheNearest(0, b, 0);
    } else if a < 0 {
      assert 2 * b * -r == -(2 * b * r);
    }
  }

  lemma HalfAwayIsOdd(a: int, b: int)
    requires b > 0
    ensures HalfAway(-a, b) == -HalfAway(a, b)
  {
    if a == 0 {
      RoundIsTheNearest(0, b, 0);
    }
  }

  /** The rounding of `lineNetCents` is mirrored, the one of `Math.round` is not. */
  lemma MathRoundIsNotOdd()
    ensures MathRound(-1, 2) == 0 && MathRound(1, 2) == 1 && HalfAway(-1, 2) == -1
  {}

  lemma RoundOfWhole(r: int, b: int)
    requires b > 0
    ensures RoundOver(r * b, b) == r && MathRound(r * b, b) == r && HalfAway(r * b, b) == r
  {
    RoundIsTheNearest(r * b, b, r);
    RoundIsTheNearest(-r * b, b, -r);
    assert -r * b == -(r * b);
  }

  lemma MathRoundOfWhole(r: int, b: int)
    requires b != 0
    ensures MathRound(r * b, b) == r
  {
    if b > 0 {
      RoundOfWhole(r, b);
    } else {
      RoundOfWhole(r, -b);
      assert r * -b == -(r * b);
    }
  }

  lemma RoundMonotone(a: int, c: int, b: int)
    requires b > 0 && a <= c
    ensures RoundOver(a, b) <= RoundOver(c, b)
  {
    var r, s := RoundOver(a, b), RoundOver(c, b);
    NoMultipleBetween(b, r - s) by { assert b * (r - s) == b * r - b * s; }
  }
}
