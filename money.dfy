/** Exact money arithmetic: rounding to two decimal places.
    Ruby's Float#round(2) rounds a tie away from zero; here it is applied to exact reals. */
module Money {

  /** A value that is a whole number of hundredths. */
  predicate IsCents(x: real)
  {
    (x * 100.0).Floor as real == x * 100.0
  }

  /** The number of hundredths nearest to x, a tie going away from zero. */
  function RoundCents(x: real): (c: int)
    ensures x >= 0.0 ==> 0 <= c && x * 100.0 - 0.5 < c as real <= x * 100.0 + 0.5
    ensures x < 0.0 ==> c <= 0 && x * 100.0 - 0.5 <= c as real < x * 100.0 + 0.5
  {
    if x >= 0.0 then (x * 100.0 + 0.5).Floor else -((-x * 100.0 + 0.5).Floor)
  }

  /** x rounded to two decimal places, a tie going away from zero. */
  function Round2(x: real): (r: real)
    ensures IsCents(r)
    ensures x >= 0.0 ==> 0.0 <= r && x - 0.005 < r <= x + 0.005
    ensures x < 0.0 ==> r <= 0.0 && x - 0.005 <= r < x + 0.005
  {
    var c := RoundCents(x);
    assert (c as real / 100.0) * 100.0 == c as real;
    c as real / 100.0
  }

  /** A value that already has at most two decimal places is left alone. */
  lemma Round2OfCents(c: int)
    ensures Round2(c as real / 100.0) == c as real / 100.0
  {
    var x := c as real / 100.0;
    assert x * 100.0 == c as real;
    if c >= 0 {
      assert (x * 100.0 + 0.5).Floor == c;
    } else {
      assert (-x * 100.0 + 0.5).Floor == -c;
    }
  }

  /** Rounding twice is rounding once. */
  lemma Round2Idempotent(x: real)
    ensures Round2(Round2(x)) == Round2(x)
  {
    var c := RoundCents(x);
    Round2OfCents(c);
  }

  /** Halves go away from zero, so rounding commutes with negation. */
  lemma Round2Negate(x: real)
    ensures Round2(-x) == -Round2(x)
  {
    if x == 0.0 {
    } else if x > 0.0 {
      assert RoundCents(-x) == -RoundCents(x);
    } else {
      assert -(-x) == x;
      assert RoundCents(-x) == -RoundCents(x);
    }
  }

  /** Rounding never reverses the order of two values. */
  lemma Round2Monotonic(x: real, y: real)
    requires x <= y
    ensures Round2(x) <= Round2(y)
  {
    if x >= 0.0 {
      assert (x * 100.0 + 0.5).Floor <= (y * 100.0 + 0.5).Floor;
    } else if y < 0.0 {
      assert (-y * 100.0 + 0.5).Floor <= (-x * 100.0 + 0.5).Floor;
    }
  }
}
