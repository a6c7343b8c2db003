/**
  Fixed-point arithmetic standing in for the source's JavaScript numbers.

  Every amount (token balance, edge weight, sweep bound, cost) is an integer
  number of ten-thousandths, the scale of the DECIMAL(12,4) columns; a value
  with two decimals is a multiple of 100. `toFixed(2)` becomes `Round2`, which
  rounds to the nearest hundredth with ties away from zero, as `toFixed` does
  on exact decimals. The smoothing factor alpha is an integer number of
  hundredths, the scale of its DECIMAL(3,2) column.
*/
module Fixed {

  /** One hundredth, in ten-thousandths. */
  const Hundredth: int := 100

  /**
    A number received from a caller. `NonFinite` is NaN or an infinity: the
    source tests both with `Number.isFinite`. The unit of `value` is the one
    the parameter documents (ten-thousandths for amounts, plain integers for
    identifiers).
  */
  datatype Num = Finite(value: int) | NonFinite

  /** A value that `toFixed(2)` leaves unchanged: a whole number of hundredths. */
  predicate IsFixed2(x: int) {
    x % Hundredth == 0
  }

  /** `n / d` rounded to the nearest integer, ties away from zero. */
  function DivRound(n: int, d: int): (q: int)
    requires d > 0 && d % 2 == 0
    ensures n >= 0 ==> q * d - d / 2 <= n < q * d + d / 2
    ensures n < 0 ==> q * d - d / 2 < n <= q * d + d / 2
  {
    if n >= 0 then (n + d / 2) / d else -((-n + d / 2) / d)
  }

  /** `Number(x.toFixed(2))`: the nearest whole number of hundredths, ties away from zero. */
  function Round2(x: int): (r: int)
    ensures IsFixed2(r)
    ensures x >= 0 ==> r - 50 <= x < r + 50
    ensures x < 0 ==> r - 50 < x <= r + 50
  {
    DivRound(x, Hundredth) * Hundredth
  }

  lemma {:induction false} DivRoundMonotone(m: int, n: int, d: int)
    requires d > 0 && d % 2 == 0
    requires m <= n
    ensures DivRound(m, d) <= DivRound(n, d)
  {
    var a, b := DivRound(m, d), DivRound(n, d);
    if a > b {
      MulNonNeg(a - b - 1, d);
      assert false;
    }
  }

  /** Rounding a value that already has two decimals changes nothing. */
  lemma {:induction false} Round2Fixed(x: int)
    requires IsFixed2(x)
    ensures Round2(x) == x
  {
    var r := Round2(x);
    assert (r - x) % Hundredth == 0;
  }

  /** `toFixed(2)` is idempotent. */
  lemma {:induction false} Round2Idempotent(x: int)
    ensures Round2(Round2(x)) == Round2(x)
  {
    Round2Fixed(Round2(x));
  }

  /** `toFixed(2)` never reverses the order of two amounts. */
  lemma {:induction false} Round2Monotone(x: int, y: int)
    requires x <= y
    ensures Round2(x) <= Round2(y)
  {
    DivRoundMonotone(x, y, Hundredth);
  }

  /** The sum and difference of two-decimal values have two decimals. */
  lemma {:induction false} Fixed2Closed(x: int, y: int)
    requires IsFixed2(x) && IsFixed2(y)
    ensures IsFixed2(x + y) && IsFixed2(x - y)
  {
  }

  /**
    The exact exponential-smoothing blend `alpha·prev + (1−alpha)·proposed`,
    scaled by 100 because alpha is in hundredths: the blend in ten-thousandths
    is `Blend(..) / 100`.
  */
  function Blend(prev: int, proposed: int, alpha: int): int {
    alpha * prev + (100 - alpha) * proposed
  }

  /**
    `Number(applyEma(prev, proposed, alpha).toFixed(2))`: the blend rounded to
    the nearest hundredth.
  */
  function Ema2(prev: int, proposed: int, alpha: int): (r: int)
    ensures IsFixed2(r)
    ensures Blend(prev, proposed, alpha) >= 0 ==>
      r * 100 - 5000 <= Blend(prev, proposed, alpha) < r * 100 + 5000
    ensures Blend(prev, proposed, alpha) < 0 ==>
      r * 100 - 5000 < Blend(prev, proposed, alpha) <= r * 100 + 5000
  {
    DivRound(Blend(prev, proposed, alpha), 10000) * Hundredth
  }

  function Min(a: int, b: int): int { if a <= b then a else b }
  function Max(a: int, b: int): int { if a <= b then b else a }

  lemma {:induction false} MulNonNeg(a: int, b: int)
    requires a >= 0 && b >= 0
    ensures a * b >= 0
  {
  }

  lemma {:induction false} MulPos(a: int, b: int)
    requires a > 0 && b > 0
    ensures a * b > 0
  {
  }

  /**
    For a smoothing factor strictly between 0 and 1 the unrounded blend lies
    between the previous and the proposed weight, strictly when they differ.
  */
  lemma {:induction false} BlendBetween(prev: int, proposed: int, alpha: int)
    requires 0 < alpha < 100
    ensures 100 * Min(prev, proposed) <= Blend(prev, proposed, alpha) <= 100 * Max(prev, proposed)
    ensures prev != proposed ==>
      100 * Min(prev, proposed) < Blend(prev, proposed, alpha) < 100 * Max(prev, proposed)
  {
    var lo, hi := Min(prev, proposed), Max(prev, proposed);
    calc {
      Blend(prev, proposed, alpha) - 100 * lo;
      alpha * (prev - lo) + (100 - alpha) * (proposed - lo);
    }
    calc {
      100 * hi - Blend(prev, proposed, alpha);
      alpha * (hi - prev) + (100 - alpha) * (hi - proposed);
    }
    MulNonNeg(alpha, prev - lo);
    MulNonNeg(100 - alpha, proposed - lo);
    MulNonNeg(alpha, hi - prev);
    MulNonNeg(100 - alpha, hi - proposed);
    if prev < proposed {
      MulPos(100 - alpha, proposed - lo);
      MulPos(alpha, hi - prev);
    } else if proposed < prev {
      MulPos(alpha, prev - lo);
      MulPos(100 - alpha, hi - proposed);
    }
  }

  /**
    When both weights have two decimals and 0 <= alpha <= 1, the rounded blend
    stays between them: smoothing never overshoots either end.
  */
  lemma {:induction false} Ema2Between(prev: int, proposed: int, alpha: int)
    requires IsFixed2(prev) && IsFixed2(proposed)
    requires 0 <= alpha <= 100
    ensures Min(prev, proposed) <= Ema2(prev, proposed, alpha) <= Max(prev, proposed)
  {
    var lo, hi := Min(prev, proposed), Max(prev, proposed);
    var b := Blend(prev, proposed, alpha);
    if 0 < alpha < 100 {
      BlendBetween(prev, proposed, alpha);
    } else if alpha == 0 {
      assert b == 100 * proposed;
    } else {
      assert b == 100 * prev;
    }
    assert 100 * lo <= b <= 100 * hi;
    DivRoundMonotone(100 * lo, b, 10000);
    DivRoundMonotone(b, 100 * hi, 10000);
    assert DivRound(100 * lo, 10000) == lo / 100;
    assert DivRound(100 * hi, 10000) == hi / 100;
  }

  /** The documented example: prev 5.00, proposed 9.00, alpha 0.9 gives 5.40. */
  lemma {:induction false} EmaExample()
    ensures Ema2(50000, 90000, 90) == 54000
  {
  }
}
