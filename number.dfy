/** lib/util/number.ts: rounding oven temperatures to a multiple of five. */
module Number {

  predicate MultipleOf5(n: int) { n % 5 == 0 }

  /** `Math.round`: the nearest integer, halves rounded towards +infinity. */
  function MathRound(x: real): (k: int)
    ensures k as real - 0.5 <= x < k as real + 0.5
  {
    (x + 0.5).Floor
  }

  /** `round5(num)`: 0 stays 0, anything else below 5 becomes 5, and from 5
      up the nearest multiple of five, halves rounded up. */
  function Round5(num: real): (r: int)
    ensures r >= 0 && MultipleOf5(r)
    ensures num == 0.0 ==> r == 0
    ensures num != 0.0 && num < 5.0 ==> r == 5
    ensures num >= 5.0 ==> r >= 5 && r as real - 2.5 <= num < r as real + 2.5
  {
    if num == 0.0 then 0
    else if num < 5.0 then 5
    else MathRound(num / 5.0) * 5
  }

  /** From 5 up, `Round5` is the one multiple of five in the half-open window
      [num - 2.5, num + 2.5): it can be computed by any other means that
      finds that multiple. */
  lemma {:induction false} Round5Unique(num: real, m: int)
    requires num >= 5.0 && MultipleOf5(m)
    requires m as real - 2.5 <= num < m as real + 2.5
    ensures Round5(num) == m
  {
    var r := Round5(num);
    var a, b := r / 5, m / 5;
    assert r == 5 * a && m == 5 * b;
    assert -5.0 < (r - m) as real < 5.0;
    assert -1 < a - b < 1;
  }

  /** Multiples of five from 5 up are fixed points. */
  lemma {:induction false} Round5Fixed(k: int)
    requires k >= 1
    ensures Round5((5 * k) as real) == 5 * k
  {
    Round5Unique((5 * k) as real, 5 * k);
  }

  /** Rounding is idempotent. */
  lemma {:induction false} Round5Idempotent(num: real)
    ensures Round5(Round5(num) as real) == Round5(num)
  {
    var r := Round5(num);
    if r != 0 {
      Round5Fixed(r / 5);
    }
  }

  /** Rounding never decreases when the input grows (from 5 up). */
  lemma {:induction false} Round5Monotone(x: real, y: real)
    requires 5.0 <= x <= y
    ensures Round5(x) <= Round5(y)
  {
  }

  /** The values of tests/util/number.spec.ts. */
  lemma Round5Examples()
    ensures Round5(1.0) == 5 && Round5(0.0) == 0 && Round5(3.3) == 5
    ensures Round5(11.1) == 10 && Round5(200.0) == 200 && Round5(201.0) == 200
    ensures Round5(206.0) == 205 && Round5(6.33333333333) == 5 && Round5(7.5) == 10
    ensures Round5(-3.0) == 5
  {
    Round5Unique(11.1, 10);
    Round5Unique(200.0, 200);
    Round5Unique(201.0, 200);
    Round5Unique(206.0, 205);
    Round5Unique(6.33333333333, 5);
    Round5Unique(7.5, 10);
  }
}
