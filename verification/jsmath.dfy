/** JavaScript's `Math.round` and `parseFloat(x.toFixed(2))` on exact reals. */
module JsMath {

  /** `Math.round(x)`: the nearest integer, halves rounded up, that is floor(x + 1/2). */
  function Round(x: real): (r: int)
    ensures r as real <= x + 0.5 < r as real + 1.0
  {
    (x + 0.5).Floor
  }

  /** The integer `r` is the rounding of `x`. */
  lemma RoundUnique(x: real, r: int)
    requires r as real <= x + 0.5 < r as real + 1.0
    ensures Round(x) == r
  {
  }

  lemma CancelLe(a: real, b: real, c: real)
    requires a * c <= b * c && c > 0.0
    ensures a <= b
  {
  }

  lemma CancelLess(a: real, b: real, c: real)
    requires a * c < b * c && c > 0.0
    ensures a < b
  {
  }

  /** Rounding a quotient of integers is integer division: round(n / d) = (2n + d) div 2d. */
  lemma RoundQuotient(n: int, d: int)
    requires d > 0
    ensures Round(n as real / d as real) == (2 * n + d) / (2 * d)
  {
    var q := (2 * n + d) / (2 * d);
    var r := (2 * n + d) % (2 * d);
    assert 2 * n + d == 2 * d * q + r && 0 <= r < 2 * d;
    var x := n as real / d as real;
    var y := x + 0.5;
    var e := (2 * d) as real;
    assert x * d as real == n as real;
    assert y * e == (2 * n + d) as real;
    assert (q as real) * e == (2 * d * q) as real;
    assert ((q + 1) as real) * e == (2 * d * q + 2 * d) as real;
    assert (2 * d * q) as real <= (2 * n + d) as real < (2 * d * q + 2 * d) as real;
    CancelLe(q as real, y, e);
    CancelLess(y, (q + 1) as real, e);
    RoundUnique(x, q);
  }

  /** Below this magnitude `toFixed` writes digits; from it on it writes `x` itself. */
  const FixedLimit: real := 1000000000000000000000.0

  /** `parseFloat(x.toFixed(2))`: `x` to two decimals, the magnitude rounded half up
      (so halves move away from zero), and `x` unchanged from 10^21 on. */
  function ToFixed2(x: real): real
  {
    if x <= -FixedLimit || FixedLimit <= x then x
    else if x < 0.0 then -(Round(-x * 100.0) as real / 100.0)
    else Round(x * 100.0) as real / 100.0
  }

  /** Writing to two decimals moves a value by at most half a hundredth and keeps its sign. */
  lemma ToFixed2Close(x: real)
    ensures -0.005 <= ToFixed2(x) - x <= 0.005
    ensures (x < 0.0 ==> ToFixed2(x) <= 0.0) && (x >= 0.0 ==> ToFixed2(x) >= 0.0)
  {
  }

  /** A value already written to two decimals is left as it is. */
  lemma {:induction false} ToFixed2Idempotent(x: real)
    ensures ToFixed2(ToFixed2(x)) == ToFixed2(x)
  {
    var r := ToFixed2(x);
    if -FixedLimit < x < FixedLimit {
      var n := if x < 0.0 then Round(-x * 100.0) else Round(x * 100.0);
      assert r == (if x < 0.0 then -(n as real / 100.0) else n as real / 100.0);
      if r < 0.0 {
        assert -r * 100.0 == n as real;
        RoundUnique(-r * 100.0, n);
      } else {
        assert r * 100.0 == (if x < 0.0 then -n else n) as real;
        RoundUnique(r * 100.0, if x < 0.0 then -n else n);
      }
    }
  }
}
