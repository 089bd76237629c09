/** Division facts that the token bucket's floor and ceiling computations need. */
module Arithmetic {

  lemma MulNonNegative(x: int, y: int)
    requires 0 <= x && 0 <= y
    ensures 0 <= x * y
  {
  }

  lemma MulStep(a: int, b: int, c: int)
    requires 0 <= c
    ensures a <= b ==> a * c <= b * c
    ensures a < b ==> a * c + c <= b * c
  {
    if a < b {
      MulNonNegative(b - a - 1, c);
      assert b * c == a * c + c + (b - a - 1) * c;
    }
  }

  /** If `k` intervals fit in the time and `n` are all that do, then `n` steps make at least as much as `k`. */
  lemma StepsCover(k: nat, n: nat, interval: nat, rate: nat, elapsed: int)
    requires k * interval <= elapsed < n * interval + interval
    ensures k <= n && k * rate <= n * rate
  {
    MulStep(n, k, interval);
    MulStep(k, n, rate);
  }

  lemma MultipleUnique(q: int, r: int, d: int)
    requires d > 0 && q * d < r * d + d && r * d < q * d + d
    ensures q == r
  {
    MulStep(q, r, d);
    MulStep(r, q, d);
  }

  lemma DivUnique(x: int, d: int, q: int)
    requires d > 0 && q * d <= x < q * d + d
    ensures x / d == q
  {
    DivBounds(x, d);
    MultipleUnique(x / d, q, d);
  }

  lemma DivShift(x: int, n: int, d: int)
    requires d > 0
    ensures (x + n * d) / d == x / d + n
  {
    var q := x / d;
    assert (q + n) * d == q * d + n * d;
    DivUnique(x + n * d, d, q + n);
  }

  lemma DivMonotone(x: int, y: int, d: int)
    requires d > 0 && x <= y
    ensures x / d <= y / d
  {
    MulStep(y / d, x / d, d);
  }

  lemma DivBounds(x: int, d: int)
    requires d > 0
    ensures (x / d) * d <= x < (x / d) * d + d
    ensures 0 <= x ==> 0 <= x / d
  {
  }

  /** `math.ceil(a / b)` for a non-negative numerator. */
  function CeilDiv(a: nat, b: nat): (q: nat)
    requires b > 0
    ensures q * b >= a
    ensures q > 0 ==> q * b - b < a
  {
    DivBounds(a + b - 1, b);
    (a + b - 1) / b
  }

  function Min(a: int, b: int): int {
    if a <= b then a else b
  }
}
