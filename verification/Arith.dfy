/** Integer division facts the page and tile arithmetic rests on. */
module Arith {

  function Min(a: int, b: int): int { if a <= b then a else b }

  function Max(a: int, b: int): int { if a >= b then a else b }

  /** `math.ceil(a / b)`, `triton.cdiv` and the `(a + b - 1) // b` idiom. */
  function CeilDiv(a: int, b: int): int
    requires b > 0
  {
    (a + b - 1) / b
  }

  lemma MulMonotone(a: int, b: int, k: int)
    requires a <= b && 0 <= k
    ensures a * k <= b * k
  {
  }

  lemma Distribute(a: int, b: int, k: int)
    ensures (a + b) * k == a * k + b * k
  {
  }

  lemma MulStrict(a: int, b: int, k: int)
    requires a < b && 0 < k
    ensures a * k + k <= b * k
  {
    MulMonotone(a + 1, b, k);
    assert (a + 1) * k == a * k + k;
  }

  /** `c` units from unit `a` end before unit `b` starts, also when units have `k` parts. */
  lemma SpanBefore(a: int, c: int, b: int, k: int)
    requires a + c <= b && 0 <= k
    ensures a * k + c * k <= b * k
  {
    MulMonotone(a + c, b, k);
    assert (a + c) * k == a * k + c * k;
  }

  /** Quotient and remainder are the only pair with a remainder in range. */
  lemma DivUnique(x: int, k: int, q: int, r: int)
    requires k > 0 && 0 <= r < k && x == q * k + r
    ensures x / k == q && x % k == r
  {
    var q', r' := x / k, x % k;
    assert x == k * q' + r' && k * q' == q' * k;
    if q < q' {
      MulStrict(q, q', k);
    } else if q' < q {
      MulStrict(q', q, k);
    }
  }

  lemma DivBounds(x: int, k: int)
    requires k > 0
    ensures (x / k) * k <= x < (x / k) * k + k
    ensures x == (x / k) * k + x % k
  {
    assert x == k * (x / k) + x % k;
  }

  /** `q = floor(x / k)` exactly when `q * k <= x < (q + 1) * k`. */
  lemma DivIs(x: int, k: int, q: int)
    requires k > 0 && q * k <= x < q * k + k
    ensures x / k == q
  {
    DivUnique(x, k, q, x - q * k);
  }

  lemma DivMonotone(x: int, y: int, k: int)
    requires k > 0 && x <= y
    ensures x / k <= y / k
  {
    DivBounds(x, k);
    DivBounds(y, k);
    if y / k < x / k {
      MulStrict(y / k, x / k, k);
    }
  }

  /** The ceiling is the least `c` with `a <= c * b`. */
  lemma CeilDivBounds(a: int, b: int)
    requires b > 0
    ensures a <= CeilDiv(a, b) * b < a + b
  {
    DivBounds(a + b - 1, b);
  }

  lemma CeilDivLeast(a: int, b: int, c: int)
    requires b > 0
    ensures CeilDiv(a, b) <= c <==> a <= c * b
  {
    CeilDivBounds(a, b);
    if CeilDiv(a, b) <= c {
      MulMonotone(CeilDiv(a, b), c, b);
    } else {
      MulStrict(c, CeilDiv(a, b), b);
    }
  }

  lemma CeilDivIs(a: int, b: int, c: int)
    requires b > 0 && a <= c * b < a + b
    ensures CeilDiv(a, b) == c
  {
    DivIs(a + b - 1, b, c);
  }
}
