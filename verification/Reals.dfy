/** Products and finite sums of reals, kept apart from the proofs that use them. */
module Reals {

  function Times(n: nat, x: real): real { n as real * x }

  lemma OneMore(n: nat, x: real)
    ensures Times(n + 1, x) == Times(n, x) + x
  {
    assert (n + 1) as real == n as real + 1.0;
  }

  lemma TimesAdds(n: nat, x: real, y: real)
    ensures Times(n, x + y) == Times(n, x) + Times(n, y)
  {
  }

  lemma PositiveFactor(n: nat, x: real)
    ensures Times(n, x) > 0.0 ==> x > 0.0
  {
    if x <= 0.0 { ScaleWeak(n as real, x, 0.0); }
  }

  lemma ScaleWeak(n: real, a: real, b: real)
    requires n >= 0.0 && a <= b
    ensures n * a <= n * b
  {
  }

  lemma ScaleStrict(n: real, a: real, b: real)
    requires n > 0.0 && a < b
    ensures n * a < n * b
  {
  }

  function Sum(v: seq<real>, n: nat): real
    requires n <= |v|
  {
    if n == 0 then 0.0 else Sum(v, n - 1) + v[n - 1]
  }

  lemma {:induction false} SumAtLeast(v: seq<real>, n: nat, x: real)
    requires n <= |v| && forall i | 0 <= i < n :: v[i] >= x
    ensures Sum(v, n) >= Times(n, x)
  {
    if n > 0 {
      SumAtLeast(v, n - 1, x);
      OneMore(n - 1, x);
    }
  }

  lemma {:induction false} SumAtMost(v: seq<real>, n: nat, x: real)
    requires n <= |v| && forall i | 0 <= i < n :: v[i] <= x
    ensures Sum(v, n) <= Times(n, x)
  {
    if n > 0 {
      SumAtMost(v, n - 1, x);
      OneMore(n - 1, x);
    }
  }

  lemma {:induction false} SumUpdate(v: seq<real>, n: nat, a: nat, x: real)
    requires n <= |v| && a < |v|
    ensures Sum(v[a := x], n) == Sum(v, n) + (if a < n then x - v[a] else 0.0)
  {
    if n > 0 { SumUpdate(v, n - 1, a, x); }
  }

  // ---- float64 --------------------------------------------------------------------------

  /** How a float sum, product or conversion is rounded; nothing is assumed about it until a theorem needs it. */
  type Rounding = real -> real

  /** Float64 holds every integer up to here. */
  const EXACT: nat := 0x20_0000_0000_0000

  ghost predicate Whole(x: real) { -(EXACT as real) <= x <= EXACT as real && x == x.Floor as real }

  ghost predicate KeepsIntegers(rnd: Rounding) { forall x | Whole(x) :: rnd(x) == x }

  lemma RoundedAlike(rnd: Rounding, x: real)
    requires KeepsIntegers(rnd) && Whole(x)
    ensures rnd(x) == x
  {
  }

  lemma WholeAdds(x: real, y: real)
    requires Whole(x) && Whole(y) && -(EXACT as real) <= x + y <= EXACT as real
    ensures Whole(x + y)
  {
    assert x + y == (x.Floor + y.Floor) as real;
  }

  lemma WholeSubtracts(x: real, y: real)
    requires Whole(x) && Whole(y) && -(EXACT as real) <= x - y <= EXACT as real
    ensures Whole(x - y)
  {
    assert x - y == (x.Floor - y.Floor) as real;
  }
}
