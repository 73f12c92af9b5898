/**
 Smooth weighted round robin: the order in which a decode workload draws rows
 from its strata.  Strata are numbered in name order.
 */
module SmoothWrr {
  import opened Options
  import opened Reals
  import opened Sorting

  // ---- the schedule -----------------------------------------------------------------

  /** The values of the first `n` strata that `a` marks, added up. */
  function SumTo(c: seq<real>, a: seq<bool>, n: nat): real
    requires n <= |c| == |a|
  {
    if n == 0 then 0.0 else SumTo(c, a, n - 1) + (if a[n - 1] then c[n - 1] else 0.0)
  }

  function All(n: nat): seq<bool> { seq(n, _ => true) }

  function Total(w: seq<real>): real { SumTo(w, All(|w|), |w|) }

  /** The first position of the largest value. */
  function MaxIndex(v: seq<real>): (b: nat)
    requires v != []
    ensures b < |v|
    ensures forall i | 0 <= i < |v| :: v[i] <= v[b]
    ensures forall i | 0 <= i < b :: v[i] < v[b]
  {
    if |v| == 1 then 0
    else
      var n := |v| - 1;
      var b := MaxIndex(v[..n]);
      if v[n] > v[b] then n else b
  }

  function Raise(w: seq<real>, c: seq<real>): (v: seq<real>)
    requires |w| == |c|
    ensures |v| == |w|
  {
    seq(|w|, i requires 0 <= i < |w| => c[i] + w[i])
  }

  /** Credits after one row: everybody earns their weight, the winner pays the total. */
  function Next(w: seq<real>, c: seq<real>): (c': seq<real>)
    requires w != [] && |w| == |c|
    ensures |c'| == |w|
  {
    var v := Raise(w, c);
    v[MaxIndex(v) := v[MaxIndex(v)] - Total(w)]
  }

  function Credits(w: seq<real>, t: nat): (c: seq<real>)
    requires w != []
    ensures |c| == |w|
  {
    if t == 0 then seq(|w|, _ => 0.0) else Next(w, Credits(w, t - 1))
  }

  /** The stratum of each of the first `count` rows. */
  function Rows(w: seq<real>, count: nat): (rows: seq<nat>)
    requires w != []
    ensures |rows| == count
  {
    if count == 0 then [] else Rows(w, count - 1) + [MaxIndex(Raise(w, Credits(w, count - 1)))]
  }

  function CountOf(rows: seq<nat>, i: nat): nat {
    if rows == [] then 0
    else CountOf(rows[..|rows| - 1], i) + (if rows[|rows| - 1] == i then 1 else 0)
  }

  /** A stratum's credit is its weighted share of the rows minus the rows it got, in units of the total. */
  lemma {:induction false} CreditIsDeviation(w: seq<real>, t: nat, i: nat)
    requires w != [] && i < |w|
    ensures Credits(w, t)[i] == Times(t, w[i]) - Times(CountOf(Rows(w, t), i), Total(w))
  {
    hide *;
    if t == 0 {
      NoCreditYet(w, i);
    } else {
      CreditIsDeviation(w, t - 1, i);
      CreditStep(w, t, i);
      OneMore(t - 1, w[i]);
      OneMore(CountOf(Rows(w, t - 1), i), Total(w));
    }
  }

  lemma NoCreditYet(w: seq<real>, i: nat)
    requires w != [] && i < |w|
    ensures Credits(w, 0)[i] == Times(0, w[i]) - Times(CountOf(Rows(w, 0), i), Total(w))
  {
  }

  lemma CreditStep(w: seq<real>, t: nat, i: nat)
    requires w != [] && i < |w| && t > 0
    ensures var won := Rows(w, t)[t - 1] == i;
            && Credits(w, t)[i] == Credits(w, t - 1)[i] + w[i] - (if won then Total(w) else 0.0)
            && CountOf(Rows(w, t), i) == CountOf(Rows(w, t - 1), i) + (if won then 1 else 0)
  {
    hide Total;
    assert Rows(w, t)[..t - 1] == Rows(w, t - 1);
  }

  // ---- sums over sets of strata -------------------------------------------------------

  function CountTo(a: seq<bool>, n: nat): nat
    requires n <= |a|
  {
    if n == 0 then 0 else CountTo(a, n - 1) + (if a[n - 1] then 1 else 0)
  }

  lemma {:induction false} AddOne(c: seq<real>, a: seq<bool>, b: nat, n: nat)
    requires n <= |c| == |a| && b < |a| && !a[b]
    ensures SumTo(c, a[b := true], n) == SumTo(c, a, n) + (if b < n then c[b] else 0.0)
    ensures CountTo(a[b := true], n) == CountTo(a, n) + (if b < n then 1 else 0)
    ensures b < n ==> CountTo(a, n) < n
    ensures CountTo(a, n) <= n
  {
    if n > 0 { AddOne(c, a, b, n - 1); }
  }

  lemma {:induction false} SumRaised(w: seq<real>, c: seq<real>, a: seq<bool>, n: nat)
    requires n <= |w| == |c| == |a|
    ensures SumTo(Raise(w, c), a, n) == SumTo(c, a, n) + SumTo(w, a, n)
  {
    if n > 0 { SumRaised(w, c, a, n - 1); }
  }

  lemma {:induction false} SumUpdated(c: seq<real>, a: seq<bool>, b: nat, x: real, n: nat)
    requires n <= |c| == |a| && b < |c|
    ensures SumTo(c[b := x], a, n) == SumTo(c, a, n) + (if b < n && a[b] then x - c[b] else 0.0)
  {
    if n > 0 { SumUpdated(c, a, b, x, n - 1); }
  }

  lemma {:induction false} MarkedAtMost(c: seq<real>, a: seq<bool>, top: real, n: nat)
    requires n <= |c| == |a| && forall i | 0 <= i < |c| :: c[i] <= top
    ensures SumTo(c, a, n) <= Times(CountTo(a, n), top)
  {
    if n > 0 {
      MarkedAtMost(c, a, top, n - 1);
      OneMore(CountTo(a, n - 1), top);
    }
  }

  lemma {:induction false} SumWithin(w: seq<real>, a: seq<bool>, n: nat)
    requires n <= |w| == |a| && forall i | 0 <= i < |w| :: w[i] >= 0.0
    ensures SumTo(w, a, n) <= SumTo(w, All(|w|), n)
  {
    if n > 0 { SumWithin(w, a, n - 1); }
  }

  lemma {:induction false} SumOfZeros(a: seq<bool>, n: nat, k: nat)
    requires n <= k == |a|
    ensures SumTo(seq(k, _ => 0.0), a, n) == 0.0
  {
    if n > 0 { SumOfZeros(a, n - 1, k); }
  }

  /** What one row does to the credit of any set of strata. */
  lemma SumOfNext(w: seq<real>, c: seq<real>, a: seq<bool>)
    requires w != [] && |w| == |c| == |a|
    ensures SumTo(Next(w, c), a, |w|) == SumTo(c, a, |w|) + SumTo(w, a, |w|)
                                         - (if a[MaxIndex(Raise(w, c))] then Total(w) else 0.0)
  {
    hide *;
    NextIsUpdate(w, c);
    var v := Raise(w, c);
    var m := MaxIndex(v);
    assert Next(w, c) == v[m := v[m] - Total(w)];
    SumRaised(w, c, a, |w|);
    SumUpdated(v, a, m, v[m] - Total(w), |w|);
  }

  lemma NextIsUpdate(w: seq<real>, c: seq<real>)
    requires w != [] && |w| == |c|
    ensures var v := Raise(w, c); |v| == |w| && Next(w, c) == v[MaxIndex(v) := v[MaxIndex(v)] - Total(w)]
  {
    hide Total;
  }

  // ---- harmonic bound --------------------------------------------------------------------

  /** The n-th harmonic number. */
  function H(n: nat): real {
    if n == 0 then 0.0 else H(n - 1) + 1.0 / n as real
  }

  lemma {:induction false} HGrows(n: nat, m: nat)
    requires n <= m
    ensures H(n) <= H(m)
    decreases m
  {
    if n < m { HGrows(n, m - 1); }
  }

  /** What any `j` strata together may be owed. */
  function Owed(k: nat, j: nat, total: real): real {
    j as real * (H(k) - H(j)) * total
  }

  ghost predicate Weights(w: seq<real>) {
    w != [] && Total(w) > 0.0 && forall i | 0 <= i < |w| :: w[i] >= 0.0
  }

  /** Every set of strata together is owed at most what its size allows. */
  ghost predicate OwedAtMost(w: seq<real>, c: seq<real>) {
    && |c| == |w|
    && forall a: seq<bool> | |a| == |w| :: SumTo(c, a, |w|) <= Owed(|w|, CountTo(a, |w|), Total(w))
  }

  lemma OwedStep(j: nat, k: nat, s: real, total: real)
    requires j < k && Times(j + 1, s) <= Times(j, Owed(k, j + 1, total) + total)
    ensures s <= Owed(k, j, total)
  {
    var r, n := j as real, (j + 1) as real;
    var g, x := H(k) - H(j + 1), 1.0 / n;
    assert n * x == 1.0;
    assert H(j + 1) == H(j) + x;
    assert Owed(k, j, total) == r * (g + x) * total;
    assert Owed(k, j + 1, total) == n * g * total;
    Scale(r, n, g, x, total);
    assert n * Owed(k, j, total) == r * (Owed(k, j + 1, total) + total);
    if s > Owed(k, j, total) { ScaleStrict(n, Owed(k, j, total), s); }
  }

  lemma Scale(r: real, n: real, g: real, x: real, total: real)
    requires n * x == 1.0
    ensures n * (r * (g + x) * total) == r * (n * g * total + total)
  {
    calc {
      n * (r * (g + x) * total);
      r * (n * (g + x)) * total;
      { assert n * (g + x) == n * g + n * x; }
      r * (n * g + 1.0) * total;
      r * ((n * g + 1.0) * total);
      { assert (n * g + 1.0) * total == n * g * total + total; }
      r * (n * g * total + total);
    }
  }

  /**
   A set without the winner, with the winner added, is one larger; the winner
   holds at least the average, so the smaller set holds at most its share.
   */
  lemma ShareOfLarger(j: nat, s: real, top: real, larger: real)
    requires s <= Times(j, top) && s + top <= larger
    ensures Times(j + 1, s) <= Times(j, larger)
  {
    OneMore(j, s);
    ScaleWeak(j as real, s + top, larger);
  }

  lemma WithWinner(w: seq<real>, c: seq<real>, a: seq<bool>, b: nat)
    requires Weights(w) && OwedAtMost(w, c) && |a| == |w| && b < |w| && !a[b]
    ensures CountTo(a, |w|) < |w|
    ensures SumTo(Raise(w, c), a, |w|) + Raise(w, c)[b] <= Owed(|w|, CountTo(a, |w|) + 1, Total(w)) + Total(w)
  {
    hide Owed;
    var more := a[b := true];
    AddOne(Raise(w, c), a, b, |w|);
    SumRaised(w, c, more, |w|);
    SumWithin(w, more, |w|);
  }

  lemma OwedWithoutWinner(w: seq<real>, c: seq<real>, a: seq<bool>)
    requires Weights(w) && OwedAtMost(w, c) && |a| == |w| && !a[MaxIndex(Raise(w, c))]
    ensures SumTo(Raise(w, c), a, |w|) <= Owed(|w|, CountTo(a, |w|), Total(w))
  {
    hide Times, Owed, SumTo, CountTo, Total;
    var v, k, j := Raise(w, c), |w|, CountTo(a, |w|);
    var s, top := SumTo(v, a, k), v[MaxIndex(v)];
    WithWinner(w, c, a, MaxIndex(v));
    MarkedAtMost(v, a, top, k);
    ShareOfLarger(j, s, top, Owed(k, j + 1, Total(w)) + Total(w));
    OwedStep(j, k, s, Total(w));
  }

  lemma OwedKept(w: seq<real>, c: seq<real>, a: seq<bool>)
    requires Weights(w) && OwedAtMost(w, c) && |a| == |w|
    ensures SumTo(Next(w, c), a, |w|) <= Owed(|w|, CountTo(a, |w|), Total(w))
  {
    hide Owed;
    SumOfNext(w, c, a);
    if a[MaxIndex(Raise(w, c))] {
      SumWithin(w, a, |w|);
    } else {
      OwedWithoutWinner(w, c, a);
      SumRaised(w, c, a, |w|);
    }
  }

  lemma {:induction false} EveryRunOwes(w: seq<real>, t: nat)
    requires Weights(w)
    ensures OwedAtMost(w, Credits(w, t))
  {
    if t == 0 {
      forall a: seq<bool> | |a| == |w|
        ensures SumTo(Credits(w, 0), a, |w|) <= Owed(|w|, CountTo(a, |w|), Total(w))
      {
        SumOfZeros(a, |w|, |w|);
        CountAtMost(a, |w|);
        OwedIsNonnegative(|w|, CountTo(a, |w|), Total(w));
      }
    } else {
      EveryRunOwes(w, t - 1);
      forall a: seq<bool> | |a| == |w|
        ensures SumTo(Credits(w, t), a, |w|) <= Owed(|w|, CountTo(a, |w|), Total(w))
      {
        OwedKept(w, Credits(w, t - 1), a);
      }
    }
  }

  lemma {:induction false} CountAtMost(a: seq<bool>, n: nat)
    requires n <= |a|
    ensures CountTo(a, n) <= n
  {
    if n > 0 { CountAtMost(a, n - 1); }
  }

  lemma OwedIsNonnegative(k: nat, j: nat, total: real)
    requires j <= k && total >= 0.0
    ensures Owed(k, j, total) >= 0.0
  {
    HGrows(j, k);
    ScaleWeak(j as real, 0.0, H(k) - H(j));
    ScaleWeak(j as real * (H(k) - H(j)), 0.0, total);
  }

  // ---- how far a stratum strays from its share ------------------------------------------

  /** A stratum's weighted share of the first `t` rows less the rows it got, times the total weight. */
  function Deviation(w: seq<real>, t: nat, i: nat): real
    requires w != [] && i < |w|
  {
    Times(t, w[i]) - Times(CountOf(Rows(w, t), i), Total(w))
  }

  ghost predicate WithinOneRow(w: seq<real>, t: nat)
    requires w != []
  {
    forall i: nat | i < |w| :: -Total(w) <= Deviation(w, t, i) <= Total(w)
  }

  lemma {:induction false} CreditsBalance(w: seq<real>, t: nat)
    requires w != []
    ensures SumTo(Credits(w, t), All(|w|), |w|) == 0.0
  {
    if t == 0 {
      SumOfZeros(All(|w|), |w|, |w|);
    } else {
      CreditsBalance(w, t - 1);
      SumOfNext(w, Credits(w, t - 1), All(|w|));
    }
  }

  /** The winner of a row holds positive credit before paying. */
  lemma WinnerIsPositive(w: seq<real>, t: nat)
    requires Weights(w)
    ensures var v := Raise(w, Credits(w, t)); v[MaxIndex(v)] > 0.0
  {
    var c := Credits(w, t);
    var v := Raise(w, c);
    var top := v[MaxIndex(v)];
    assert SumTo(v, All(|w|), |w|) > 0.0 by {
      CreditsBalance(w, t);
      SumRaised(w, c, All(|w|), |w|);
    }
    MarkedAtMost(v, All(|w|), top, |w|);
    PositiveFactor(CountTo(All(|w|), |w|), top);
  }

  lemma {:induction false} CreditAboveMinusTotal(w: seq<real>, t: nat, i: nat)
    requires Weights(w) && i < |w|
    ensures Credits(w, t)[i] > -Total(w)
  {
    if t > 0 {
      CreditAboveMinusTotal(w, t - 1, i);
      WinnerIsPositive(w, t - 1);
    }
  }

  lemma {:induction false} OnlyOne(c: seq<real>, i: nat, n: nat, a: seq<bool>)
    requires n <= |c| == |a| && i < |c| && a == seq(|c|, j => j == i)
    ensures SumTo(c, a, n) == if i < n then c[i] else 0.0
    ensures CountTo(a, n) == if i < n then 1 else 0
  {
    if n > 0 { OnlyOne(c, i, n - 1, a); }
  }

  lemma CreditBelowHarmonic(w: seq<real>, t: nat, i: nat)
    requires Weights(w) && i < |w|
    ensures Credits(w, t)[i] <= Owed(|w|, 1, Total(w))
  {
    hide Owed, Credits;
    var a := seq(|w|, j => j == i);
    EveryRunOwes(w, t);
    OnlyOne(Credits(w, t), i, |w|, a);
    assert SumTo(Credits(w, t), a, |w|) <= Owed(|w|, 1, Total(w));
  }

  /**
   Every prefix holds each stratum less than one row ahead of its share, and
   behind it by at most the harmonic number of the stratum count less one.
   */
  lemma StaysNearShare(w: seq<real>, t: nat, i: nat)
    requires Weights(w) && i < |w|
    ensures -Total(w) < Deviation(w, t, i) <= (H(|w|) - 1.0) * Total(w)
  {
    hide Times, Total, Rows, Credits, SumTo, CountOf;
    CreditIsDeviation(w, t, i);
    CreditAboveMinusTotal(w, t, i);
    CreditBelowHarmonic(w, t, i);
    assert H(1) == 1.0;
  }

  lemma FewStrata(w: seq<real>, t: nat)
    requires Weights(w) && |w| <= 3
    ensures WithinOneRow(w, t)
  {
    forall i: nat | i < |w|
      ensures -Total(w) <= Deviation(w, t, i) <= Total(w)
    {
      StaysNearShare(w, t, i);
      HGrows(|w|, 3);
      assert H(3) == 1.0 + 1.0 / 2.0 + 1.0 / 3.0;
      ScaleWeak(Total(w), H(|w|) - 1.0, 1.0);
    }
  }

  // ---- four strata are enough to be more than one row behind --------------------------------

  function Padded(head: seq<real>, zeros: nat): seq<real> { head + seq(zeros, _ => 0.0) }

  const LOPSIDED: seq<real> := [1.0, 5.0, 37.0, 37.0]

  lemma {:induction false} TotalOfLopsided(zeros: nat, n: nat)
    requires n <= zeros
    ensures SumTo(Padded(LOPSIDED, zeros), All(4 + zeros), 4 + n) == 80.0
  {
    if n == 0 {
      var w, all := Padded(LOPSIDED, zeros), All(4 + zeros);
      assert SumTo(w, all, 1) == 1.0;
      assert SumTo(w, all, 2) == 6.0;
      assert SumTo(w, all, 3) == 43.0;
    } else {
      TotalOfLopsided(zeros, n - 1);
    }
  }

  lemma FirstMost(v: seq<real>, p: nat)
    requires p < |v| && (forall i | 0 <= i < |v| :: v[i] <= v[p] && (i < p ==> v[i] < v[p]))
    ensures MaxIndex(v) == p
  {
    var b := MaxIndex(v);
    assert v[b] <= v[p] && v[p] <= v[b];
  }

  lemma PaddedStep(c: seq<real>, p: nat, zeros: nat) returns (next: seq<real>)
    requires |c| == 4 && p < 4
    requires var v := [c[0] + 1.0, c[1] + 5.0, c[2] + 37.0, c[3] + 37.0];
             v[p] >= 0.0 && forall i | 0 <= i < 4 :: v[i] <= v[p] && (i < p ==> v[i] < v[p])
    ensures var v := [c[0] + 1.0, c[1] + 5.0, c[2] + 37.0, c[3] + 37.0];
            next == v[p := v[p] - 80.0]
    ensures Next(Padded(LOPSIDED, zeros), Padded(c, zeros)) == Padded(next, zeros)
  {
    var v := [c[0] + 1.0, c[1] + 5.0, c[2] + 37.0, c[3] + 37.0];
    next := v[p := v[p] - 80.0];
    var full := Raise(Padded(LOPSIDED, zeros), Padded(c, zeros));
    assert full == Padded(v, zeros);
    forall i | 0 <= i < 4 + zeros ensures full[i] <= full[p] && (i < p ==> full[i] < full[p]) {
      assert full[i] == if i < 4 then v[i] else 0.0;
    }
    FirstMost(full, p);
    TotalOfLopsided(zeros, zeros);
  }

  /** The four weights hold these credits after `t` rows, and the weightless strata none. */
  ghost predicate At(zeros: nat, t: nat, a: real, b: real, c: real, d: real) {
    Credits(Padded(LOPSIDED, zeros), t) == Padded([a, b, c, d], zeros)
  }

  /** One row, when stratum `p` is the first to hold the most. */
  lemma LopsidedRow(zeros: nat, t: nat, a: real, b: real, c: real, d: real, p: nat)
    requires At(zeros, t, a, b, c, d) && p < 4
    requires var v := [a + 1.0, b + 5.0, c + 37.0, d + 37.0];
             v[p] >= 0.0 && forall i | 0 <= i < 4 :: v[i] <= v[p] && (i < p ==> v[i] < v[p])
    ensures At(zeros, t + 1, a + (if p == 0 then -79.0 else 1.0), b + (if p == 1 then -75.0 else 5.0),
               c + (if p == 2 then -43.0 else 37.0), d + (if p == 3 then -43.0 else 37.0))
  {
    var next := PaddedStep([a, b, c, d], p, zeros);
    assert next == [a + (if p == 0 then -79.0 else 1.0), b + (if p == 1 then -75.0 else 5.0),
                    c + (if p == 2 then -43.0 else 37.0), d + (if p == 3 then -43.0 else 37.0)];
  }

  /** A row for the third stratum and one for the fourth. */
  lemma LopsidedPair(zeros: nat, t: nat, a: real, b: real, c: real, d: real)
    requires At(zeros, t, a, b, c, d) && c == d && c + 37.0 > a + 2.0 && c + 37.0 > b + 10.0 && c >= -37.0
    ensures At(zeros, t + 2, a + 2.0, b + 10.0, c - 6.0, d - 6.0)
  {
    hide *;
    LopsidedRow(zeros, t, a, b, c, d, 2);
    LopsidedRow(zeros, t + 1, a + 1.0, b + 5.0, c - 43.0, d + 37.0, 3);
  }

  /** After 26 rows the last of the four strata is 82/80 of a row behind its share. */
  lemma LopsidedRun(zeros: nat)
    ensures Credits(Padded(LOPSIDED, zeros), 26)[3] == 82.0
  {
    hide *;
    Unspent(zeros);
    LopsidedPair(zeros, 0, 0.0, 0.0, 0.0, 0.0);
    LopsidedPair(zeros, 2, 2.0, 10.0, -6.0, -6.0);
    LopsidedRow(zeros, 4, 4.0, 20.0, -12.0, -12.0, 1);
    LopsidedPair(zeros, 5, 5.0, -55.0, 25.0, 25.0);
    LopsidedPair(zeros, 7, 7.0, -45.0, 19.0, 19.0);
    LopsidedPair(zeros, 9, 9.0, -35.0, 13.0, 13.0);
    LopsidedPair(zeros, 11, 11.0, -25.0, 7.0, 7.0);
    LopsidedPair(zeros, 13, 13.0, -15.0, 1.0, 1.0);
    LopsidedPair(zeros, 15, 15.0, -5.0, -5.0, -5.0);
    LopsidedPair(zeros, 17, 17.0, 5.0, -11.0, -11.0);
    LopsidedRow(zeros, 19, 19.0, 15.0, -17.0, -17.0, 0);
    LopsidedPair(zeros, 20, -60.0, 20.0, 20.0, 20.0);
    LopsidedPair(zeros, 22, -58.0, 30.0, 14.0, 14.0);
    LopsidedRow(zeros, 24, -56.0, 40.0, 8.0, 8.0, 1);
    LopsidedRow(zeros, 25, -55.0, -35.0, 45.0, 45.0, 2);
    LastOfFour(zeros, 26, -54.0, -30.0, 2.0, 82.0);
  }

  lemma Unspent(zeros: nat)
    ensures At(zeros, 0, 0.0, 0.0, 0.0, 0.0)
  {
  }

  lemma LastOfFour(zeros: nat, t: nat, a: real, b: real, c: real, d: real)
    requires At(zeros, t, a, b, c, d)
    ensures Credits(Padded(LOPSIDED, zeros), t)[3] == d
  {
  }

  /** The build keeps every prefix within one row, for all weights, exactly up to three strata. */
  lemma WithinOneRowIff(k: nat)
    requires k > 0
    ensures (forall w: seq<real>, t: nat | |w| == k && Weights(w) :: WithinOneRow(w, t)) <==> k <= 3
  {
    if k <= 3 {
      forall w: seq<real>, t: nat | |w| == k && Weights(w) ensures WithinOneRow(w, t) {
        FewStrata(w, t);
      }
    } else {
      LopsidedStrays(k);
    }
  }

  lemma LopsidedStrays(k: nat)
    requires k >= 4
    ensures var w := Padded(LOPSIDED, k - 4); |w| == k && Weights(w) && !WithinOneRow(w, 26)
  {
    hide SumTo, Times, Credits, Rows, CountOf;
    var w := Padded(LOPSIDED, k - 4);
    TotalOfLopsided(k - 4, k - 4);
    LopsidedRun(k - 4);
    CreditIsDeviation(w, 26, 3);
    assert Deviation(w, 26, 3) > Total(w);
  }

  // ---- the schedule in floats -----------------------------------------------------------------

  function FloatSum(w: seq<real>, n: nat, rnd: Rounding): real
    requires n <= |w|
  {
    if n == 0 then 0.0 else rnd(FloatSum(w, n - 1, rnd) + w[n - 1])
  }

  function FloatRaise(w: seq<real>, c: seq<real>, rnd: Rounding): (v: seq<real>)
    requires |w| == |c|
    ensures |v| == |w| && forall i | 0 <= i < |v| :: v[i] == rnd(c[i] + w[i])
  {
    seq(|w|, i requires 0 <= i < |w| => rnd(c[i] + w[i]))
  }

  function FloatNext(w: seq<real>, total: real, c: seq<real>, rnd: Rounding): (c': seq<real>)
    requires w != [] && |w| == |c|
    ensures |c'| == |w|
  {
    var v := FloatRaise(w, c, rnd);
    v[MaxIndex(v) := rnd(v[MaxIndex(v)] - total)]
  }

  function FloatCredits(w: seq<real>, total: real, t: nat, rnd: Rounding): (c: seq<real>)
    requires w != []
    ensures |c| == |w|
  {
    if t == 0 then seq(|w|, _ => 0.0) else FloatNext(w, total, FloatCredits(w, total, t - 1, rnd), rnd)
  }

  function FloatWinner(w: seq<real>, c: seq<real>, rnd: Rounding): nat
    requires w != [] && |w| == |c|
  {
    MaxIndex(FloatRaise(w, c, rnd))
  }

  /** The rows as the source draws them. */
  function FloatRows(w: seq<real>, total: real, count: nat, rnd: Rounding): (rows: seq<nat>)
    requires w != []
    ensures |rows| == count
  {
    if count == 0 then []
    else FloatRows(w, total, count - 1, rnd) + [FloatWinner(w, FloatCredits(w, total, count - 1, rnd), rnd)]
  }

  /** A shorter build is a prefix of a longer one, however floats round. */
  lemma {:induction false} ShorterIsPrefix(w: seq<real>, total: real, n: nat, m: nat, rnd: Rounding)
    requires w != [] && n <= m
    ensures FloatRows(w, total, n, rnd) <= FloatRows(w, total, m, rnd)
    decreases m
  {
    if n < m { ShorterIsPrefix(w, total, n, m - 1, rnd); }
  }

  // ---- whole weights are scheduled exactly ------------------------------------------------------

  ghost predicate AllWhole(v: seq<real>) { forall i | 0 <= i < |v| :: Whole(v[i]) }

  /** Whole weights whose total, once per stratum, stays within the integers a float64 holds. */
  ghost predicate WholeWeights(w: seq<real>) {
    Weights(w) && AllWhole(w) && Times(|w|, Total(w)) <= EXACT as real
  }

  lemma {:induction false} HAtMost(n: nat)
    ensures n > 0 ==> 1.0 <= H(n) <= n as real
  {
    if n > 1 {
      HAtMost(n - 1);
      assert 1.0 / n as real <= 1.0;
    }
  }

  /** A credit and the weight it earns stay within one total per stratum. */
  lemma CreditBounds(w: seq<real>, t: nat, i: nat)
    requires Weights(w) && i < |w|
    ensures -Total(w) < Credits(w, t)[i] <= Times(|w|, Total(w)) - Total(w)
  {
    hide Total, Credits, SumTo, Times;
    CreditAboveMinusTotal(w, t, i);
    CreditBelowHarmonic(w, t, i);
    HAtMost(|w|);
    OwedOfOne(|w|, Total(w));
  }

  lemma OwedOfOne(k: nat, total: real)
    requires k > 0 && total > 0.0 && H(k) <= k as real
    ensures Owed(k, 1, total) <= Times(k, total) - total
  {
    assert H(1) == 1.0;
    ScaleWeak(total, H(k) - 1.0, k as real - 1.0);
    hide H;
    assert total * (k as real - 1.0) == k as real * total - total;
  }

  lemma OneIsWithin(w: seq<real>, i: nat)
    requires Weights(w) && i < |w|
    ensures w[i] <= Total(w) <= Times(|w|, Total(w))
  {
    var a := seq(|w|, j => j == i);
    OnlyOne(w, i, |w|, a);
    SumWithin(w, a, |w|);
    hide Total, SumTo;
    ScaleWeak(Total(w), 1.0, |w| as real);
  }

  lemma {:induction false} TotalParts(w: seq<real>, n: nat)
    requires Weights(w) && n <= |w|
    ensures 0.0 <= SumTo(w, All(|w|), n) <= Total(w)
    decreases |w| - n
  {
    PartIsPositive(w, n);
    if n < |w| { TotalParts(w, n + 1); }
  }

  lemma {:induction false} PartIsPositive(w: seq<real>, n: nat)
    requires Weights(w) && n <= |w|
    ensures 0.0 <= SumTo(w, All(|w|), n)
  {
    if n > 0 { PartIsPositive(w, n - 1); }
  }

  lemma {:induction false} PartIsWhole(w: seq<real>, n: nat)
    requires WholeWeights(w) && n <= |w|
    ensures Whole(SumTo(w, All(|w|), n))
  {
    if n > 0 {
      PartIsWhole(w, n - 1);
      TotalParts(w, n - 1);
      TotalParts(w, n);
      OneIsWithin(w, 0);
      WholeAdds(SumTo(w, All(|w|), n - 1), w[n - 1]);
    }
  }

  /** One row on whole credits within their bounds: nothing is rounded. */
  lemma ExactRow(w: seq<real>, t: nat, rnd: Rounding)
    requires WholeWeights(w) && KeepsIntegers(rnd) && AllWhole(Credits(w, t))
    ensures FloatRaise(w, Credits(w, t), rnd) == Raise(w, Credits(w, t))
    ensures FloatNext(w, Total(w), Credits(w, t), rnd) == Credits(w, t + 1)
    ensures AllWhole(Credits(w, t + 1))
  {
    hide Total, Credits, SumTo, Times, Whole, KeepsIntegers, MaxIndex;
    var c := Credits(w, t);
    var v := Raise(w, c);
    forall i | 0 <= i < |w| ensures Whole(v[i]) && rnd(v[i]) == v[i] { EarnIsWhole(w, t, i, rnd); }
    assert FloatRaise(w, c, rnd) == v;
    var m := MaxIndex(v);
    PayIsWhole(w, t, rnd);
    CreditsStep(w, t);
  }

  lemma CreditsStep(w: seq<real>, t: nat)
    requires w != []
    ensures var v := Raise(w, Credits(w, t)); Credits(w, t + 1) == v[MaxIndex(v) := v[MaxIndex(v)] - Total(w)]
  {
    hide Total, MaxIndex, Raise;
  }

  lemma EarnIsWhole(w: seq<real>, t: nat, i: nat, rnd: Rounding)
    requires WholeWeights(w) && KeepsIntegers(rnd) && i < |w| && Whole(Credits(w, t)[i])
    ensures Whole(Raise(w, Credits(w, t))[i]) && rnd(Raise(w, Credits(w, t))[i]) == Raise(w, Credits(w, t))[i]
  {
    CreditBounds(w, t, i);
    OneIsWithin(w, i);
    assert w[i] >= 0.0 && Whole(w[i]);
    var x := Credits(w, t)[i];
    hide Total, Credits, SumTo, Times;
    WholeAdds(x, w[i]);
    RoundedAlike(rnd, x + w[i]);
  }

  lemma PayIsWhole(w: seq<real>, t: nat, rnd: Rounding)
    requires WholeWeights(w) && KeepsIntegers(rnd) && AllWhole(Raise(w, Credits(w, t)))
    ensures var v := Raise(w, Credits(w, t)); var paid := v[MaxIndex(v)] - Total(w);
            Whole(paid) && rnd(paid) == paid
  {
    var v := Raise(w, Credits(w, t));
    var m := MaxIndex(v);
    WinnerIsPositive(w, t);
    CreditBounds(w, t, m);
    OneIsWithin(w, m);
    PartIsWhole(w, |w|);
    hide Credits, SumTo, Times, MaxIndex;
    WholeSubtracts(v[m], Total(w));
    RoundedAlike(rnd, v[m] - Total(w));
  }

  lemma {:induction false} ExactCredits(w: seq<real>, t: nat, rnd: Rounding)
    requires WholeWeights(w) && KeepsIntegers(rnd)
    ensures FloatCredits(w, Total(w), t, rnd) == Credits(w, t)
    ensures AllWhole(Credits(w, t))
  {
    hide FloatNext, Next, Total, WholeWeights, KeepsIntegers, Times;
    if t == 0 {
      assert Whole(0.0);
    } else {
      ExactCredits(w, t - 1, rnd);
      ExactRow(w, t - 1, rnd);
    }
  }

  /** The weights may be added up in any order. */
  lemma {:induction false} SumOfPermutation(xs: seq<real>, ys: seq<real>)
    requires multiset(xs) == multiset(ys)
    ensures |xs| == |ys| && Sum(xs, |xs|) == Sum(ys, |ys|)
    decreases |xs|
  {
    assert |xs| == |multiset(xs)| == |multiset(ys)| == |ys|;
    if xs != [] {
      var n := |xs| - 1;
      assert xs[n] in multiset(ys);
      var k: nat :| k < |ys| && ys[k] == xs[n];
      RemoveOne(xs, n);
      RemoveOne(ys, k);
      assert xs[..n] + xs[n + 1..] == xs[..n];
      SumOfPermutation(xs[..n], ys[..k] + ys[k + 1..]);
      SumWithoutOne(ys, k, |ys|);
      SumOfFront(xs, xs[..n], n);
    }
  }

  lemma {:induction false} SumOfFront(xs: seq<real>, front: seq<real>, n: nat)
    requires n <= |front| && front <= xs
    ensures Sum(xs, n) == Sum(front, n)
  {
    if n > 0 { SumOfFront(xs, front, n - 1); }
  }

  lemma {:induction false} SumWithoutOne(ys: seq<real>, k: nat, n: nat)
    requires k < n <= |ys|
    ensures Sum(ys, n) == ys[k] + Sum(ys[..k] + ys[k + 1..], n - 1)
  {
    var rest := ys[..k] + ys[k + 1..];
    if n == k + 1 {
      SumOfFront(ys, ys[..k], k);
      SumOfFront(rest, ys[..k], k);
    } else {
      SumWithoutOne(ys, k, n - 1);
      assert rest[n - 2] == ys[n - 1];
    }
  }

  lemma {:induction false} TotalIsSum(w: seq<real>, n: nat)
    requires n <= |w|
    ensures SumTo(w, All(|w|), n) == Sum(w, n)
  {
    if n > 0 { TotalIsSum(w, n - 1); }
  }

  lemma {:induction false} ExactSum(listed: seq<real>, n: nat, rnd: Rounding)
    requires n <= |listed| && KeepsIntegers(rnd) && (forall i | 0 <= i < |listed| :: Whole(listed[i]) && listed[i] >= 0.0)
    requires Sum(listed, |listed|) <= EXACT as real
    ensures FloatSum(listed, n, rnd) == Sum(listed, n) && Whole(Sum(listed, n)) && Sum(listed, n) >= 0.0
  {
    if n > 0 {
      ExactSum(listed, n - 1, rnd);
      SumGrows(listed, n, |listed|);
      WholeAdds(Sum(listed, n - 1), listed[n - 1]);
      RoundedAlike(rnd, Sum(listed, n - 1) + listed[n - 1]);
    } else {
      assert Whole(0.0);
    }
  }

  lemma {:induction false} SumGrows(v: seq<real>, n: nat, m: nat)
    requires n <= m <= |v| && forall i | 0 <= i < |v| :: v[i] >= 0.0
    ensures Sum(v, n) <= Sum(v, m)
    decreases m
  {
    if n < m { SumGrows(v, n, m - 1); }
  }

  lemma ListedTotal(w: seq<real>, listed: seq<real>, rnd: Rounding)
    requires WholeWeights(w) && KeepsIntegers(rnd) && multiset(listed) == multiset(w)
    ensures FloatSum(listed, |listed|, rnd) == Total(w)
  {
    SumOfPermutation(listed, w);
    TotalIsSum(w, |w|);
    OneIsWithin(w, 0);
    hide SumTo, Sum, Times;
    forall i | 0 <= i < |listed| ensures Whole(listed[i]) && listed[i] >= 0.0 {
      assert listed[i] in multiset(w);
      var j: nat :| j < |w| && w[j] == listed[i];
    }
    ExactSum(listed, |listed|, rnd);
  }

  /**
   With whole weights of moderate size the floats of the source never round:
   the rows drawn are exactly those of the exact schedule, so every bound on it
   holds of them, and so does every run that strays from its shares.
   */
  lemma {:induction false} WholeWeightsAreExact(w: seq<real>, listed: seq<real>, count: nat, rnd: Rounding)
    requires WholeWeights(w) && KeepsIntegers(rnd) && multiset(listed) == multiset(w)
    ensures FloatRows(w, FloatSum(listed, |listed|, rnd), count, rnd) == Rows(w, count)
    decreases count
  {
    ListedTotal(w, listed, rnd);
    if count > 0 {
      WholeWeightsAreExact(w, listed, count - 1, rnd);
      ExactCredits(w, count - 1, rnd);
      ExactRow(w, count - 1, rnd);
      hide Credits, FloatCredits, Total, FloatSum;
    }
  }

  /** So the run that strays by more than a row is one the source's floats make. */
  lemma FloatsStray(rnd: Rounding)
    requires KeepsIntegers(rnd)
    ensures FloatRows(LOPSIDED, FloatSum(LOPSIDED, 4, rnd), 26, rnd) == Rows(LOPSIDED, 26)
    ensures !WithinOneRow(LOPSIDED, 26)
  {
    hide SumTo, FloatRows, Rows, FloatSum, WithinOneRow, Credits, WholeWeights, KeepsIntegers;
    assert Padded(LOPSIDED, 0) == LOPSIDED;
    LopsidedStrays(4);
    LopsidedIsWhole();
    WholeWeightsAreExact(LOPSIDED, LOPSIDED, 26, rnd);
  }

  lemma LopsidedIsWhole()
    ensures WholeWeights(LOPSIDED)
  {
    hide SumTo, WithinOneRow;
    assert Padded(LOPSIDED, 0) == LOPSIDED;
    TotalOfLopsided(0, 0);
    FourAreWhole();
  }

  lemma FourAreWhole()
    ensures AllWhole(LOPSIDED) && Times(4, 80.0) == 320.0
  {
    assert Whole(1.0) && Whole(5.0) && Whole(37.0);
  }

  // ---- the build -----------------------------------------------------------------------------

  /** `weights` in name order; `listed` are the same weights in dictionary order. */
  method SmoothOrder(weights: seq<real>, listed: seq<real>, count: nat, rnd: Rounding) returns (order: Option<seq<nat>>)
    ensures order.None? <==> weights == [] && count > 0
    ensures weights != [] ==> order == Some(FloatRows(weights, FloatSum(listed, |listed|, rnd), count, rnd))
    ensures weights == [] && count == 0 ==> order == Some([])
  {
    var total := AddUp(listed, rnd);
    if weights == [] {
      return if count == 0 then Some([]) else None;
    }
    var rows := DrawRows(weights, total, count, rnd);
    order := Some(rows);
  }

  method DrawRows(weights: seq<real>, total: real, count: nat, rnd: Rounding) returns (rows: seq<nat>)
    requires weights != []
    ensures rows == FloatRows(weights, total, count, rnd)
  {
    var current := seq(|weights|, _ => 0.0);
    rows := [];
    NoFloatsYet(weights, total, rnd);
    hide FloatCredits, FloatRows, FloatWinner, FloatNext;
    for row := 0 to count
      invariant current == FloatCredits(weights, total, row, rnd) && rows == FloatRows(weights, total, row, rnd)
    {
      FloatStep(weights, total, row, rnd);
      var best;
      current, best := DrawRow(weights, total, current, rnd);
      rows := rows + [best];
    }
  }

  method DrawRow(weights: seq<real>, total: real, credits: seq<real>, rnd: Rounding)
    returns (current: seq<real>, best: nat)
    requires weights != [] && |weights| == |credits|
    ensures current == FloatNext(weights, total, credits, rnd) && best == FloatWinner(weights, credits, rnd)
  {
    hide MaxIndex;
    current := EarnAll(weights, credits, rnd);
    best := PickMost(current);
    current := current[best := rnd(current[best] - total)];
  }

  lemma NoFloatsYet(w: seq<real>, total: real, rnd: Rounding)
    requires w != []
    ensures FloatCredits(w, total, 0, rnd) == seq(|w|, _ => 0.0) && FloatRows(w, total, 0, rnd) == []
  {
  }

  lemma FloatStep(w: seq<real>, total: real, t: nat, rnd: Rounding)
    requires w != []
    ensures var c := FloatCredits(w, total, t, rnd);
            && FloatCredits(w, total, t + 1, rnd) == FloatNext(w, total, c, rnd)
            && FloatRows(w, total, t + 1, rnd) == FloatRows(w, total, t, rnd) + [FloatWinner(w, c, rnd)]
  {
    hide FloatWinner, FloatNext;
  }

  method AddUp(weights: seq<real>, rnd: Rounding) returns (total: real)
    ensures total == FloatSum(weights, |weights|, rnd)
  {
    total := 0.0;
    for i := 0 to |weights|
      invariant total == FloatSum(weights, i, rnd)
    {
      total := rnd(total + weights[i]);
    }
  }

  method EarnAll(weights: seq<real>, credits: seq<real>, rnd: Rounding) returns (raised: seq<real>)
    requires |weights| == |credits|
    ensures raised == FloatRaise(weights, credits, rnd)
  {
    raised := credits;
    for i := 0 to |weights|
      invariant |raised| == |weights|
      invariant forall j | 0 <= j < |weights| :: raised[j] == if j < i then rnd(credits[j] + weights[j]) else credits[j]
    {
      raised := raised[i := rnd(raised[i] + weights[i])];
    }
  }

  method PickMost(v: seq<real>) returns (best: nat)
    requires v != []
    ensures best == MaxIndex(v)
  {
    best := 0;
    for i := 1 to |v|
      invariant best < i
      invariant forall j | 0 <= j < i :: v[j] <= v[best] && (j < best ==> v[j] < v[best])
    {
      if v[i] > v[best] { best := i; }
    }
    FirstMost(v, best);
  }
}
