/**
 Greedy least-load placement: jobs are taken in order and each goes to the
 first group whose load is least at that moment.
 */
module LeastLoad {
  import opened Reals

  /** The weight of the first `n` jobs that `gs` puts on group `q`. */
  function LoadOn(gs: seq<nat>, ws: seq<real>, q: nat, n: nat): real
    requires n <= |gs| && n <= |ws|
  {
    if n == 0 then 0.0 else LoadOn(gs, ws, q, n - 1) + (if gs[n - 1] == q then ws[n - 1] else 0.0)
  }

  /** A group's load once the first `n` jobs are placed. */
  function Load(prior: seq<real>, gs: seq<nat>, ws: seq<real>, q: nat, n: nat): real
    requires n <= |gs| && n <= |ws| && q < |prior|
  {
    prior[q] + LoadOn(gs, ws, q, n)
  }

  /** `g` is the first group with the least load before job `k`. */
  ghost predicate Least(prior: seq<real>, gs: seq<nat>, ws: seq<real>, g: nat, k: nat)
    requires k <= |gs| && k <= |ws|
  {
    && g < |prior|
    && (forall b: nat | b < |prior| :: Load(prior, gs, ws, g, k) <= Load(prior, gs, ws, b, k))
    && (forall b: nat | b < g :: Load(prior, gs, ws, g, k) < Load(prior, gs, ws, b, k))
  }

  ghost predicate Greedy(prior: seq<real>, gs: seq<nat>, ws: seq<real>) {
    && |gs| == |ws|
    && forall k | 0 <= k < |gs| :: Least(prior, gs, ws, gs[k], k)
  }

  ghost predicate Descending(ws: seq<real>) {
    && (forall i | 0 <= i < |ws| :: ws[i] >= 0.0)
    && forall i, j | 0 <= i <= j < |ws| :: ws[i] >= ws[j]
  }

  /** Some placement of the jobs keeps every group within `bound`. */
  ghost predicate Within(prior: seq<real>, gs: seq<nat>, ws: seq<real>, bound: real) {
    && |gs| == |ws|
    && (forall i | 0 <= i < |gs| :: gs[i] < |prior|)
    && forall q: nat | q < |prior| :: Load(prior, gs, ws, q, |ws|) <= bound
  }

  // ---- load arithmetic ------------------------------------------------------------------

  lemma {:induction false} LoadGrows(gs: seq<nat>, ws: seq<real>, q: nat, k: nat, n: nat)
    requires k <= n <= |gs| == |ws| && forall i | 0 <= i < |ws| :: ws[i] >= 0.0
    ensures LoadOn(gs, ws, q, k) <= LoadOn(gs, ws, q, n)
  {
    if k < n { LoadGrows(gs, ws, q, k, n - 1); }
  }

  /** The last job of a group, at or after one known to be there, ends its load. */
  lemma {:induction false} LastJob(gs: seq<nat>, ws: seq<real>, q: nat, i: nat, n: nat) returns (j: nat)
    requires i < n <= |gs| == |ws| && gs[i] == q
    ensures i <= j < n && gs[j] == q
    ensures LoadOn(gs, ws, q, n) == LoadOn(gs, ws, q, j) + ws[j]
  {
    if gs[n - 1] == q { j := n - 1; } else { j := LastJob(gs, ws, q, i, n - 1); }
  }

  function LoadVector(prior: seq<real>, gs: seq<nat>, ws: seq<real>, n: nat): (v: seq<real>)
    requires n <= |gs| && n <= |ws|
    ensures |v| == |prior|
  {
    seq(|prior|, q requires 0 <= q < |prior| => Load(prior, gs, ws, q, n))
  }

  /** The loads add up to what was there and what was placed. */
  lemma {:induction false} LoadsAddUp(prior: seq<real>, gs: seq<nat>, ws: seq<real>, n: nat)
    requires n <= |gs| && n <= |ws| && forall i | 0 <= i < n :: gs[i] < |prior|
    ensures Sum(LoadVector(prior, gs, ws, n), |prior|) == Sum(prior, |prior|) + Sum(ws, n)
  {
    if n == 0 {
      assert LoadVector(prior, gs, ws, 0) == prior;
    } else {
      LoadsAddUp(prior, gs, ws, n - 1);
      var v, g := LoadVector(prior, gs, ws, n - 1), gs[n - 1];
      assert LoadVector(prior, gs, ws, n) == v[g := v[g] + ws[n - 1]];
      SumUpdate(v, |prior|, g, v[g] + ws[n - 1]);
    }
  }

  // ---- fairness -----------------------------------------------------------------------------

  /** A group without any one of its new jobs carries no more than any other group. */
  lemma WithoutOneIsLeast(prior: seq<real>, gs: seq<nat>, ws: seq<real>, i: nat, b: nat)
    requires Greedy(prior, gs, ws) && Descending(ws) && i < |gs| && b < |prior|
    ensures Load(prior, gs, ws, gs[i], |ws|) - ws[i] <= Load(prior, gs, ws, b, |ws|)
  {
    var j := LastJob(gs, ws, gs[i], i, |ws|);
    assert Least(prior, gs, ws, gs[j], j);
    assert Load(prior, gs, ws, gs[j], j) <= Load(prior, gs, ws, b, j);
    LoadGrows(gs, ws, b, j, |ws|);
  }

  /** Graham's bound: a group that got a job exceeds the average by less than that job. */
  lemma GrahamBound(prior: seq<real>, gs: seq<nat>, ws: seq<real>, i: nat)
    requires Greedy(prior, gs, ws) && Descending(ws) && i < |gs|
    ensures Times(|prior|, Load(prior, gs, ws, gs[i], |ws|) - ws[i]) + ws[i] <= Sum(prior, |prior|) + Sum(ws, |ws|)
  {
    hide Times;
    assert Least(prior, gs, ws, gs[i], i);
    var a, v := gs[i], LoadVector(prior, gs, ws, |ws|);
    var x := v[a] - ws[i];
    var u := v[a := x];
    forall b | 0 <= b < |prior| ensures u[b] >= x { WithoutOneIsLeast(prior, gs, ws, i, b); }
    SumAtLeast(u, |prior|, x);
    SumUpdate(v, |prior|, a, x);
    forall k | 0 <= k < |gs| ensures gs[k] < |prior| { assert Least(prior, gs, ws, gs[k], k); }
    LoadsAddUp(prior, gs, ws, |ws|);
  }

  /** No placement keeps every group below the largest job or below the average. */
  lemma AnyPlacementPays(prior: seq<real>, alt: seq<nat>, ws: seq<real>, bound: real, i: nat)
    requires Within(prior, alt, ws, bound) && Descending(ws) && i < |ws|
    requires forall q | 0 <= q < |prior| :: prior[q] >= 0.0
    ensures ws[i] <= bound
    ensures Sum(prior, |prior|) + Sum(ws, |ws|) <= Times(|prior|, bound)
  {
    LoadsAddUp(prior, alt, ws, |ws|);
    SumAtMost(LoadVector(prior, alt, ws, |ws|), |prior|, bound);
    JobWeighs(alt, ws, alt[i], i, |ws|);
    LoadGrows(alt, ws, alt[i], 0, i);
    assert Load(prior, alt, ws, alt[i], |ws|) <= bound;
  }

  lemma JobWeighs(gs: seq<nat>, ws: seq<real>, q: nat, i: nat, n: nat)
    requires i < n <= |gs| == |ws| && gs[i] == q && forall k | 0 <= k < |ws| :: ws[k] >= 0.0
    ensures LoadOn(gs, ws, q, n) >= LoadOn(gs, ws, q, i) + ws[i]
  {
    LoadGrows(gs, ws, q, i + 1, n);
  }

  /** A group that got a job carries at most `2 - 1/m` times what any placement must allow. */
  lemma TwiceOptimal(prior: seq<real>, gs: seq<nat>, alt: seq<nat>, ws: seq<real>, bound: real, i: nat)
    requires Greedy(prior, gs, ws) && Within(prior, alt, ws, bound) && Descending(ws) && i < |ws|
    requires forall q | 0 <= q < |prior| :: prior[q] >= 0.0
    ensures Least(prior, gs, ws, gs[i], i)
    ensures Times(|prior|, Load(prior, gs, ws, gs[i], |ws|)) <= Times(2 * |prior| - 1, bound)
  {
    hide LoadOn, Sum;
    assert Least(prior, gs, ws, gs[i], i);
    GrahamBound(prior, gs, ws, i);
    AnyPlacementPays(prior, alt, ws, bound, i);
    AverageAndOne(|prior|, Load(prior, gs, ws, gs[i], |ws|), ws[i], bound);
  }

  lemma AverageAndOne(m: nat, load: real, w: real, bound: real)
    requires m > 0 && w <= bound && Times(m, load - w) + w <= Times(m, bound)
    ensures Times(m, load) <= Times(2 * m - 1, bound)
  {
    TimesAdds(m, load - w, w);
    OneMore(m - 1, w);
    ScaleWeak((m - 1) as real, w, bound);
    assert (2 * m - 1) as real == m as real + (m - 1) as real;
  }

  // ---- longest first against the best placement ----------------------------------------------

  /** Two for a job alone on its group before job `j`, one for every other job. */
  ghost function Marks(gs: seq<nat>, j: nat): (f: seq<real>)
    requires j <= |gs|
    ensures |f| == |gs| && forall i | 0 <= i < |gs| :: f[i] == if Alone(gs, i, j) then 2.0 else 1.0
  {
    seq(|gs|, i requires 0 <= i < |gs| => if Alone(gs, i, j) then 2.0 else 1.0)
  }

  ghost predicate Alone(gs: seq<nat>, i: nat, j: nat)
    requires j <= |gs|
  {
    i < j && forall k | 0 <= k < j && k != i :: gs[k] != gs[i]
  }

  lemma {:induction false} LoadOfAlone(gs: seq<nat>, ws: seq<real>, i: nat, j: nat, n: nat)
    requires n <= j <= |gs| == |ws| && Alone(gs, i, j)
    ensures LoadOn(gs, ws, gs[i], n) == if i < n then ws[i] else 0.0
  {
    if n > 0 { LoadOfAlone(gs, ws, i, j, n - 1); }
  }

  lemma {:induction false} NoJobNoLoad(gs: seq<nat>, ws: seq<real>, q: nat, n: nat)
    requires n <= |gs| && n <= |ws| && forall i | 0 <= i < n :: gs[i] != q
    ensures LoadOn(gs, ws, q, n) == 0.0
  {
    if n > 0 { NoJobNoLoad(gs, ws, q, n - 1); }
  }

  /** Every group that holds a job holds two marks. */
  lemma TwoMarksPlaced(gs: seq<nat>, q: nat, j: nat, i: nat)
    requires i < j <= |gs| && gs[i] == q
    ensures LoadOn(gs, Marks(gs, j), q, j) >= 2.0
  {
    var f := Marks(gs, j);
    JobWeighs(gs, f, q, i, j);
    LoadGrows(gs, f, q, 0, i);
    if !Alone(gs, i, j) {
      var k: nat :| k < j && k != i && gs[k] == gs[i];
      if k < i {
        JobWeighs(gs, f, q, k, i);
        LoadGrows(gs, f, q, 0, k);
      } else {
        JobWeighs(gs, f, q, k, j);
        JobWeighs(gs, f, q, i, k);
      }
    }
  }

  /** A group whose jobs are pairwise unmarked and at most two holds at most two marks. */
  lemma {:induction false} TwoMarksAtMost(alt: seq<nat>, f: seq<real>, q: nat, n: nat)
    requires n <= |alt| == |f| && forall i | 0 <= i < |f| :: f[i] == 1.0 || f[i] == 2.0
    requires forall i, k | 0 <= i < k < n && alt[i] == q && alt[k] == q :: f[i] == 1.0 && f[k] == 1.0
    requires forall i, k, l | 0 <= i < k < l < n && alt[i] == q && alt[k] == q :: alt[l] != q
    ensures LoadOn(alt, f, q, n) <= 2.0
    ensures (forall i, k | 0 <= i < k < n && alt[i] == q :: alt[k] != q) && (forall i | 0 <= i < n && alt[i] == q :: f[i] == 1.0) ==>
              LoadOn(alt, f, q, n) <= 1.0
  {
    if n > 0 {
      TwoMarksAtMost(alt, f, q, n - 1);
      if alt[n - 1] == q && forall i | 0 <= i < n - 1 :: alt[i] != q { NoJobNoLoad(alt, f, q, n - 1); }
    }
  }

  ghost predicate NoPrior(prior: seq<real>) {
    forall q | 0 <= q < |prior| :: prior[q] == 0.0
  }

  lemma SumOfNone(prior: seq<real>, n: nat)
    requires NoPrior(prior) && n <= |prior|
    ensures Sum(prior, n) == 0.0
  {
  }

  /** When the least loaded group holds something before job `j`, there are two marks to a group. */
  lemma MarksPlaced(prior: seq<real>, gs: seq<nat>, ws: seq<real>, j: nat)
    requires Greedy(prior, gs, ws) && NoPrior(prior) && j < |ws| && Least(prior, gs, ws, gs[j], j)
    requires LoadOn(gs, ws, gs[j], j) > 0.0
    ensures Sum(Marks(gs, j), j) >= Times(|prior|, 2.0)
  {
    hide Times;
    var f := Marks(gs, j);
    var v := LoadVector(prior, gs, f, j);
    forall q: nat | q < |prior| ensures v[q] >= 2.0 {
      assert Load(prior, gs, ws, gs[j], j) <= Load(prior, gs, ws, q, j);
      if forall i | 0 <= i < j :: gs[i] != q {
        NoJobNoLoad(gs, ws, q, j);
      } else {
        var i: nat :| i < j && gs[i] == q;
        TwoMarksPlaced(gs, q, j, i);
      }
    }
    SumAtLeast(v, |prior|, 2.0);
    forall k | 0 <= k < j ensures gs[k] < |prior| { assert Least(prior, gs, ws, gs[k], k); }
    LoadsAddUp(prior, gs, f, j);
    SumOfNone(prior, |prior|);
  }

  /** Jobs over a third of the bound, a marked one not fitting beside any other, leave two marks to a group at most. */
  lemma MarksAllowed(prior: seq<real>, gs: seq<nat>, alt: seq<nat>, ws: seq<real>, bound: real, j: nat)
    requires Within(prior, alt, ws, bound) && NoPrior(prior) && Descending(ws) && j < |ws| == |gs|
    requires 3.0 * ws[j] > bound
    requires forall i: nat | i < j && Alone(gs, i, j) :: ws[i] + ws[j] > bound
    ensures Sum(Marks(gs, j), j + 1) <= Times(|prior|, 2.0)
  {
    hide Times;
    var f := Marks(gs, j);
    var v := LoadVector(prior, alt, f, j + 1);
    forall q: nat | q < |prior| ensures v[q] <= 2.0 {
      assert Load(prior, alt, ws, q, |ws|) <= bound;
      forall i: nat, k: nat | i < k < j + 1 && alt[i] == q && alt[k] == q
        ensures f[i] == 1.0 && f[k] == 1.0
      {
        PairWeighs(alt, ws, q, i, k);
      }
      forall i: nat, k: nat, l: nat | i < k < l < j + 1 && alt[i] == q && alt[k] == q
        ensures alt[l] != q
      {
        if alt[l] == q { TripleWeighs(alt, ws, q, i, k, l); }
      }
      TwoMarksAtMost(alt, f, q, j + 1);
    }
    SumAtMost(v, |prior|, 2.0);
    LoadsAddUp(prior, alt, f, j + 1);
    SumOfNone(prior, |prior|);
  }

  lemma PairWeighs(gs: seq<nat>, ws: seq<real>, q: nat, i: nat, k: nat)
    requires i < k < |gs| == |ws| && gs[i] == q && gs[k] == q && forall x | 0 <= x < |ws| :: ws[x] >= 0.0
    ensures LoadOn(gs, ws, q, |ws|) >= ws[i] + ws[k]
  {
    JobWeighs(gs, ws, q, k, |ws|);
    JobWeighs(gs, ws, q, i, k);
    LoadGrows(gs, ws, q, 0, i);
  }

  lemma TripleWeighs(gs: seq<nat>, ws: seq<real>, q: nat, i: nat, k: nat, l: nat)
    requires i < k < l < |gs| == |ws| && gs[i] == q && gs[k] == q && gs[l] == q
    requires forall x | 0 <= x < |ws| :: ws[x] >= 0.0
    ensures LoadOn(gs, ws, q, |ws|) >= ws[i] + ws[k] + ws[l]
  {
    JobWeighs(gs, ws, q, l, |ws|);
    JobWeighs(gs, ws, q, k, l);
    JobWeighs(gs, ws, q, i, k);
    LoadGrows(gs, ws, q, 0, i);
  }

  /** While jobs exceed a third of what a placement allows, longest first stays within it. */
  lemma BigJobsFit(prior: seq<real>, gs: seq<nat>, alt: seq<nat>, ws: seq<real>, bound: real, j: nat)
    requires Greedy(prior, gs, ws) && Within(prior, alt, ws, bound) && NoPrior(prior) && Descending(ws)
    requires j < |ws| && 3.0 * ws[j] > bound
    ensures LoadOn(gs, ws, gs[j], j) + ws[j] <= bound
  {
    hide Times;
    assert Least(prior, gs, ws, gs[j], j);
    AnyPlacementPays(prior, alt, ws, bound, j);
    if LoadOn(gs, ws, gs[j], j) + ws[j] > bound {
      MarksPlaced(prior, gs, ws, j);
      forall i: nat | i < j && Alone(gs, i, j) ensures ws[i] + ws[j] > bound {
        LoadOfAlone(gs, ws, i, j, j);
        assert Least(prior, gs, ws, gs[i], i);
        assert Load(prior, gs, ws, gs[j], j) <= Load(prior, gs, ws, gs[i], j);
      }
      MarksAllowed(prior, gs, alt, ws, bound, j);
    }
  }

  lemma ThirdAtMost(m: nat, load: real, w: real, bound: real)
    requires m > 0 && 3.0 * w <= bound && Times(m, load - w) + w <= Times(m, bound)
    ensures Times(3 * m, load) <= Times(4 * m - 1, bound)
  {
    var x := m as real;
    assert (3 * m) as real == 3.0 * x && (4 * m - 1) as real == 4.0 * x - 1.0;
    assert x * (load - w) == x * load - x * w;
    ScaleWeak(x - 1.0, 3.0 * w, bound);
    assert (x - 1.0) * (3.0 * w) == 3.0 * (x * w) - 3.0 * w;
    assert (x - 1.0) * bound == x * bound - bound;
    assert 3.0 * x * load == 3.0 * (x * load) && (4.0 * x - 1.0) * bound == 4.0 * (x * bound) - bound;
  }

  lemma BoundAtMost(m: nat, load: real, bound: real)
    requires m > 0 && load <= bound && bound >= 0.0
    ensures Times(3 * m, load) <= Times(4 * m - 1, bound)
  {
    ScaleWeak((3 * m) as real, load, bound);
    ScaleWeak(bound, (3 * m) as real, (4 * m - 1) as real);
  }

  /** Longest first carries at most `4/3 - 1/(3m)` times what any placement must allow. */
  lemma FourThirdsOptimal(prior: seq<real>, gs: seq<nat>, alt: seq<nat>, ws: seq<real>, bound: real, q: nat)
    requires Greedy(prior, gs, ws) && Within(prior, alt, ws, bound) && NoPrior(prior) && Descending(ws)
    requires q < |prior|
    ensures Times(3 * |prior|, Load(prior, gs, ws, q, |ws|)) <= Times(4 * |prior| - 1, bound)
  {
    hide Times;
    var load := Load(prior, gs, ws, q, |ws|);
    assert Load(prior, alt, ws, q, |ws|) <= bound;
    LoadGrows(alt, ws, q, 0, |ws|);
    if i: nat :| i < |ws| && gs[i] == q {
      var j := LastJob(gs, ws, q, i, |ws|);
      if 3.0 * ws[j] > bound {
        BigJobsFit(prior, gs, alt, ws, bound, j);
        BoundAtMost(|prior|, load, bound);
      } else {
        GrahamBound(prior, gs, ws, j);
        AnyPlacementPays(prior, alt, ws, bound, j);
        ThirdAtMost(|prior|, load, ws[j], bound);
      }
    } else {
      NoJobNoLoad(gs, ws, q, |ws|);
      BoundAtMost(|prior|, load, bound);
    }
  }

  /** Loads decide placements, so a greedy placement of the same jobs is unique. */
  lemma {:induction false} GreedyIsUnique(prior: seq<real>, gs: seq<nat>, hs: seq<nat>, ws: seq<real>, n: nat)
    requires Greedy(prior, gs, ws) && Greedy(prior, hs, ws) && n <= |ws|
    ensures gs[..n] == hs[..n]
    ensures forall q: nat, k: nat | k <= n :: LoadOn(gs, ws, q, k) == LoadOn(hs, ws, q, k)
  {
    if n > 0 {
      var k := n - 1;
      GreedyIsUnique(prior, gs, hs, ws, k);
      assert Least(prior, gs, ws, gs[k], k) && Least(prior, hs, ws, hs[k], k);
      assert Load(prior, gs, ws, gs[k], k) == Load(prior, hs, ws, gs[k], k);
      assert Load(prior, gs, ws, hs[k], k) == Load(prior, hs, ws, hs[k], k);
      assert gs[k] == hs[k];
      assert gs[..n] == gs[..k] + [gs[k]] && hs[..n] == hs[..k] + [hs[k]];
    }
  }
}
