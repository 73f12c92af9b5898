/**
 Balancing sequences across decode groups: longest first onto the group with
 the least load, and the workload builder's replay of that decision.
 */
module DecodeGroups {
  import opened Options
  import opened Sorting
  import opened Reals
  import opened LeastLoad

  // ---- the order sequences are placed in ----------------------------------------------

  function LengthOf(length: Option<nat>): nat { if length.Some? then length.value else 0 }

  function Squared(x: real): real { x * x }

  /** Attention work grows with the square of the length; otherwise every sequence counts one. */
  function Weight(length: Option<nat>, useL2: bool): (w: real)
    ensures w >= 0.0
  {
    if useL2 then Squared(LengthOf(length) as real) else 1.0
  }

  function Weights(lengths: seq<Option<nat>>, useL2: bool): (ws: seq<real>)
    ensures |ws| == |lengths|
  {
    seq(|lengths|, i requires 0 <= i < |lengths| => Weight(lengths[i], useL2))
  }

  function Range(n: nat): (r: seq<nat>)
    ensures |r| == n && forall i | 0 <= i < n :: r[i] == i
  {
    seq(n, i => i)
  }

  /** Longer first, input order among equals. */
  function LongerFirst(lengths: seq<Option<nat>>): (nat, nat) -> bool {
    (i: nat, j: nat) =>
      var a, b := if i < |lengths| then LengthOf(lengths[i]) else 0, if j < |lengths| then LengthOf(lengths[j]) else 0;
      a > b || (a == b && i <= j)
  }

  function PlacementOrder(lengths: seq<Option<nat>>): seq<nat> {
    SortBy(Range(|lengths|), LongerFirst(lengths))
  }

  /** `order` lists every position below `n` once. */
  ghost predicate Permutes(order: seq<nat>, n: nat) {
    multiset(order) == multiset(Range(n))
  }

  /** The elements of `s` in the order given. */
  function Picked<T>(s: seq<T>, order: seq<nat>): (p: seq<T>)
    requires forall k | 0 <= k < |order| :: order[k] < |s|
    ensures |p| == |order| && forall k | 0 <= k < |order| :: p[k] == s[order[k]]
  {
    seq(|order|, k requires 0 <= k < |order| => s[order[k]])
  }

  lemma PermutesFacts(order: seq<nat>, n: nat)
    requires Permutes(order, n)
    ensures |order| == n
    ensures forall k | 0 <= k < n :: order[k] < n
    ensures forall j, k | 0 <= j < k < n :: order[j] != order[k]
    ensures forall i: nat | i < n :: i in order
  {
    assert |order| == |multiset(order)| == |multiset(Range(n))| == |Range(n)|;
    forall k | 0 <= k < n ensures order[k] < n {
      assert order[k] in multiset(order);
      assert order[k] in Range(n);
    }
    forall j, k | 0 <= j < k < n ensures order[j] != order[k] {
      if order[j] == order[k] {
        RepeatCounts(order, j, k);
        OnceInRange(n, order[j]);
      }
    }
    forall i: nat | i < n ensures i in order {
      assert Range(n)[i] in multiset(Range(n));
    }
  }

  lemma RepeatCounts(order: seq<nat>, j: nat, k: nat)
    requires j < k < |order| && order[j] == order[k]
    ensures multiset(order)[order[j]] >= 2
  {
    assert order == order[..k] + order[k..];
    assert order[j] in order[..k] && order[j] == order[k..][0];
  }

  lemma {:induction false} OnceInRange(n: nat, i: nat)
    ensures multiset(Range(n))[i] <= 1
  {
    if n > 0 {
      OnceInRange(n - 1, i);
      assert Range(n) == Range(n - 1) + [n - 1];
      assert n - 1 !in Range(n - 1);
      assert n - 1 !in multiset(Range(n - 1));
    }
  }

  lemma OrderPermutes(lengths: seq<Option<nat>>)
    ensures Permutes(PlacementOrder(lengths), |lengths|)
  {
    SortIsPermutation(Range(|lengths|), LongerFirst(lengths));
  }

  lemma OrderDescends(lengths: seq<Option<nat>>, useL2: bool)
    requires Permutes(PlacementOrder(lengths), |lengths|)
    requires forall k | 0 <= k < |PlacementOrder(lengths)| :: PlacementOrder(lengths)[k] < |lengths|
    ensures Descending(Picked(Weights(lengths, useL2), PlacementOrder(lengths)))
  {
    var le, order := LongerFirst(lengths), PlacementOrder(lengths);
    SortIsSorted(Range(|lengths|), le);
    forall i, j | 0 <= i < j < |order|
      ensures Weight(lengths[order[i]], useL2) >= Weight(lengths[order[j]], useL2)
    {
      assert le(order[i], order[j]);
      SquareGrows(LengthOf(lengths[order[j]]), LengthOf(lengths[order[i]]));
    }
  }

  lemma SquareGrows(a: nat, b: nat)
    requires a <= b
    ensures Squared(a as real) <= Squared(b as real)
  {
    ScaleWeak(a as real, a as real, b as real);
    ScaleWeak(b as real, a as real, b as real);
  }

  // ---- sums do not depend on the order --------------------------------------------------

  function SumAlong(vals: seq<real>, xs: seq<nat>): real
    requires forall k | 0 <= k < |xs| :: xs[k] < |vals|
  {
    if xs == [] then 0.0 else vals[xs[0]] + SumAlong(vals, xs[1..])
  }

  lemma {:induction false} SumWithout(vals: seq<real>, xs: seq<nat>, k: nat)
    requires (forall k | 0 <= k < |xs| :: xs[k] < |vals|) && k < |xs|
    ensures SumAlong(vals, xs) == vals[xs[k]] + SumAlong(vals, xs[..k] + xs[k + 1..])
  {
    var rest := xs[..k] + xs[k + 1..];
    if k == 0 {
      assert rest == xs[1..];
    } else {
      SumWithout(vals, xs[1..], k - 1);
      assert rest[1..] == xs[1..][..k - 1] + xs[1..][k..];
    }
  }

  lemma {:induction false} SumIgnoresOrder(vals: seq<real>, xs: seq<nat>, ys: seq<nat>)
    requires multiset(xs) == multiset(ys)
    requires (forall k | 0 <= k < |xs| :: xs[k] < |vals|) && forall k | 0 <= k < |ys| :: ys[k] < |vals|
    ensures SumAlong(vals, xs) == SumAlong(vals, ys)
  {
    hide SumAlong;
    if xs == [] {
      assert |multiset(ys)| == 0;
    } else {
      assert xs[0] in multiset(ys);
      var k: nat :| k < |ys| && ys[k] == xs[0];
      SumWithout(vals, ys, k);
      SumWithout(vals, xs, 0);
      RestAgrees(xs, ys, k);
      SumIgnoresOrder(vals, xs[..0] + xs[1..], ys[..k] + ys[k + 1..]);
    }
  }

  lemma RestAgrees(xs: seq<nat>, ys: seq<nat>, k: nat)
    requires xs != [] && k < |ys| && ys[k] == xs[0] && multiset(xs) == multiset(ys)
    ensures multiset(xs[..0] + xs[1..]) == multiset(ys[..k] + ys[k + 1..])
  {
    RemoveOne(xs, 0);
    RemoveOne(ys, k);
  }

  lemma {:induction false} SumAlongPicked(vals: seq<real>, xs: seq<nat>, n: nat)
    requires n <= |xs| && forall k | 0 <= k < |xs| :: xs[k] < |vals|
    ensures Sum(Picked(vals, xs), n) == SumAlong(vals, xs[..n])
  {
    if n > 0 {
      SumAlongPicked(vals, xs, n - 1);
      SumWithout(vals, xs[..n], n - 1);
      assert xs[..n][..n - 1] + xs[..n][n..] == xs[..n - 1];
    }
  }

  /** The weights one group holds, zero elsewhere. */
  function HeldBy(gs: seq<nat>, ws: seq<real>, q: nat): (v: seq<real>)
    requires |gs| == |ws|
    ensures |v| == |gs| && forall i | 0 <= i < |gs| :: v[i] == if gs[i] == q then ws[i] else 0.0
  {
    seq(|gs|, i requires 0 <= i < |gs| => if gs[i] == q then ws[i] else 0.0)
  }

  lemma {:induction false} LoadIsSum(gs: seq<nat>, ws: seq<real>, q: nat, n: nat)
    requires n <= |gs| == |ws|
    ensures LoadOn(gs, ws, q, n) == Sum(HeldBy(gs, ws, q), n)
  {
    if n > 0 { LoadIsSum(gs, ws, q, n - 1); }
  }

  /** A group's load is the same in placement order and in input order. */
  lemma LoadIgnoresOrder(order: seq<nat>, gs: seq<nat>, ws: seq<real>, q: nat)
    requires |gs| == |ws| && Permutes(order, |gs|) && forall k | 0 <= k < |order| :: order[k] < |gs|
    ensures |order| == |gs|
    ensures LoadOn(Picked(gs, order), Picked(ws, order), q, |gs|) == LoadOn(gs, ws, q, |gs|)
  {
    PermutesFacts(order, |gs|);
    var n, v := |gs|, HeldBy(gs, ws, q);
    LoadIsSum(gs, ws, q, n);
    LoadIsSum(Picked(gs, order), Picked(ws, order), q, n);
    assert HeldBy(Picked(gs, order), Picked(ws, order), q) == Picked(v, order);
    SumAlongPicked(v, order, n);
    SumAlongPicked(v, Range(n), n);
    assert order[..n] == order && Range(n)[..n] == Range(n) && Picked(v, Range(n)) == v;
    SumIgnoresOrder(v, order, Range(n));
  }

  // ---- what the assignment guarantees -------------------------------------------------------

  /** `groups`, one per sequence in input order, is the longest-first least-load assignment. */
  ghost predicate Balanced(lengths: seq<Option<nat>>, prior: seq<real>, useL2: bool, groups: seq<nat>) {
    var order := PlacementOrder(lengths);
    && |groups| == |lengths|
    && Permutes(order, |lengths|)
    && (forall k | 0 <= k < |order| :: order[k] < |lengths|)
    && Greedy(prior, Picked(groups, order), Picked(Weights(lengths, useL2), order))
  }

  /** A group's prior load and the sequences it was given. */
  ghost function GroupLoad(lengths: seq<Option<nat>>, prior: seq<real>, useL2: bool, groups: seq<nat>, q: nat): real
    requires |groups| == |lengths| && q < |prior|
  {
    Load(prior, groups, Weights(lengths, useL2), q, |lengths|)
  }

  lemma InPlacementOrder(lengths: seq<Option<nat>>, prior: seq<real>, useL2: bool, groups: seq<nat>, q: nat)
    requires Balanced(lengths, prior, useL2, groups) && q < |prior|
    ensures var order := PlacementOrder(lengths); var ws := Picked(Weights(lengths, useL2), order);
            && |ws| == |lengths| && Descending(ws)
            && Load(prior, Picked(groups, order), ws, q, |ws|) == GroupLoad(lengths, prior, useL2, groups, q)
  {
    OrderDescends(lengths, useL2);
    LoadIgnoresOrder(PlacementOrder(lengths), groups, Weights(lengths, useL2), q);
  }

  lemma Position(lengths: seq<Option<nat>>, i: nat) returns (k: nat)
    requires Permutes(PlacementOrder(lengths), |lengths|) && i < |lengths|
    ensures k < |PlacementOrder(lengths)| && PlacementOrder(lengths)[k] == i
  {
    PermutesFacts(PlacementOrder(lengths), |lengths|);
    assert i in PlacementOrder(lengths);
    k :| k < |PlacementOrder(lengths)| && PlacementOrder(lengths)[k] == i;
  }

  lemma GroupsInRange(lengths: seq<Option<nat>>, prior: seq<real>, useL2: bool, groups: seq<nat>, i: nat)
    requires Balanced(lengths, prior, useL2, groups) && i < |lengths|
    ensures groups[i] < |prior|
  {
    var k := Position(lengths, i);
    var order := PlacementOrder(lengths);
    assert Least(prior, Picked(groups, order), Picked(Weights(lengths, useL2), order), Picked(groups, order)[k], k);
  }

  /**
   Any group, without any one of the sequences just placed on it, carries no
   more than any other group, whatever the prior loads.
   */
  lemma FairAssignment(lengths: seq<Option<nat>>, prior: seq<real>, useL2: bool, groups: seq<nat>, i: nat, b: nat)
    requires Balanced(lengths, prior, useL2, groups) && i < |lengths| && b < |prior|
    ensures groups[i] < |prior|
    ensures GroupLoad(lengths, prior, useL2, groups, groups[i]) - Weight(lengths[i], useL2)
            <= GroupLoad(lengths, prior, useL2, groups, b)
  {
    GroupsInRange(lengths, prior, useL2, groups, i);
    InPlacementOrder(lengths, prior, useL2, groups, groups[i]);
    InPlacementOrder(lengths, prior, useL2, groups, b);
    var order := PlacementOrder(lengths);
    var k := Position(lengths, i);
    WithoutOneIsLeast(prior, Picked(groups, order), Picked(Weights(lengths, useL2), order), k, b);
  }

  lemma AlternativeInOrder(lengths: seq<Option<nat>>, prior: seq<real>, useL2: bool, alt: seq<nat>, bound: real)
    requires Within(prior, alt, Weights(lengths, useL2), bound)
    ensures var order := PlacementOrder(lengths);
            && Permutes(order, |lengths|)
            && (forall k | 0 <= k < |order| :: order[k] < |lengths|)
            && Within(prior, Picked(alt, order), Picked(Weights(lengths, useL2), order), bound)
  {
    OrderPermutes(lengths);
    var order := PlacementOrder(lengths);
    PermutesFacts(order, |lengths|);
    forall q: nat | q < |prior|
      ensures Load(prior, Picked(alt, order), Picked(Weights(lengths, useL2), order), q, |lengths|) <= bound
    {
      assert Load(prior, alt, Weights(lengths, useL2), q, |lengths|) <= bound;
      LoadIgnoresOrder(order, alt, Weights(lengths, useL2), q);
    }
  }

  /** A group given a sequence carries at most `2 - 1/m` times what any other assignment must allow. */
  lemma AtMostTwice(lengths: seq<Option<nat>>, prior: seq<real>, useL2: bool, groups: seq<nat>,
                    alt: seq<nat>, bound: real, i: nat)
    requires Balanced(lengths, prior, useL2, groups) && i < |lengths|
    requires Within(prior, alt, Weights(lengths, useL2), bound)
    requires forall q | 0 <= q < |prior| :: prior[q] >= 0.0
    ensures groups[i] < |prior|
    ensures Times(|prior|, GroupLoad(lengths, prior, useL2, groups, groups[i])) <= Times(2 * |prior| - 1, bound)
  {
    hide Times, LoadOn;
    GroupsInRange(lengths, prior, useL2, groups, i);
    InPlacementOrder(lengths, prior, useL2, groups, groups[i]);
    AlternativeInOrder(lengths, prior, useL2, alt, bound);
    var order := PlacementOrder(lengths);
    var k := Position(lengths, i);
    TwiceOptimal(prior, Picked(groups, order), Picked(alt, order), Picked(Weights(lengths, useL2), order), bound, k);
  }

  /** From empty groups, at most `4/3 - 1/(3m)` times what any other assignment must allow. */
  lemma AtMostFourThirds(lengths: seq<Option<nat>>, prior: seq<real>, useL2: bool, groups: seq<nat>,
                         alt: seq<nat>, bound: real, q: nat)
    requires Balanced(lengths, prior, useL2, groups) && NoPrior(prior) && q < |prior|
    requires Within(prior, alt, Weights(lengths, useL2), bound)
    ensures Times(3 * |prior|, GroupLoad(lengths, prior, useL2, groups, q)) <= Times(4 * |prior| - 1, bound)
  {
    hide Times, LoadOn;
    InPlacementOrder(lengths, prior, useL2, groups, q);
    AlternativeInOrder(lengths, prior, useL2, alt, bound);
    var order := PlacementOrder(lengths);
    FourThirdsOptimal(prior, Picked(groups, order), Picked(alt, order), Picked(Weights(lengths, useL2), order), bound, q);
  }

  // ---- the assignment in the fields of its inputs ----------------------------------------------

  /** Sequence `j` is placed before `i`: it is longer, or as long and earlier; a missing length counts as zero. */
  predicate Precedes(lengths: seq<Option<nat>>, j: nat, i: nat)
    requires j < |lengths| && i < |lengths|
  {
    var a, b := (match lengths[j] case Some(n) => n case None => 0), (match lengths[i] case Some(n) => n case None => 0);
    a > b || (a == b && j < i)
  }

  /** What sequence `j` weighs on group `q` by the time `i` is placed: the square of its length, or one. */
  function WeighsOn(lengths: seq<Option<nat>>, useL2: bool, groups: seq<nat>, i: nat, q: nat, j: nat): real
    requires |groups| == |lengths| && i < |lengths| && j < |lengths|
  {
    if groups[j] != q || !Precedes(lengths, j, i) then 0.0
    else if !useL2 then 1.0
    else match lengths[j] case Some(n) => (n * n) as real case None => 0.0
  }

  function Weighing(lengths: seq<Option<nat>>, useL2: bool, groups: seq<nat>, i: nat, q: nat): (v: seq<real>)
    requires |groups| == |lengths| && i < |lengths|
    ensures |v| == |lengths| && forall j | 0 <= j < |v| :: v[j] == WeighsOn(lengths, useL2, groups, i, q, j)
  {
    seq(|lengths|, j requires 0 <= j < |lengths| => WeighsOn(lengths, useL2, groups, i, q, j))
  }

  /** A group's load when sequence `i` is placed. */
  function LoadFor(lengths: seq<Option<nat>>, prior: seq<real>, useL2: bool, groups: seq<nat>, i: nat, q: nat): real
    requires |groups| == |lengths| && i < |lengths| && q < |prior|
  {
    prior[q] + Sum(Weighing(lengths, useL2, groups, i, q), |lengths|)
  }

  ghost predicate FirstLightest(lengths: seq<Option<nat>>, prior: seq<real>, useL2: bool, groups: seq<nat>, i: nat)
    requires |groups| == |lengths| && i < |lengths|
  {
    && groups[i] < |prior|
    && forall b: nat | b < |prior| ::
         && LoadFor(lengths, prior, useL2, groups, i, groups[i]) <= LoadFor(lengths, prior, useL2, groups, i, b)
         && (b < groups[i] ==> LoadFor(lengths, prior, useL2, groups, i, groups[i]) < LoadFor(lengths, prior, useL2, groups, i, b))
  }

  /** Each sequence is on the first group that the longer ones, and earlier equals, had loaded least. */
  ghost predicate Levelled(lengths: seq<Option<nat>>, prior: seq<real>, useL2: bool, groups: seq<nat>) {
    |groups| == |lengths| && forall i | 0 <= i < |lengths| :: FirstLightest(lengths, prior, useL2, groups, i)
  }

  lemma PlacedInOrder(lengths: seq<Option<nat>>, m: nat, k: nat)
    requires m < |lengths| && k < |lengths| && |PlacementOrder(lengths)| == |lengths|
    requires forall k | 0 <= k < |lengths| :: PlacementOrder(lengths)[k] < |lengths|
    requires forall j, k | 0 <= j < k < |lengths| :: PlacementOrder(lengths)[j] != PlacementOrder(lengths)[k]
    ensures Precedes(lengths, PlacementOrder(lengths)[m], PlacementOrder(lengths)[k]) <==> m < k
  {
    var le, order := LongerFirst(lengths), PlacementOrder(lengths);
    LongerFirstIsTotal(lengths);
    SortIsSorted(Range(|lengths|), le);
    hide SortBy;
    if m < k { assert le(order[m], order[k]); }
    if k < m { assert le(order[k], order[m]); }
  }

  lemma LongerFirstIsTotal(lengths: seq<Option<nat>>)
    ensures TotalPreorder(LongerFirst(lengths))
  {
  }

  lemma {:induction false} SumAgrees(v: seq<real>, w: seq<real>, n: nat)
    requires n <= |v| && n <= |w| && forall m | 0 <= m < n :: v[m] == w[m]
    ensures Sum(v, n) == Sum(w, n)
  {
    if n > 0 { SumAgrees(v, w, n - 1); }
  }

  lemma {:induction false} SumStops(v: seq<real>, k: nat, n: nat)
    requires k <= n <= |v| && forall m | k <= m < n :: v[m] == 0.0
    ensures Sum(v, n) == Sum(v, k)
  {
    if k < n { SumStops(v, k, n - 1); }
  }

  lemma SumInOrder(v: seq<real>, order: seq<nat>)
    requires Permutes(order, |v|) && |order| == |v| && forall k | 0 <= k < |order| :: order[k] < |v|
    ensures Sum(Picked(v, order), |v|) == Sum(v, |v|)
  {
    PickedSum(order, v);
  }

  /** The load a group has in placement order, added up over the input. */
  lemma LoadForIs(lengths: seq<Option<nat>>, prior: seq<real>, useL2: bool, groups: seq<nat>, k: nat, q: nat)
    requires |groups| == |lengths| && k < |lengths| && q < |prior| && Permutes(PlacementOrder(lengths), |lengths|)
    requires |PlacementOrder(lengths)| == |lengths| && forall k | 0 <= k < |lengths| :: PlacementOrder(lengths)[k] < |lengths|
    ensures var order := PlacementOrder(lengths);
            Load(prior, Picked(groups, order), Picked(Weights(lengths, useL2), order), q, k)
            == LoadFor(lengths, prior, useL2, groups, order[k], q)
  {
    hide Sum, PlacementOrder, Permutes, LoadOn;
    var order := PlacementOrder(lengths);
    PermutesFacts(order, |lengths|);
    var gs, ws, v := Picked(groups, order), Picked(Weights(lengths, useL2), order), Weighing(lengths, useL2, groups, order[k], q);
    forall m | 0 <= m < |lengths|
      ensures Picked(v, order)[m] == if m < k then HeldBy(gs, ws, q)[m] else 0.0
    {
      PlacedInOrder(lengths, m, k);
    }
    SumInOrder(v, order);
    SumStops(Picked(v, order), k, |lengths|);
    SumAgrees(Picked(v, order), HeldBy(gs, ws, q), k);
    LoadIsSum(gs, ws, q, k);
  }

  /** The balanced assignment, without its order of placement. */
  lemma BalancedIff(lengths: seq<Option<nat>>, prior: seq<real>, useL2: bool, groups: seq<nat>)
    ensures Balanced(lengths, prior, useL2, groups) <==> Levelled(lengths, prior, useL2, groups)
  {
    hide PlacementOrder, Permutes, LoadFor, Load, Weights, Weight;
    OrderPermutes(lengths);
    var order := PlacementOrder(lengths);
    PermutesFacts(order, |lengths|);
    if |groups| == |lengths| {
      var gs, ws := Picked(groups, order), Picked(Weights(lengths, useL2), order);
      forall k | 0 <= k < |lengths|
        ensures Least(prior, gs, ws, gs[k], k) <==> FirstLightest(lengths, prior, useL2, groups, order[k])
      {
        forall q: nat | q < |prior| ensures Load(prior, gs, ws, q, k) == LoadFor(lengths, prior, useL2, groups, order[k], q) {
          LoadForIs(lengths, prior, useL2, groups, k, q);
        }
      }
      if Balanced(lengths, prior, useL2, groups) {
        forall i | 0 <= i < |lengths| ensures FirstLightest(lengths, prior, useL2, groups, i) {
          var k := Position(lengths, i);
          assert Least(prior, gs, ws, gs[k], k);
        }
      }
    }
  }

  // ---- loads as the source adds them ---------------------------------------------------------

  predicate IsFirstLeast(load: seq<real>, g: nat) {
    g < |load| && forall b | 0 <= b < |load| :: load[g] <= load[b] && (b < g ==> load[g] < load[b])
  }

  function FirstLeast(load: seq<real>): (g: nat)
    requires load != []
    ensures IsFirstLeast(load, g)
  {
    if |load| == 1 then 0
    else
      var n := |load| - 1;
      var g := FirstLeast(load[..n]);
      if load[n] < load[g] then n else g
  }

  /** The first group with the least load takes a job; the sum is rounded. */
  function Charge(load: seq<real>, w: real, rnd: Rounding): (after: seq<real>)
    requires load != []
    ensures |after| == |load|
  {
    var g := FirstLeast(load);
    load[g := rnd(load[g] + w)]
  }

  /** The loads after `n` jobs. */
  function LoadAfter(load: seq<real>, ws: seq<real>, n: nat, rnd: Rounding): (after: seq<real>)
    requires load != [] && n <= |ws|
    ensures |after| == |load|
  {
    if n == 0 then load else Charge(LoadAfter(load, ws, n - 1, rnd), ws[n - 1], rnd)
  }

  /** Where the first `n` jobs went. */
  function Spread(load: seq<real>, ws: seq<real>, n: nat, rnd: Rounding): (gs: seq<nat>)
    requires load != [] && n <= |ws|
    ensures |gs| == n
  {
    if n == 0 then [] else Spread(load, ws, n - 1, rnd) + [FirstLeast(LoadAfter(load, ws, n - 1, rnd))]
  }

  lemma SpreadStep(load: seq<real>, ws: seq<real>, n: nat, rnd: Rounding)
    requires load != [] && n < |ws|
    ensures var before := LoadAfter(load, ws, n, rnd);
            && LoadAfter(load, ws, n + 1, rnd) == Charge(before, ws[n], rnd)
            && Spread(load, ws, n + 1, rnd) == Spread(load, ws, n, rnd) + [FirstLeast(before)]
  {
    hide FirstLeast, IsFirstLeast, Charge;
  }

  lemma SpreadNothing(load: seq<real>, ws: seq<real>, rnd: Rounding)
    requires load != []
    ensures LoadAfter(load, ws, 0, rnd) == load && Spread(load, ws, 0, rnd) == []
  {
  }

  lemma LeastIsGroup(load: seq<real>)
    requires load != []
    ensures FirstLeast(load) < |load|
  {
  }

  function FloatWeight(length: Option<nat>, useL2: bool, rnd: Rounding): real {
    if useL2 then rnd(Squared(rnd(LengthOf(length) as real))) else 1.0
  }

  function FloatWeights(lengths: seq<Option<nat>>, useL2: bool, rnd: Rounding): (ws: seq<real>)
    ensures |ws| == |lengths| && forall i | 0 <= i < |ws| :: ws[i] == FloatWeight(lengths[i], useL2, rnd)
  {
    seq(|lengths|, i requires 0 <= i < |lengths| => FloatWeight(lengths[i], useL2, rnd))
  }

  /** `groups`, one per sequence in input order, is what the rounded loop makes of these loads. */
  ghost predicate Assigned(lengths: seq<Option<nat>>, load: seq<real>, useL2: bool, rnd: Rounding, groups: seq<nat>) {
    var order := PlacementOrder(lengths);
    && load != [] && |groups| == |lengths|
    && Permutes(order, |lengths|)
    && (forall k | 0 <= k < |order| :: order[k] < |lengths|)
    && |order| == |lengths|
    && Picked(groups, order) == Spread(load, Picked(FloatWeights(lengths, useL2, rnd), order), |lengths|, rnd)
  }

  // ---- when rounding changes nothing -----------------------------------------------------------

  ghost predicate Natural(x: real) { x >= 0.0 && Whole(x) }

  /** Natural loads and weights that no group can add up past the integers held exactly. */
  ghost predicate Budget(load: seq<real>, ws: seq<real>) {
    && (forall k | 0 <= k < |ws| :: Natural(ws[k]))
    && (forall q | 0 <= q < |load| :: Natural(load[q]) && load[q] + Sum(ws, |ws|) <= EXACT as real)
  }

  lemma {:induction false} SumGrows(ws: seq<real>, n: nat, m: nat)
    requires n <= m <= |ws| && forall k | 0 <= k < |ws| :: Natural(ws[k])
    ensures 0.0 <= Sum(ws, n) <= Sum(ws, m)
    decreases m
  {
    if n < m {
      SumGrows(ws, n, m - 1);
    } else if n > 0 {
      SumGrows(ws, n - 1, n - 1);
    }
  }

  /** After `n` jobs every load is a natural number that leaves room for the jobs to come. */
  ghost predicate Roomy(load: seq<real>, prior: seq<real>, ws: seq<real>, n: nat)
    requires n <= |ws| && |load| == |prior|
  {
    forall q | 0 <= q < |load| :: Natural(load[q]) && load[q] <= prior[q] + Sum(ws, n)
  }

  lemma RoomyAtFirst(prior: seq<real>, ws: seq<real>)
    requires Budget(prior, ws)
    ensures Roomy(prior, prior, ws, 0)
  {
    hide Whole;
    assert Sum(ws, 0) == 0.0;
    forall q | 0 <= q < |prior| ensures Natural(prior[q]) && prior[q] <= prior[q] + Sum(ws, 0) {
      assert Natural(prior[q]) && prior[q] + Sum(ws, |ws|) <= EXACT as real;
    }
  }

  lemma RoomyStep(load: seq<real>, prior: seq<real>, ws: seq<real>, n: nat, g: nat)
    requires n < |ws| && |load| == |prior| && g < |load| && Budget(prior, ws) && Roomy(load, prior, ws, n)
    ensures Whole(load[g] + ws[n]) && Roomy(load[g := load[g] + ws[n]], prior, ws, n + 1)
  {
    SumGrows(ws, n + 1, |ws|);
    assert Natural(ws[n]) && Natural(load[g]) && load[g] <= prior[g] + Sum(ws, n) && Natural(prior[g]);
    assert prior[g] + Sum(ws, |ws|) <= EXACT as real;
    WholeAdds(load[g], ws[n]);
    hide Whole;
  }

  lemma ChargeIsExact(load: seq<real>, prior: seq<real>, ws: seq<real>, n: nat, rnd: Rounding)
    requires n < |ws| && load != [] && |load| == |prior| && KeepsIntegers(rnd)
    requires Budget(prior, ws) && Roomy(load, prior, ws, n)
    ensures var g := FirstLeast(load); g < |load| && Charge(load, ws[n], rnd) == load[g := load[g] + ws[n]]
    ensures Roomy(Charge(load, ws[n], rnd), prior, ws, n + 1)
  {
    LeastIsGroup(load);
    hide FirstLeast, IsFirstLeast, Roomy, Budget, KeepsIntegers, Whole;
    var g := FirstLeast(load);
    RoomyStep(load, prior, ws, n, g);
    RoundedAlike(rnd, load[g] + ws[n]);
  }

  /** While nothing is rounded the loop decides as the exact one does. */
  lemma {:induction false} SpreadDecides(prior: seq<real>, ws: seq<real>, n: nat, rnd: Rounding)
    requires prior != [] && n <= |ws| && Budget(prior, ws) && KeepsIntegers(rnd)
    ensures var gs, load := Spread(prior, ws, n, rnd), LoadAfter(prior, ws, n, rnd);
            Tracks(prior, gs, ws, load) && Decided(prior, gs, ws) && Roomy(load, prior, ws, n)
  {
    hide *;
    if n == 0 {
      SpreadNothing(prior, ws, rnd);
      NothingPlaced(prior, ws);
      RoomyAtFirst(prior, ws);
    } else {
      SpreadDecides(prior, ws, n - 1, rnd);
      var gs, load := Spread(prior, ws, n - 1, rnd), LoadAfter(prior, ws, n - 1, rnd);
      SpreadStep(prior, ws, n - 1, rnd);
      ChargeIsExact(load, prior, ws, n - 1, rnd);
      PlaceOne(prior, gs, ws, load, FirstLeast(load));
    }
  }

  lemma ExactSpreadIsGreedy(prior: seq<real>, ws: seq<real>, rnd: Rounding)
    requires prior != [] && Budget(prior, ws) && KeepsIntegers(rnd)
    ensures Greedy(prior, Spread(prior, ws, |ws|, rnd), ws)
  {
    hide Spread, LoadAfter;
    SpreadDecides(prior, ws, |ws|, rnd);
  }

  /** Natural prior loads, and no group could pass the exact integers even with every sequence on it. */
  ghost predicate ExactLoads(lengths: seq<Option<nat>>, prior: seq<real>, useL2: bool) {
    forall q | 0 <= q < |prior| ::
      Natural(prior[q]) && prior[q] + Sum(Weights(lengths, useL2), |lengths|) <= EXACT as real
  }

  lemma WeightIsExact(length: Option<nat>, useL2: bool, rnd: Rounding)
    requires KeepsIntegers(rnd) && Weight(length, useL2) <= EXACT as real
    ensures Natural(Weight(length, useL2)) && FloatWeight(length, useL2, rnd) == Weight(length, useL2)
  {
    assert Natural(1.0);
    hide Squared, Whole, KeepsIntegers;
    var x := LengthOf(length) as real;
    if useL2 {
      SquareIsNatural(LengthOf(length));
      RoundedAlike(rnd, x);
      RoundedAlike(rnd, Squared(x));
    }
  }

  lemma SquareIsNatural(l: nat)
    requires Squared(l as real) <= EXACT as real
    ensures Natural(l as real) && Natural(Squared(l as real))
  {
    var n := l * l;
    assert Squared(l as real) == n as real;
    assert l <= n by { if l > 0 { ScaleWeak(l as real, 1.0, l as real); } }
  }

  lemma {:induction false} EachAtMostSum(lengths: seq<Option<nat>>, useL2: bool, i: nat, n: nat)
    requires i < n <= |lengths|
    ensures Weight(lengths[i], useL2) <= Sum(Weights(lengths, useL2), n)
    decreases n
  {
    WeightsSum(lengths, useL2, n - 1);
    if i < n - 1 { EachAtMostSum(lengths, useL2, i, n - 1); }
  }

  lemma {:induction false} WeightsSum(lengths: seq<Option<nat>>, useL2: bool, n: nat)
    requires n <= |lengths|
    ensures 0.0 <= Sum(Weights(lengths, useL2), n)
  {
    if n > 0 { WeightsSum(lengths, useL2, n - 1); }
  }

  lemma WeightsAreExact(lengths: seq<Option<nat>>, prior: seq<real>, useL2: bool, rnd: Rounding)
    requires KeepsIntegers(rnd) && ExactLoads(lengths, prior, useL2) && prior != []
    ensures FloatWeights(lengths, useL2, rnd) == Weights(lengths, useL2)
    ensures forall i | 0 <= i < |lengths| :: Natural(Weights(lengths, useL2)[i])
  {
    hide Weight, FloatWeight, Sum, KeepsIntegers, Natural;
    assert Natural(prior[0]) && prior[0] + Sum(Weights(lengths, useL2), |lengths|) <= EXACT as real;
    WholeAtLeast(prior[0]);
    forall i | 0 <= i < |lengths|
      ensures FloatWeight(lengths[i], useL2, rnd) == Weight(lengths[i], useL2) && Natural(Weight(lengths[i], useL2))
    {
      EachAtMostSum(lengths, useL2, i, |lengths|);
      WeightIsExact(lengths[i], useL2, rnd);
    }
  }

  lemma WholeAtLeast(x: real)
    requires Natural(x)
    ensures x >= 0.0
  {
  }

  lemma PickedSum(order: seq<nat>, ws: seq<real>)
    requires Permutes(order, |ws|) && forall k | 0 <= k < |order| :: order[k] < |ws|
    ensures |order| == |ws| && Sum(Picked(ws, order), |ws|) == Sum(ws, |ws|)
  {
    hide Sum, SumAlong, Permutes;
    PermutesFacts(order, |ws|);
    PermutesRange(order, |ws|);
    var n := |ws|;
    SumAlongPicked(ws, order, n);
    SumAlongPicked(ws, Range(n), n);
    assert order[..n] == order && Range(n)[..n] == Range(n) && Picked(ws, Range(n)) == ws;
    SumIgnoresOrder(ws, order, Range(n));
  }

  lemma PermutesRange(order: seq<nat>, n: nat)
    requires Permutes(order, n)
    ensures multiset(order) == multiset(Range(n))
  {
  }

  /**
   While loads stay whole and within the integers a float64 holds, rounding
   changes nothing: the source's loop returns exactly the balanced assignment.
   */
  lemma AssignedIffBalanced(lengths: seq<Option<nat>>, prior: seq<real>, useL2: bool, rnd: Rounding, groups: seq<nat>)
    requires KeepsIntegers(rnd) && ExactLoads(lengths, prior, useL2) && prior != []
    ensures Assigned(lengths, prior, useL2, rnd, groups) <==> Balanced(lengths, prior, useL2, groups)
  {
    hide Weight, FloatWeight, FloatWeights, Sum, KeepsIntegers, Natural, PlacementOrder, Spread, Greedy;
    var order, ws := PlacementOrder(lengths), Weights(lengths, useL2);
    OrderPermutes(lengths);
    PermutesFacts(order, |lengths|);
    WeightsAreExact(lengths, prior, useL2, rnd);
    PickedSum(order, ws);
    var picked := Picked(ws, order);
    assert Budget(prior, picked);
    ExactSpreadIsGreedy(prior, picked, rnd);
    if Balanced(lengths, prior, useL2, groups) { OneGreedy(prior, Picked(groups, order), Spread(prior, picked, |picked|, rnd), picked); }
  }

  lemma OneGreedy(prior: seq<real>, gs: seq<nat>, hs: seq<nat>, ws: seq<real>)
    requires Greedy(prior, gs, ws) && Greedy(prior, hs, ws)
    ensures gs == hs
  {
    GreedyIsUnique(prior, gs, hs, ws, |ws|);
    assert gs[..|ws|] == gs && hs[..|ws|] == hs;
  }

  // ---- the assignment -------------------------------------------------------------------------

  function PriorLoad(prior: Option<seq<real>>, numDp: nat, rnd: Rounding): (load: seq<real>)
    ensures |load| == if prior.Some? then |prior.value| else numDp
  {
    if prior.Some? then seq(|prior.value|, q requires 0 <= q < |prior.value| => rnd(prior.value[q])) else seq(numDp, _ => 0.0)
  }

  lemma PriorIsExact(priorLoad: Option<seq<real>>, numDp: nat, rnd: Rounding, lengths: seq<Option<nat>>, useL2: bool)
    requires KeepsIntegers(rnd)
    requires priorLoad.Some? ==> ExactLoads(lengths, priorLoad.value, useL2)
    ensures PriorLoad(priorLoad, numDp, rnd) == match priorLoad case Some(p) => p case None => seq(numDp, _ => 0.0)
  {
    if priorLoad.Some? {
      WeightsSum(lengths, useL2, |lengths|);
      forall q | 0 <= q < |priorLoad.value| ensures rnd(priorLoad.value[q]) == priorLoad.value[q] {
        assert Natural(priorLoad.value[q]);
        RoundedAlike(rnd, priorLoad.value[q]);
      }
    }
  }

  method AssignDecodeDpGroups(lengths: seq<Option<nat>>, numDp: int, priorLoad: Option<seq<real>>, useL2: bool,
                              rnd: Rounding)
    returns (r: Option<seq<nat>>)
    ensures r.None? <==> numDp <= 0 || (priorLoad.Some? && |priorLoad.value| != numDp)
    ensures r.Some? ==> Assigned(lengths, PriorLoad(priorLoad, numDp, rnd), useL2, rnd, r.value)
    ensures r.Some? && KeepsIntegers(rnd) ==>
              var prior := match priorLoad case Some(p) => p case None => seq(numDp, _ => 0.0);
              ExactLoads(lengths, prior, useL2) ==> Levelled(lengths, prior, useL2, r.value)
  {
    if numDp <= 0 || (priorLoad.Some? && |priorLoad.value| != numDp) { return None; }
    hide Permutes, PlacementOrder, PriorLoad, Spread;
    var load, order := PriorLoad(priorLoad, numDp, rnd), PlacementOrder(lengths);
    OrderPermutes(lengths);
    PermutesFacts(order, |lengths|);
    var groups := PlaceAll(lengths, order, load, useL2, rnd);
    r := Some(groups);
    ghost var prior := match priorLoad case Some(p) => p case None => seq(numDp, _ => 0.0);
    if KeepsIntegers(rnd) && ExactLoads(lengths, prior, useL2) {
      PriorIsExact(priorLoad, numDp, rnd, lengths, useL2);
      AssignedIffBalanced(lengths, prior, useL2, rnd, groups);
      BalancedIff(lengths, prior, useL2, groups);
    }
  }

  /** The loop over the sequences in placement order. */
  method PlaceAll(lengths: seq<Option<nat>>, order: seq<nat>, start: seq<real>, useL2: bool, rnd: Rounding)
    returns (groups: seq<nat>)
    requires start != [] && |order| == |lengths| && (forall k | 0 <= k < |order| :: order[k] < |lengths|)
    requires forall j, k | 0 <= j < k < |order| :: order[j] != order[k]
    ensures |groups| == |lengths|
    ensures Picked(groups, order) == Spread(start, Picked(FloatWeights(lengths, useL2, rnd), order), |order|, rnd)
  {
    ghost var ws := Picked(FloatWeights(lengths, useL2, rnd), order);
    var load := start;
    groups := seq(|lengths|, _ => 0);
    NothingRecorded(groups, order);
    hide Recorded, FloatWeights, FloatWeight, FirstLeast, IsFirstLeast, Charge;
    for t := 0 to |order|
      invariant |groups| == |lengths| && Recorded(groups, order, Spread(start, ws, t, rnd))
      invariant load == LoadAfter(start, ws, t, rnd)
    {
      hide Spread, LoadAfter;
      var i := order[t];
      SpreadStep(start, ws, t, rnd);
      var g;
      g, load := ChargeLeast(load, FloatWeight(lengths[i], useL2, rnd), rnd);
      RecordOne(groups, order, Spread(start, ws, t, rnd), g);
      groups := groups[i := g];
    }
    RecordedAll(groups, order, Spread(start, ws, |order|, rnd));
  }

  lemma NothingRecorded(groups: seq<nat>, order: seq<nat>)
    ensures Recorded(groups, order, [])
  {
  }

  lemma NothingPlaced(prior: seq<real>, ws: seq<real>)
    ensures Tracks(prior, [], ws, prior) && Decided(prior, [], ws)
  {
  }

  lemma RecordedAll(groups: seq<nat>, order: seq<nat>, placed: seq<nat>)
    requires |placed| == |order| && Recorded(groups, order, placed)
    requires forall k | 0 <= k < |order| :: order[k] < |groups|
    ensures Picked(groups, order) == placed
  {
  }

  /** The jobs placed so far have their groups written at their input positions. */
  ghost predicate Recorded(groups: seq<nat>, order: seq<nat>, placed: seq<nat>) {
    && |placed| <= |order|
    && forall k | 0 <= k < |placed| :: order[k] < |groups| && groups[order[k]] == placed[k]
  }

  lemma RecordOne(groups: seq<nat>, order: seq<nat>, placed: seq<nat>, g: nat)
    requires Recorded(groups, order, placed) && |placed| < |order| && order[|placed|] < |groups|
    requires forall j, k | 0 <= j < k < |order| :: order[j] != order[k]
    ensures Recorded(groups[order[|placed|] := g], order, placed + [g])
  {
  }

  /** `load` is what each group carries after the jobs placed so far. */
  ghost predicate Tracks(prior: seq<real>, placed: seq<nat>, ws: seq<real>, load: seq<real>)
    requires |placed| <= |ws|
  {
    && |load| == |prior|
    && forall q: nat | q < |prior| :: load[q] == Load(prior, placed, ws, q, |placed|)
  }

  ghost predicate Decided(prior: seq<real>, placed: seq<nat>, ws: seq<real>)
    requires |placed| <= |ws|
  {
    forall k | 0 <= k < |placed| :: Least(prior, placed, ws, placed[k], k)
  }

  method ChargeLeast(load: seq<real>, w: real, rnd: Rounding) returns (g: nat, after: seq<real>)
    requires load != []
    ensures g == FirstLeast(load) && after == Charge(load, w, rnd)
  {
    g := LeastLoaded(load);
    after := load[g := rnd(load[g] + w)];
  }

  method LeastLoaded(load: seq<real>) returns (g: nat)
    requires load != []
    ensures g == FirstLeast(load)
  {
    g := 0;
    for r := 1 to |load|
      invariant g < r && g == FirstLeast(load[..r])
    {
      assert load[..r + 1][..r] == load[..r];
      if load[r] < load[g] { g := r; }
    }
    assert load[..|load|] == load;
  }

  lemma {:induction false} LoadOfPrefix(gs: seq<nat>, ws: seq<real>, g: nat, q: nat, n: nat)
    requires n <= |gs| && n <= |ws|
    ensures LoadOn(gs + [g], ws, q, n) == LoadOn(gs, ws, q, n)
  {
    if n > 0 { LoadOfPrefix(gs, ws, g, q, n - 1); }
  }

  lemma LeastInPrefix(prior: seq<real>, gs: seq<nat>, ws: seq<real>, g: nat, x: nat, k: nat)
    requires k <= |gs| <= |ws| && Least(prior, gs, ws, x, k)
    ensures Least(prior, gs + [g], ws, x, k)
  {
    forall q: nat | q < |prior| ensures Load(prior, gs + [g], ws, q, k) == Load(prior, gs, ws, q, k) {
      LoadOfPrefix(gs, ws, g, q, k);
    }
  }

  /** Placing the next job leaves earlier decisions standing and adds its weight to its group. */
  lemma PlaceOne(prior: seq<real>, gs: seq<nat>, ws: seq<real>, load: seq<real>, g: nat)
    requires |gs| < |ws| && Tracks(prior, gs, ws, load) && Decided(prior, gs, ws)
    requires IsFirstLeast(load, g)
    ensures Tracks(prior, gs + [g], ws, load[g := load[g] + ws[|gs|]]) && Decided(prior, gs + [g], ws)
  {
    forall q: nat | q < |prior| ensures LoadOn(gs + [g], ws, q, |gs|) == LoadOn(gs, ws, q, |gs|) {
      LoadOfPrefix(gs, ws, g, q, |gs|);
    }
    assert Least(prior, gs, ws, g, |gs|);
    forall k | 0 <= k < |gs + [g]| ensures Least(prior, gs + [g], ws, (gs + [g])[k], k) {
      LeastInPrefix(prior, gs, ws, g, (gs + [g])[k], k);
    }
  }
}
