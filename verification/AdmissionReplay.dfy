/** The workload builder's replay of decode admission for one batch holding every row. */
module AdmissionReplay {
  import opened Arith
  import opened Options
  import opened Sorting
  import opened Reals
  import opened LeastLoad
  import opened DecodeGroups

  const PAGE_TOKENS: nat := 64
  const INITIAL_BUFFER_TOKENS: nat := 32 * PAGE_TOKENS

  datatype Admission = Admission(capacity: int, rankPages: seq<nat>, rankRows: seq<nat>, utilization: real, fits: bool)

  /** The pages one row reserves: its prompt and the first buffer, or its whole completion if shorter. */
  function ReservedPages(tokens: nat, maxCompletion: nat): (pages: nat)
    ensures (pages - 1) * PAGE_TOKENS < Min(tokens + INITIAL_BUFFER_TOKENS, tokens + maxCompletion) <= pages * PAGE_TOKENS
  {
    var reserve := Min(tokens + INITIAL_BUFFER_TOKENS, tokens + maxCompletion);
    CeilDivBounds(reserve, PAGE_TOKENS);
    CeilDiv(reserve, PAGE_TOKENS)
  }

  /** `int(x)`: toward zero. */
  function Truncate(x: real): (n: int)
    ensures TowardZero(x, n)
  {
    if x >= 0.0 then x.Floor else -((-x).Floor)
  }

  /** `n` is the last whole number between zero and `x`. */
  ghost predicate TowardZero(x: real, n: int) {
    if x >= 0.0 then n as real <= x < n as real + 1.0 else n as real - 1.0 < x <= n as real
  }

  function Lengths(tokens: seq<nat>): (ls: seq<Option<nat>>)
    ensures |ls| == |tokens| && forall i | 0 <= i < |ls| :: ls[i] == Some(tokens[i])
  {
    seq(|tokens|, i requires 0 <= i < |tokens| => Some(tokens[i]))
  }

  function Each(f: nat -> real, tokens: seq<nat>): (v: seq<real>)
    ensures |v| == |tokens| && forall i | 0 <= i < |v| :: v[i] == f(tokens[i])
  {
    seq(|tokens|, i requires 0 <= i < |tokens| => f(tokens[i]))
  }

  /** The load one row adds, as floats compute it. */
  function Square(rnd: Rounding): nat -> real { (t: nat) => rnd(Squared(rnd(t as real))) }

  function One(t: nat): real { 1.0 }

  function Zeros(n: nat): seq<real> { seq(n, _ => 0.0) }

  // ---- sorting the lengths is sorting the rows ------------------------------------------

  function Longer(): (nat, nat) -> bool { (a: nat, b: nat) => a >= b }

  lemma {:induction false} PickedMultiset(s: seq<nat>, xs: seq<nat>, ys: seq<nat>)
    requires multiset(xs) == multiset(ys)
    requires (forall k | 0 <= k < |xs| :: xs[k] < |s|) && forall k | 0 <= k < |ys| :: ys[k] < |s|
    ensures multiset(Picked(s, xs)) == multiset(Picked(s, ys))
  {
    if xs == [] {
      assert |multiset(ys)| == 0;
    } else {
      assert xs[0] in multiset(ys);
      var k: nat :| k < |ys| && ys[k] == xs[0];
      RestAgrees(xs, ys, k);
      var xRest, yRest := xs[..0] + xs[1..], ys[..k] + ys[k + 1..];
      PickedMultiset(s, xRest, yRest);
      PickedWithout(s, xs, 0);
      PickedWithout(s, ys, k);
    }
  }

  lemma PickedWithout(s: seq<nat>, xs: seq<nat>, k: nat)
    requires (forall k | 0 <= k < |xs| :: xs[k] < |s|) && k < |xs|
    ensures multiset(Picked(s, xs)) == multiset(Picked(s, xs[..k] + xs[k + 1..])) + multiset{s[xs[k]]}
  {
    var p := Picked(s, xs);
    assert p == p[..k] + [p[k]] + p[k + 1..];
    assert Picked(s, xs[..k] + xs[k + 1..]) == p[..k] + p[k + 1..];
  }

  /** The balancer's rows, in placement order, have the lengths the replay sorts. */
  lemma SortedLengths(tokens: seq<nat>)
    ensures var order := PlacementOrder(Lengths(tokens));
            && Permutes(order, |tokens|) && |order| == |tokens| && (forall k | 0 <= k < |order| :: order[k] < |tokens|)
            && Picked(tokens, order) == SortBy(tokens, Longer())
  {
    var ls, ge := Lengths(tokens), Longer();
    var order := PlacementOrder(ls);
    OrderPermutes(ls);
    PermutesFacts(order, |tokens|);
    var picked := Picked(tokens, order);
    assert Sorted(picked, ge) by {
      SortIsSorted(Range(|ls|), LongerFirst(ls));
      forall i, j | 0 <= i < j < |picked| ensures ge(picked[i], picked[j]) {
        assert LongerFirst(ls)(order[i], order[j]);
      }
    }
    PickedMultiset(tokens, order, Range(|tokens|));
    assert Picked(tokens, Range(|tokens|)) == tokens;
    SortIsPermutation(tokens, ge);
    SortIsSorted(tokens, ge);
    SortedIsUnique(picked, SortBy(tokens, ge), ge);
  }

  lemma SortedWeights(tokens: seq<nat>, rnd: Rounding)
    ensures var order := PlacementOrder(Lengths(tokens));
            && (forall k | 0 <= k < |order| :: order[k] < |tokens|)
            && Picked(FloatWeights(Lengths(tokens), true, rnd), order) == Each(Square(rnd), SortBy(tokens, Longer()))
  {
    SortedLengths(tokens);
    var ls := Lengths(tokens);
    var order, sorted := PlacementOrder(ls), SortBy(tokens, Longer());
    hide SortBy, PlacementOrder;
    forall k | 0 <= k < |order| ensures FloatWeights(ls, true, rnd)[order[k]] == Square(rnd)(sorted[k]) {
      assert sorted[k] == Picked(tokens, order)[k];
      assert ls[order[k]] == Some(sorted[k]);
    }
  }

  /** Where the replay puts the sorted rows. */
  function RanksOf(tokens: seq<nat>, world: nat, rnd: Rounding): seq<nat>
    requires world > 0
  {
    var ws := Each(Square(rnd), SortBy(tokens, Longer()));
    Spread(Zeros(world), ws, |ws|, rnd)
  }

  /** Whatever is added up per row, the replay's ranks and the balancer's groups hold the same. */
  lemma ReplayTotals(tokens: seq<nat>, ranks: seq<nat>, groups: seq<nat>, world: nat, rnd: Rounding, f: nat -> real, q: nat)
    requires world > 0 && Assigned(Lengths(tokens), Zeros(world), true, rnd, groups)
    requires ranks == RanksOf(tokens, world, rnd)
    ensures LoadOn(ranks, Each(f, SortBy(tokens, Longer())), q, |ranks|) == LoadOn(groups, Each(f, tokens), q, |groups|)
  {
    SortedLengths(tokens);
    SortedWeights(tokens, rnd);
    hide SortBy, PlacementOrder, LoadOn, Square, Spread;
    var order, sorted := PlacementOrder(Lengths(tokens)), SortBy(tokens, Longer());
    assert ranks == Picked(groups, order);
    assert Picked(Each(f, tokens), order) == Each(f, sorted);
    LoadIgnoresOrder(order, groups, Each(f, tokens), q);
  }

  // ---- the replay ------------------------------------------------------------------------

  /** Per rank, the rows and pages of the sequences the balancer's `groups` put there. */
  ghost predicate Replays(tokens: seq<nat>, maxCompletion: nat, groups: seq<nat>, rankPages: seq<nat>, rankRows: seq<nat>)
    requires |groups| == |tokens|
  {
    && |rankPages| == |rankRows|
    && forall q: nat | q < |rankRows| ::
         && rankRows[q] as real == LoadOn(groups, Each(One, tokens), q, |tokens|)
         && rankPages[q] as real == LoadOn(groups, Each(PagesOf(maxCompletion), tokens), q, |tokens|)
  }

  function PagesOf(maxCompletion: nat): nat -> real {
    (t: nat) => ReservedPages(t, maxCompletion) as real
  }

  /** The admitted share of the pool in whole pages. */
  function Capacity(poolPages: nat, fraction: real, rnd: Rounding): int {
    Truncate(rnd(rnd(poolPages as real) * fraction))
  }

  method AdmissionCheck(tokens: seq<nat>, maxCompletion: nat, worldSize: int, poolPages: nat, fraction: real,
                        maxRankRows: int, rnd: Rounding)
    returns (r: Option<Admission>)
    ensures r.None? <==> worldSize <= 0 || Capacity(poolPages, fraction, rnd) == 0
    ensures r.Some? ==> |r.value.rankRows| == |r.value.rankPages| == worldSize
    ensures r.Some? ==> forall groups | Assigned(Lengths(tokens), Zeros(worldSize), true, rnd, groups) ::
                          Replays(tokens, maxCompletion, groups, r.value.rankPages, r.value.rankRows)
    ensures r.Some? ==> r.value.capacity == Capacity(poolPages, fraction, rnd)
    ensures r.Some? ==> TowardZero(rnd(rnd(poolPages as real) * fraction), r.value.capacity)
    ensures worldSize > 0 ==> (r.None? <==> -1.0 < rnd(rnd(poolPages as real) * fraction) < 1.0)
    ensures r.Some? ==> (r.value.fits <==>
                         forall q | 0 <= q < worldSize ::
                           r.value.rankPages[q] <= r.value.capacity && r.value.rankRows[q] <= maxRankRows)
    ensures r.Some? ==> exists q :: 0 <= q < worldSize
                                    && r.value.utilization == rnd(r.value.rankPages[q] as real / r.value.capacity as real)
                                    && forall b | 0 <= b < worldSize :: r.value.rankPages[b] <= r.value.rankPages[q]
  {
    if worldSize <= 0 { return None; }
    var rankPages, rankRows := PlaceRows(tokens, maxCompletion, worldSize, rnd);
    var capacity := Capacity(poolPages, fraction, rnd);
    if capacity == 0 { return None; }
    var most := MaxOf(rankPages);
    var rows := MaxOf(rankRows);
    r := Some(Admission(capacity, rankPages, rankRows, rnd(most as real / capacity as real),
                        most <= capacity && rows <= maxRankRows));
  }

  method MaxOf(xs: seq<nat>) returns (most: nat)
    requires xs != []
    ensures most in xs && forall q | 0 <= q < |xs| :: xs[q] <= most
  {
    most := xs[0];
    for i := 1 to |xs|
      invariant most in xs && forall q | 0 <= q < i :: xs[q] <= most
    {
      if xs[i] > most { most := xs[i]; }
    }
  }

  /** The counters are the totals of the rows placed so far. */
  ghost predicate Counted(ranks: seq<nat>, vals: seq<real>, counts: seq<nat>)
    requires |ranks| <= |vals|
  {
    forall q: nat | q < |counts| :: counts[q] as real == LoadOn(ranks, vals, q, |ranks|)
  }

  lemma CountOne(ranks: seq<nat>, vals: seq<real>, counts: seq<nat>, g: nat, pages: nat)
    requires |ranks| < |vals| && g < |counts| && Counted(ranks, vals, counts) && vals[|ranks|] == pages as real
    ensures Counted(ranks + [g], vals, counts[g := counts[g] + pages])
  {
    forall q: nat | q < |counts| ensures LoadOn(ranks + [g], vals, q, |ranks|) == LoadOn(ranks, vals, q, |ranks|) {
      LoadOfPrefix(ranks, vals, g, q, |ranks|);
    }
  }

  ghost predicate BothCounted(ranks: seq<nat>, sorted: seq<nat>, maxCompletion: nat, rankPages: seq<nat>, rankRows: seq<nat>)
    requires |ranks| <= |sorted|
  {
    Counted(ranks, Each(PagesOf(maxCompletion), sorted), rankPages) && Counted(ranks, Each(One, sorted), rankRows)
  }

  lemma CountBoth(ranks: seq<nat>, sorted: seq<nat>, maxCompletion: nat, rankPages: seq<nat>, rankRows: seq<nat>, g: nat)
    requires |ranks| < |sorted| && g < |rankPages| == |rankRows|
    requires BothCounted(ranks, sorted, maxCompletion, rankPages, rankRows)
    ensures var more := ReservedPages(sorted[|ranks|], maxCompletion);
            BothCounted(ranks + [g], sorted, maxCompletion, rankPages[g := rankPages[g] + more], rankRows[g := rankRows[g] + 1])
  {
    hide Counted, ReservedPages;
    CountOne(ranks, Each(PagesOf(maxCompletion), sorted), rankPages, g, ReservedPages(sorted[|ranks|], maxCompletion));
    CountOne(ranks, Each(One, sorted), rankRows, g, 1);
  }

  method PlaceRows(tokens: seq<nat>, maxCompletion: nat, world: nat, rnd: Rounding) returns (rankPages: seq<nat>, rankRows: seq<nat>)
    requires world > 0
    ensures |rankPages| == |rankRows| == world
    ensures forall groups | Assigned(Lengths(tokens), Zeros(world), true, rnd, groups) ::
              Replays(tokens, maxCompletion, groups, rankPages, rankRows)
  {
    var sorted := SortBy(tokens, Longer());
    ghost var ws := Each(Square(rnd), sorted);
    var load := Zeros(world);
    rankPages, rankRows := seq(world, _ => 0), seq(world, _ => 0);
    for t := 0 to |sorted|
      invariant |rankPages| == |rankRows| == world && load == LoadAfter(Zeros(world), ws, t, rnd)
      invariant BothCounted(Spread(Zeros(world), ws, t, rnd), sorted, maxCompletion, rankPages, rankRows)
    {
      hide BothCounted, SortBy, ReservedPages, Spread, LoadAfter, FirstLeast, IsFirstLeast, Square, Charge;
      SpreadStep(Zeros(world), ws, t, rnd);
      LeastIsGroup(load);
      var rank;
      rank, load := ChargeLeast(load, Square(rnd)(sorted[t]), rnd);
      CountBoth(Spread(Zeros(world), ws, t, rnd), sorted, maxCompletion, rankPages, rankRows, rank);
      rankRows := rankRows[rank := rankRows[rank] + 1];
      rankPages := rankPages[rank := rankPages[rank] + ReservedPages(sorted[t], maxCompletion)];
    }
    ghost var ranks := RanksOf(tokens, world, rnd);
    forall groups | Assigned(Lengths(tokens), Zeros(world), true, rnd, groups)
      ensures Replays(tokens, maxCompletion, groups, rankPages, rankRows)
    {
      ReplayOf(tokens, maxCompletion, ranks, groups, world, rnd, rankPages, rankRows);
    }
  }

  lemma ReplayOf(tokens: seq<nat>, maxCompletion: nat, ranks: seq<nat>, groups: seq<nat>, world: nat, rnd: Rounding,
                 rankPages: seq<nat>, rankRows: seq<nat>)
    requires world > 0 && Assigned(Lengths(tokens), Zeros(world), true, rnd, groups) && |rankPages| == |rankRows| == world
    requires ranks == RanksOf(tokens, world, rnd)
    requires Counted(ranks, Each(PagesOf(maxCompletion), SortBy(tokens, Longer())), rankPages)
    requires Counted(ranks, Each(One, SortBy(tokens, Longer())), rankRows)
    ensures Replays(tokens, maxCompletion, groups, rankPages, rankRows)
  {
    forall q: nat | q < world
      ensures rankRows[q] as real == LoadOn(groups, Each(One, tokens), q, |tokens|)
      ensures rankPages[q] as real == LoadOn(groups, Each(PagesOf(maxCompletion), tokens), q, |tokens|)
    {
      ReplayTotals(tokens, ranks, groups, world, rnd, One, q);
      ReplayTotals(tokens, ranks, groups, world, rnd, PagesOf(maxCompletion), q);
    }
  }

  /** Replaying a batch and balancing it from empty groups agree on every rank, however floats round. */
  method ReplayMatchesBalancer(tokens: seq<nat>, maxCompletion: nat, worldSize: int, poolPages: nat, fraction: real,
                               maxRankRows: int, rnd: Rounding)
    returns (groups: Option<seq<nat>>, replay: Option<Admission>)
    ensures groups.Some? <==> worldSize > 0
    ensures replay.Some? ==> groups.Some? && |groups.value| == |tokens|
                             && Replays(tokens, maxCompletion, groups.value, replay.value.rankPages, replay.value.rankRows)
  {
    groups := AssignDecodeDpGroups(Lengths(tokens), worldSize, None, true, rnd);
    replay := AdmissionCheck(tokens, maxCompletion, worldSize, poolPages, fraction, maxRankRows, rnd);
    if replay.Some? { assert PriorLoad(None, worldSize, rnd) == Zeros(worldSize); }
  }
}
