/**
 The host-KV growth planner: which sequences give up their host pages so that
 the remaining active rows can grow before they append.
 */
module HostGrowthPlanner {
  import opened Options
  import opened Arith
  import opened Sorting

  datatype Strategy = ShortestFirst | LongestFirst | Fifo

  /** One eviction candidate with its state; a missing `globalIdx` sorts last. */
  datatype Candidate = Candidate(
    uuid: string, priority: int, decodedLength: int, globalIdx: Option<int>, pages: int)

  // ---- priority order --------------------------------------------------------

  predicate TailLe(a: Candidate, b: Candidate) {
    if a.globalIdx != b.globalIdx then IndexLe(a.globalIdx, b.globalIdx) else StringLe(a.uuid, b.uuid)
  }

  function LengthKey(s: Strategy, c: Candidate): int {
    match s case ShortestFirst => c.decodedLength case LongestFirst => -c.decodedLength case Fifo => 0
  }

  predicate CandidateLe(s: Strategy, a: Candidate, b: Candidate) {
    if a.priority != b.priority then a.priority < b.priority
    else if LengthKey(s, a) != LengthKey(s, b) then LengthKey(s, a) < LengthKey(s, b)
    else TailLe(a, b)
  }

  function Order(s: Strategy): (Candidate, Candidate) -> bool {
    (a, b) => CandidateLe(s, a, b)
  }

  lemma TailLeTotal(a: Candidate, b: Candidate)
    ensures TailLe(a, b) || TailLe(b, a)
    ensures TailLe(a, b) && TailLe(b, a) ==> a.uuid == b.uuid
  {
    StringLeTotal(a.uuid, b.uuid);
  }

  lemma TailLeTransitive(a: Candidate, b: Candidate, c: Candidate)
    requires TailLe(a, b) && TailLe(b, c)
    ensures TailLe(a, c)
  {
    if a.globalIdx == b.globalIdx == c.globalIdx { StringLeTransitive(a.uuid, b.uuid, c.uuid); }
  }

  lemma OrderIsTotal(s: Strategy)
    ensures TotalPreorder(Order(s))
  {
    var le := Order(s);
    forall a, b
      ensures le(a, b) || le(b, a)
    {
      TailLeTotal(a, b);
    }
    forall a, b, c | le(a, b) && le(b, c)
      ensures le(a, c)
    {
      if TailLe(a, b) && TailLe(b, c) { TailLeTransitive(a, b, c); }
    }
  }

  ghost predicate DistinctUuids(cs: seq<Candidate>) {
    forall a, b | a in cs && b in cs && a.uuid == b.uuid :: a == b
  }

  lemma OrderSeparates(s: Strategy, cs: seq<Candidate>)
    requires DistinctUuids(cs)
    ensures DistinctKeys(cs, Order(s))
  {
    var le := Order(s);
    forall a, b | a in cs && b in cs && le(a, b) && le(b, a)
      ensures a == b
    {
      TailLeTotal(a, b);
    }
  }

  // ---- growth debt -------------------------------------------------------------

  ghost function SumMap(m: map<string, int>): int
    decreases |m|
  {
    if m == map[] then 0
    else
      assert m.Keys != {};
      var k :| k in m;
      m[k] + SumMap(m - {k})
  }

  lemma {:induction false} SumMapRemove(m: map<string, int>, k: string)
    requires k in m
    ensures SumMap(m) == m[k] + SumMap(m - {k})
    decreases |m|
  {
    assert m != map[];
    var j :| j in m && SumMap(m) == m[j] + SumMap(m - {j});
    if j != k {
      SumMapRemove(m - {j}, k);
      SumMapRemove(m - {k}, j);
      assert m - {j} - {k} == m - {k} - {j};
    }
  }

  lemma {:induction false} SumMapPositive(m: map<string, int>)
    requires forall k | k in m :: m[k] > 0
    ensures SumMap(m) >= 0 && (SumMap(m) == 0 <==> m == map[])
    decreases |m|
  {
    if m != map[] {
      var j :| j in m && SumMap(m) == m[j] + SumMap(m - {j});
      SumMapPositive(m - {j});
    }
  }

  /** Positive growth requests of active, uncompleted rows; a repeated uuid keeps its last request. */
  function GrowthMap(uuids: seq<string>, pages: seq<int>, active: seq<string>, completed: seq<string>): map<string, int>
    requires |uuids| == |pages|
  {
    if uuids == [] then map[]
    else
      var n := |uuids| - 1;
      var m := GrowthMap(uuids[..n], pages[..n], active, completed);
      if pages[n] > 0 && uuids[n] in active && uuids[n] !in completed then m[uuids[n] := pages[n]] else m
  }

  lemma {:induction false} GrowthMapPositive(uuids: seq<string>, pages: seq<int>, active: seq<string>, completed: seq<string>)
    requires |uuids| == |pages|
    ensures var m := GrowthMap(uuids, pages, active, completed);
            forall u | u in m :: m[u] > 0 && u in uuids && u in active && u !in completed
    decreases |uuids|
  {
    if uuids != [] {
      var n := |uuids| - 1;
      GrowthMapPositive(uuids[..n], pages[..n], active, completed);
    }
  }

  // ---- what evicting a prefix achieves ----------------------------------------------

  /** Everything the decision depends on besides the candidates. */
  datatype Pool = Pool(growth: map<string, int>, total: int, base: int, margin: int)

  predicate IsEligible(c: Candidate, completed: seq<string>) { c.uuid !in completed && c.pages > 0 }

  /** Candidates that may be evicted, in order, each uuid once. */
  function Eligible(cs: seq<Candidate>, completed: seq<string>): seq<Candidate> {
    if cs == [] then []
    else
      var n := |cs| - 1;
      var before := Eligible(cs[..n], completed);
      if IsEligible(cs[n], completed) && cs[n].uuid !in Uuids(before) then before + [cs[n]] else before
  }

  function Uuids(cs: seq<Candidate>): seq<string> {
    seq(|cs|, i requires 0 <= i < |cs| => cs[i].uuid)
  }

  function FreedPages(cs: seq<Candidate>): int {
    if cs == [] then 0 else FreedPages(cs[..|cs| - 1]) + cs[|cs| - 1].pages
  }

  function WithoutEvicted(growth: map<string, int>, gone: seq<Candidate>): map<string, int> {
    growth - (set u | u in Uuids(gone))
  }

  function Expected(p: Pool, gone: seq<Candidate>): int {
    Min(Max(p.total, 0), p.base + FreedPages(gone))
  }

  ghost function Debt(p: Pool, gone: seq<Candidate>): int {
    SumMap(WithoutEvicted(p.growth, gone))
  }

  function Required(margin: int, debt: int): int {
    if debt > 0 then debt + Max(margin, 0) else 0
  }

  /** The headroom test: what is free after evicting `gone` covers the debt that is left. */
  ghost predicate Enough(p: Pool, gone: seq<Candidate>) {
    Expected(p, gone) >= Required(p.margin, Debt(p, gone))
  }

  /** The first prefix length, from `n` on, that passes the headroom test, or all of them. */
  ghost function StopAt(p: Pool, order: seq<Candidate>, n: nat): nat
    requires n <= |order|
    decreases |order| - n
  {
    if n == |order| || Enough(p, order[..n]) then n else StopAt(p, order, n + 1)
  }

  lemma {:induction false} StopAtIsFirst(p: Pool, order: seq<Candidate>, n: nat)
    requires n <= |order|
    ensures var k := StopAt(p, order, n);
            && n <= k <= |order|
            && (forall m | n <= m < k :: !Enough(p, order[..m]))
            && (k < |order| ==> Enough(p, order[..k]))
    decreases |order| - n
  {
    if n < |order| && !Enough(p, order[..n]) { StopAtIsFirst(p, order, n + 1); }
  }

  // ---- the plan ---------------------------------------------------------------------

  datatype Request = Request(
    active: seq<string>, completed: seq<string>, growthUuids: seq<string>, growthPages: seq<int>,
    freePages: int, totalPages: int, completedPages: int, safetyMargin: int, strategy: Strategy)

  datatype Plan = Plan(
    evicted: seq<string>, freedPages: int, growthUuids: seq<string>, growthPages: seq<int>,
    growthNeeded: int, expectedFree: int, requiredFree: int, feasible: bool)

  function PoolOf(r: Request): Pool
    requires |r.growthUuids| == |r.growthPages|
  {
    Pool(GrowthMap(r.growthUuids, r.growthPages, r.active, r.completed), r.totalPages,
         Min(Max(r.totalPages, 0), Max(r.freePages, 0) + Max(r.completedPages, 0)), r.safetyMargin)
  }

  function EvictionOrder(r: Request, cs: seq<Candidate>): seq<Candidate> {
    Eligible(SortBy(cs, Order(r.strategy)), r.completed)
  }

  function Remaining(uuids: seq<string>, growth: map<string, int>): seq<string> {
    if uuids == [] then []
    else
      var n := |uuids| - 1;
      Remaining(uuids[..n], growth) + (if uuids[n] in growth then [uuids[n]] else [])
  }

  function PagesOf(uuids: seq<string>, growth: map<string, int>): seq<int>
    requires forall u | u in uuids :: u in growth
  {
    seq(|uuids|, i requires 0 <= i < |uuids| => growth[uuids[i]])
  }

  lemma {:induction false} RemainingKnown(uuids: seq<string>, growth: map<string, int>)
    ensures forall u :: u in Remaining(uuids, growth) <==> u in uuids && u in growth
  {
    if uuids != [] {
      var n := |uuids| - 1;
      RemainingKnown(uuids[..n], growth);
      assert uuids == uuids[..n] + [uuids[n]];
    }
  }

  /** The plan after evicting exactly `gone`. */
  ghost function PlanFor(r: Request, gone: seq<Candidate>): Plan
    requires |r.growthUuids| == |r.growthPages|
  {
    var p := PoolOf(r);
    var left := WithoutEvicted(p.growth, gone);
    var uuids := Remaining(r.growthUuids, left);
    RemainingKnown(r.growthUuids, left);
    Plan(Uuids(gone), FreedPages(gone), uuids, PagesOf(uuids, left), Debt(p, gone), Expected(p, gone),
         Required(p.margin, Debt(p, gone)), Enough(p, gone))
  }

  ghost function PlanOf(r: Request, cs: seq<Candidate>): Plan
    requires |r.growthUuids| == |r.growthPages|
  {
    var order := EvictionOrder(r, cs);
    StopAtIsFirst(PoolOf(r), order, 0);
    PlanFor(r, order[..StopAt(PoolOf(r), order, 0)])
  }

  /**
   The plan evicts the shortest sufficient prefix of the eligible candidates in
   priority order: every shorter prefix misses the headroom, and a plan that is
   not feasible has evicted all of them.
   */
  lemma ShortestSufficientPrefix(r: Request, cs: seq<Candidate>)
    requires |r.growthUuids| == |r.growthPages|
    ensures var plan, order, p := PlanOf(r, cs), EvictionOrder(r, cs), PoolOf(r);
            var k := |plan.evicted|;
            && k <= |order| && plan == PlanFor(r, order[..k])
            && (forall m | 0 <= m < k :: !Enough(p, order[..m]))
            && (plan.feasible || k == |order|)
  {
    StopAtIsFirst(PoolOf(r), EvictionOrder(r, cs), 0);
  }

  lemma {:induction false} FreedNonNegative(cs: seq<Candidate>)
    requires forall i | 0 <= i < |cs| :: cs[i].pages >= 0
    ensures FreedPages(cs) >= 0
  {
    if cs != [] { FreedNonNegative(cs[..|cs| - 1]); }
  }

  /** Eviction is growth-driven: without growth debt a full pool evicts nothing. */
  lemma NoDebtNoEviction(r: Request, cs: seq<Candidate>)
    requires |r.growthUuids| == |r.growthPages| && PoolOf(r).growth == map[]
    ensures PlanOf(r, cs).evicted == [] && PlanOf(r, cs).feasible
  {
    var order := EvictionOrder(r, cs);
    assert WithoutEvicted(map[], order[..0]) == map[];
    assert Enough(PoolOf(r), order[..0]);
  }

  /** A feasible plan with debt leaves the safety margin free once the remaining rows have grown. */
  lemma FeasibleKeepsMargin(r: Request, cs: seq<Candidate>)
    requires |r.growthUuids| == |r.growthPages|
    ensures var plan := PlanOf(r, cs);
            plan.feasible && plan.growthNeeded > 0 ==>
              plan.expectedFree - plan.growthNeeded >= Max(r.safetyMargin, 0)
  {
  }

  /** Every rank plans alike: the order the candidates were gathered in does not matter. */
  lemma PlanIgnoresCandidateOrder(r: Request, cs: seq<Candidate>, cs': seq<Candidate>)
    requires |r.growthUuids| == |r.growthPages|
    requires multiset(cs) == multiset(cs') && DistinctUuids(cs)
    ensures PlanOf(r, cs) == PlanOf(r, cs')
  {
    OrderIsTotal(r.strategy);
    OrderSeparates(r.strategy, cs);
    SortIgnoresInputOrder(cs, cs', Order(r.strategy));
  }

  lemma UuidsMember(cs: seq<Candidate>, u: string)
    ensures u in Uuids(cs) <==> exists i | 0 <= i < |cs| :: cs[i].uuid == u
  {
    if exists i | 0 <= i < |cs| :: cs[i].uuid == u {
      var i :| 0 <= i < |cs| && cs[i].uuid == u;
      assert Uuids(cs)[i] == u;
    }
  }

  ghost predicate EligibleOnce(e: seq<Candidate>, cs: seq<Candidate>, completed: seq<string>) {
    && (forall i | 0 <= i < |e| :: e[i] in cs && IsEligible(e[i], completed))
    && (forall i, j | 0 <= i < j < |e| :: e[i].uuid != e[j].uuid)
  }

  /** The eviction order: eligible candidates only, once each. */
  lemma {:induction false} EligibleIsSound(cs: seq<Candidate>, completed: seq<string>)
    ensures EligibleOnce(Eligible(cs, completed), cs, completed)
    decreases |cs|
  {
    if cs != [] {
      var n := |cs| - 1;
      EligibleIsSound(cs[..n], completed);
      var before, e := Eligible(cs[..n], completed), Eligible(cs, completed);
      UuidsMember(before, cs[n].uuid);
      assert forall i | 0 <= i < |before| :: e[i] == before[i] && before[i] in cs[..n];
      assert cs == cs[..n] + [cs[n]];
    }
  }

  lemma {:induction false} EligibleKeepsOrder(cs: seq<Candidate>, completed: seq<string>, le: (Candidate, Candidate) -> bool)
    requires Sorted(cs, le)
    ensures Sorted(Eligible(cs, completed), le)
    decreases |cs|
  {
    if cs != [] {
      var n := |cs| - 1;
      EligibleKeepsOrder(cs[..n], completed, le);
      EligibleIsSound(cs[..n], completed);
      var before, e := Eligible(cs[..n], completed), Eligible(cs, completed);
      forall i, j | 0 <= i < j < |e|
        ensures le(e[i], e[j])
      {
        if j == |before| {
          assert before[i] in cs[..n];
        }
      }
    }
  }

  /**
   The candidates the plan draws from: exactly the ones that are not completed
   and hold pages, each once, by priority, then decode length, then index.
   */
  lemma EvictionOrderIsByPriority(r: Request, cs: seq<Candidate>)
    ensures var order := EvictionOrder(r, cs);
            && Sorted(order, Order(r.strategy))
            && EligibleOnce(order, cs, r.completed)
            && (forall c | c in cs && IsEligible(c, r.completed) :: c.uuid in Uuids(order))
  {
    var sorted := SortBy(cs, Order(r.strategy));
    OrderIsTotal(r.strategy);
    SortIsSorted(cs, Order(r.strategy));
    SortMembership(cs, Order(r.strategy));
    EligibleKeepsOrder(sorted, r.completed, Order(r.strategy));
    EligibleIsSound(sorted, r.completed);
    forall c | c in cs && IsEligible(c, r.completed)
      ensures c.uuid in Uuids(EvictionOrder(r, cs))
    {
      EligibleIsComplete(sorted, r.completed, c);
    }
  }

  /** No eligible candidate is passed over. */
  lemma {:induction false} EligibleIsComplete(cs: seq<Candidate>, completed: seq<string>, c: Candidate)
    requires c in cs && IsEligible(c, completed)
    ensures c.uuid in Uuids(Eligible(cs, completed))
    decreases |cs|
  {
    var n := |cs| - 1;
    var before, e := Eligible(cs[..n], completed), Eligible(cs, completed);
    assert cs == cs[..n] + [cs[n]];
    assert before <= e;
    assert Uuids(before) <= Uuids(e);
    if c in cs[..n] {
      EligibleIsComplete(cs[..n], completed, c);
      var i :| 0 <= i < |before| && Uuids(before)[i] == c.uuid;
      assert Uuids(e)[i] == c.uuid;
    } else if cs[n].uuid in Uuids(before) {
      var i :| 0 <= i < |before| && Uuids(before)[i] == c.uuid;
      assert Uuids(e)[i] == c.uuid;
    } else {
      assert Uuids(e)[|before|] == c.uuid;
    }
  }

  // ---- reported growth ------------------------------------------------------------------

  ghost predicate NoRepeats(us: seq<string>) {
    forall i, j | 0 <= i < j < |us| :: us[i] != us[j]
  }

  function SumSeq(xs: seq<int>): int {
    if xs == [] then 0 else SumSeq(xs[..|xs| - 1]) + xs[|xs| - 1]
  }

  function Only(m: map<string, int>, us: seq<string>): map<string, int> {
    map u | u in m && u in us :: m[u]
  }

  lemma NoRepeatsSnoc(init: seq<string>, last: string)
    ensures NoRepeats(init + [last]) <==> NoRepeats(init) && last !in init
  {
    var us := init + [last];
    if NoRepeats(us) {
      forall i, j | 0 <= i < j < |init| ensures init[i] != init[j] { assert us[i] != us[j]; }
      forall i | 0 <= i < |init| ensures init[i] != last { assert us[i] != us[|init|]; }
    }
  }

  lemma SumSeqSnoc(xs: seq<int>, x: int)
    ensures SumSeq(xs + [x]) == SumSeq(xs) + x
  {
    assert (xs + [x])[..|xs|] == xs;
  }

  lemma {:induction false} ListedSum(us: seq<string>, m: map<string, int>)
    requires forall k | k in m :: m[k] > 0
    requires forall u | u in us :: u in m
    ensures SumSeq(PagesOf(us, m)) >= SumMap(Only(m, us))
    ensures SumSeq(PagesOf(us, m)) == SumMap(Only(m, us)) <==> NoRepeats(us)
    decreases |us|
  {
    if us == [] {
      assert Only(m, us) == map[];
    } else {
      var n := |us| - 1;
      var init, last := us[..n], us[n];
      assert us == init + [last];
      ListedSum(init, m);
      NoRepeatsSnoc(init, last);
      assert PagesOf(us, m) == PagesOf(init, m) + [m[last]];
      SumSeqSnoc(PagesOf(init, m), m[last]);
      ListedStep(init, last, m);
      hide SumMap, Only, NoRepeats, SumSeq, PagesOf;
    }
  }

  lemma ListedStep(init: seq<string>, last: string, m: map<string, int>)
    requires last in m
    ensures SumMap(Only(m, init + [last])) == SumMap(Only(m, init)) + (if last in init then 0 else m[last])
  {
    var us := init + [last];
    if last in init {
      assert Only(m, us) == Only(m, init);
    } else {
      assert Only(m, us) - {last} == Only(m, init);
      SumMapRemove(Only(m, us), last);
    }
  }

  /** One plan's per-row growth adds up to its total exactly when it lists no row twice. */
  lemma PlanAddsUpIff(r: Request, cs: seq<Candidate>)
    requires |r.growthUuids| == |r.growthPages|
    ensures var plan := PlanOf(r, cs);
            SumSeq(plan.growthPages) == plan.growthNeeded <==> NoRepeats(plan.growthUuids)
  {
    var order := EvictionOrder(r, cs);
    StopAtIsFirst(PoolOf(r), order, 0);
    var gone := order[..StopAt(PoolOf(r), order, 0)];
    GrowthMapPositive(r.growthUuids, r.growthPages, r.active, r.completed);
    var left := WithoutEvicted(PoolOf(r).growth, gone);
    var us := Remaining(r.growthUuids, left);
    RemainingKnown(r.growthUuids, left);
    assert Only(left, us) == left;
    ListedSum(us, left);
  }

  /** No uuid that is to grow is requested twice. */
  ghost predicate RequestedOnce(us: seq<string>, growth: map<string, int>) {
    forall i, j | 0 <= i < j < |us| && us[i] == us[j] :: us[i] !in growth
  }

  lemma RequestedOnceSnoc(init: seq<string>, last: string, growth: map<string, int>)
    ensures RequestedOnce(init + [last], growth) <==> RequestedOnce(init, growth) && (last in growth ==> last !in init)
  {
    var us := init + [last];
    if RequestedOnce(us, growth) {
      forall i, j | 0 <= i < j < |init| && init[i] == init[j] ensures init[i] !in growth { assert us[i] == us[j]; }
      if last in growth {
        forall i | 0 <= i < |init| ensures init[i] != last { assert us[|init|] == last && us[i] == init[i]; }
      }
    }
  }

  lemma {:induction false} RemainingOnceIff(us: seq<string>, growth: map<string, int>)
    ensures NoRepeats(Remaining(us, growth)) <==> RequestedOnce(us, growth)
    decreases |us|
  {
    if us != [] {
      var n := |us| - 1;
      var init, last := us[..n], us[n];
      assert us == init + [last];
      RemainingOnceIff(init, growth);
      RequestedOnceSnoc(init, last, growth);
      RemainingKnown(init, growth);
      if last in growth {
        NoRepeatsSnoc(Remaining(init, growth), last);
      } else {
        assert Remaining(us, growth) == Remaining(init, growth);
      }
    }
  }

  /**
   The listed growth adds up to the reported total, whatever the candidates,
   exactly when the request names no row that is to grow twice; a repeated row
   is listed twice but owed once.
   */
  lemma ReportedGrowthAddsUpIff(r: Request)
    requires |r.growthUuids| == |r.growthPages|
    ensures (forall cs :: SumSeq(PlanOf(r, cs).growthPages) == PlanOf(r, cs).growthNeeded)
            <==> RequestedOnce(r.growthUuids, PoolOf(r).growth)
  {
    hide SumSeq, PoolOf;
    if RequestedOnce(r.growthUuids, PoolOf(r).growth) {
      forall cs ensures SumSeq(PlanOf(r, cs).growthPages) == PlanOf(r, cs).growthNeeded {
        PlanAddsUpIff(r, cs);
        PlanLists(r, cs);
      }
    } else {
      PlanAddsUpIff(r, []);
      PlanLists(r, []);
      assert SumSeq(PlanOf(r, []).growthPages) != PlanOf(r, []).growthNeeded;
    }
  }

  /** A plan lists a row twice only if the request does, and without candidates whenever it does. */
  lemma PlanLists(r: Request, cs: seq<Candidate>)
    requires |r.growthUuids| == |r.growthPages|
    ensures RequestedOnce(r.growthUuids, PoolOf(r).growth) ==> NoRepeats(PlanOf(r, cs).growthUuids)
    ensures cs == [] && !RequestedOnce(r.growthUuids, PoolOf(r).growth) ==> !NoRepeats(PlanOf(r, cs).growthUuids)
  {
    var order := EvictionOrder(r, cs);
    StopAtIsFirst(PoolOf(r), order, 0);
    var gone := order[..StopAt(PoolOf(r), order, 0)];
    var left := WithoutEvicted(PoolOf(r).growth, gone);
    RemainingOnceIff(r.growthUuids, left);
    if cs == [] {
      assert gone == [];
      assert left == PoolOf(r).growth;
    }
  }

  /** A doubled uuid that is to grow by 3 pages: 6 pages are listed, 3 are owed. */
  lemma DoubledGrowthIsListedTwice()
    ensures var r := Request(["a"], [], ["a", "a"], [3, 3], 9, 9, 0, 0, ShortestFirst);
            PlanOf(r, []).growthPages == [3, 3] && PlanOf(r, []).growthNeeded == 3
  {
    var r := Request(["a"], [], ["a", "a"], [3, 3], 9, 9, 0, 0, ShortestFirst);
    var m := map["a" := 3];
    assert GrowthMap(["a"], [3], r.active, r.completed) == m by { assert ["a"][..0] == [] && [3][..0] == []; }
    assert ["a", "a"][..1] == ["a"] && [3, 3][..1] == [3];
    assert PoolOf(r).growth == m;
    assert EvictionOrder(r, []) == [];
    assert WithoutEvicted(m, []) == m;
    assert Remaining(["a"], m) == ["a"] by { assert ["a"][..0] == []; }
    assert Remaining(["a", "a"], m) == ["a", "a"];
    SumMapRemove(m, "a");
    assert m - {"a"} == map[];
  }

  // ---- the plan in the fields of its inputs ----------------------------------------------

  /** `c` is to be evicted before `d`, or they are alike: priority, length by strategy, index, name. */
  ghost predicate Sooner(s: Strategy, c: Candidate, d: Candidate) {
    && c.priority <= d.priority
    && (c.priority == d.priority ==>
          && (s.ShortestFirst? ==> c.decodedLength <= d.decodedLength)
          && (s.LongestFirst? ==> c.decodedLength >= d.decodedLength)
          && (s.Fifo? || c.decodedLength == d.decodedLength ==>
                && (d.globalIdx.Some? ==> c.globalIdx.Some? && c.globalIdx.value <= d.globalIdx.value)
                && (c.globalIdx == d.globalIdx ==> Alphabetical(c.uuid, d.uuid))))
  }

  lemma SoonerIff(s: Strategy, c: Candidate, d: Candidate)
    ensures Order(s)(c, d) <==> Sooner(s, c, d)
  {
    hide Alphabetical;
    StringLeIff(c.uuid, d.uuid);
  }

  /** What each row is owed: the last positive request of an active row that has not completed. */
  ghost predicate OwedIs(r: Request, owed: map<string, int>)
    requires |r.growthUuids| == |r.growthPages|
  {
    && (forall i | 0 <= i < |r.growthUuids| ::
          r.growthPages[i] > 0 && r.growthUuids[i] in r.active && r.growthUuids[i] !in r.completed ==> r.growthUuids[i] in owed)
    && (forall u | u in owed ::
          && u in r.active && u !in r.completed
          && exists i | 0 <= i < |r.growthUuids| :: LastRequest(r, u, i) && owed[u] == r.growthPages[i])
  }

  ghost predicate LastRequest(r: Request, u: string, i: nat)
    requires |r.growthUuids| == |r.growthPages| && i < |r.growthUuids|
  {
    && r.growthUuids[i] == u && r.growthPages[i] > 0
    && forall j | i < j < |r.growthUuids| && r.growthUuids[j] == u :: r.growthPages[j] <= 0
  }

  function AllButLast(r: Request): Request
    requires r.growthUuids != [] && |r.growthUuids| == |r.growthPages|
  {
    var n := |r.growthUuids| - 1;
    r.(growthUuids := r.growthUuids[..n], growthPages := r.growthPages[..n])
  }

  lemma {:induction false} GrowthMapIsOwed(r: Request)
    requires |r.growthUuids| == |r.growthPages|
    ensures OwedIs(r, GrowthMap(r.growthUuids, r.growthPages, r.active, r.completed))
    decreases |r.growthUuids|
  {
    if r.growthUuids != [] {
      GrowthMapIsOwed(AllButLast(r));
      hide OwedIs;
      OwedOneMore(r, GrowthMap(AllButLast(r).growthUuids, AllButLast(r).growthPages, r.active, r.completed));
    }
  }

  lemma OwedOneMore(r: Request, owed: map<string, int>)
    requires r.growthUuids != [] && |r.growthUuids| == |r.growthPages| && OwedIs(AllButLast(r), owed)
    ensures var n := |r.growthUuids| - 1;
            var u, pages := r.growthUuids[n], r.growthPages[n];
            OwedIs(r, if pages > 0 && u in r.active && u !in r.completed then owed[u := pages] else owed)
  {
    var n := |r.growthUuids| - 1;
    var u, pages, was := r.growthUuids[n], r.growthPages[n], AllButLast(r);
    var now := if pages > 0 && u in r.active && u !in r.completed then owed[u := pages] else owed;
    forall v | v in now
      ensures v in r.active && v !in r.completed
      ensures exists i | 0 <= i < |r.growthUuids| :: LastRequest(r, v, i) && now[v] == r.growthPages[i]
    {
      if v == u && pages > 0 {
        assert LastRequest(r, v, n);
      } else {
        hide LastRequest;
        var i :| 0 <= i < |was.growthUuids| && LastRequest(was, v, i) && owed[v] == was.growthPages[i];
        LastRequestStays(r, v, i);
        assert now[v] == r.growthPages[i];
      }
    }
    hide LastRequest;
    forall i | 0 <= i < |r.growthUuids| && r.growthPages[i] > 0 && r.growthUuids[i] in r.active && r.growthUuids[i] !in r.completed
      ensures r.growthUuids[i] in now
    {
      if i < n { assert was.growthUuids[i] == r.growthUuids[i] && was.growthPages[i] == r.growthPages[i]; }
    }
  }

  lemma LastRequestStays(r: Request, u: string, i: nat)
    requires i + 1 < |r.growthUuids| == |r.growthPages| && LastRequest(AllButLast(r), u, i)
    requires r.growthUuids[|r.growthUuids| - 1] == u ==> r.growthPages[|r.growthUuids| - 1] <= 0
    ensures LastRequest(r, u, i)
  {
    var was := AllButLast(r);
    forall j | i < j < |r.growthUuids| && r.growthUuids[j] == u ensures r.growthPages[j] <= 0 {
      if j < |was.growthUuids| { assert was.growthUuids[j] == u; }
    }
  }

  /** What `owed` still asks for once the rows in `gone` are evicted. */
  function Left(owed: map<string, int>, gone: seq<Candidate>): map<string, int> {
    map u | u in owed && (forall i | 0 <= i < |gone| :: gone[i].uuid != u) :: owed[u]
  }

  /** `kept` lists the requested rows that are in `left`, in the order of the request. */
  ghost predicate Lists(kept: seq<string>, us: seq<string>, left: map<string, int>, at: seq<nat>) {
    && |at| == |kept|
    && (forall i | 0 <= i < |at| :: at[i] < |us| && kept[i] == us[at[i]] && kept[i] in left)
    && (forall i, j | 0 <= i < j < |at| :: at[i] < at[j])
    && (forall k | 0 <= k < |us| && us[k] in left :: k in at)
  }

  lemma {:induction false} RemainingLists(us: seq<string>, left: map<string, int>) returns (at: seq<nat>)
    ensures Lists(Remaining(us, left), us, left, at)
    decreases |us|
  {
    if us == [] {
      at := [];
    } else {
      var n := |us| - 1;
      at := RemainingLists(us[..n], left);
      assert us == us[..n] + [us[n]];
      hide Lists;
      ListsOneMore(Remaining(us[..n], left), us[..n], us[n], left, at);
      if us[n] in left {
        at := at + [n];
      } else {
        assert Remaining(us, left) == Remaining(us[..n], left);
      }
    }
  }

  lemma ListsOneMore(kept: seq<string>, us: seq<string>, u: string, left: map<string, int>, at: seq<nat>)
    requires Lists(kept, us, left, at)
    ensures if u in left then Lists(kept + [u], us + [u], left, at + [|us|]) else Lists(kept, us + [u], left, at)
  {
    var at' := if u in left then at + [|us|] else at;
    forall k | 0 <= k < |us| + 1 && (us + [u])[k] in left ensures k in at' {
      if k == |us| {
        assert at'[|at|] == k;
      } else {
        var i :| 0 <= i < |at| && at[i] == k;
        assert at'[i] == k;
      }
    }
  }

  /** The plan's figures, when the candidates in `gone` are evicted. */
  ghost predicate Accounts(r: Request, owed: map<string, int>, gone: seq<Candidate>, plan: Plan) {
    && |plan.evicted| == |gone| && (forall i | 0 <= i < |gone| :: plan.evicted[i] == gone[i].uuid)
    && plan.freedPages == SumSeq(seq(|gone|, i requires 0 <= i < |gone| => gone[i].pages))
    && plan.growthNeeded == SumMap(Left(owed, gone))
    && (exists at :: Lists(plan.growthUuids, r.growthUuids, Left(owed, gone), at))
    && |plan.growthPages| == |plan.growthUuids|
    && (forall i | 0 <= i < |plan.growthPages| :: plan.growthUuids[i] in owed && plan.growthPages[i] == owed[plan.growthUuids[i]])
    && plan.expectedFree == Min(Max(r.totalPages, 0), Max(r.freePages, 0) + Max(r.completedPages, 0) + plan.freedPages)
    && (if plan.growthNeeded > 0 then plan.requiredFree == plan.growthNeeded + Max(r.safetyMargin, 0) else plan.requiredFree == 0)
    && (plan.feasible <==> plan.expectedFree >= plan.requiredFree)
  }

  /**
   What a plan promises.  It evicts candidates that hold pages and have not
   completed, each row once; each goes before every other such candidate that
   is evicted later or not at all; no plan that stops earlier is feasible, and
   one that is not feasible has left no candidate.
   */
  ghost predicate Lawful(r: Request, cs: seq<Candidate>, owed: map<string, int>, gone: seq<Candidate>, plan: Plan)
    requires |r.growthUuids| == |r.growthPages|
  {
    && OwedIs(r, owed) && Accounts(r, owed, gone, plan)
    && (forall i | 0 <= i < |gone| :: gone[i] in cs && gone[i].uuid !in r.completed && gone[i].pages > 0)
    && (forall i, j | 0 <= i < j < |gone| :: gone[i].uuid != gone[j].uuid && Sooner(r.strategy, gone[i], gone[j]))
    && (forall i, d | 0 <= i < |gone| && d in cs && d.uuid !in r.completed && d.pages > 0 && d.uuid !in plan.evicted ::
          Sooner(r.strategy, gone[i], d))
    && (forall n, sooner | 0 <= n < |gone| && Accounts(r, owed, gone[..n], sooner) :: !sooner.feasible)
    && (plan.feasible || forall d | d in cs && d.uuid !in r.completed && d.pages > 0 :: d.uuid in plan.evicted)
  }

  lemma {:induction false} FreedIsSum(gone: seq<Candidate>)
    ensures FreedPages(gone) == SumSeq(seq(|gone|, i requires 0 <= i < |gone| => gone[i].pages))
  {
    if gone != [] {
      var n := |gone| - 1;
      FreedIsSum(gone[..n]);
      var init := seq(n, i requires 0 <= i < n => gone[..n][i].pages);
      assert seq(|gone|, i requires 0 <= i < |gone| => gone[i].pages) == init + [gone[n].pages];
      SumSeqSnoc(init, gone[n].pages);
    }
  }

  lemma LeftIsWithout(owed: map<string, int>, gone: seq<Candidate>)
    ensures Left(owed, gone) == WithoutEvicted(owed, gone)
  {
    forall u ensures u in Uuids(gone) <==> exists i | 0 <= i < |gone| :: gone[i].uuid == u { UuidsMember(gone, u); }
  }

  lemma PlanAccounts(r: Request, gone: seq<Candidate>)
    requires |r.growthUuids| == |r.growthPages| && forall i | 0 <= i < |gone| :: gone[i].pages >= 0
    ensures Accounts(r, PoolOf(r).growth, gone, PlanFor(r, gone))
  {
    hide FreedPages, WithoutEvicted, Left, SumMap, SumSeq, GrowthMap, Remaining;
    var owed := PoolOf(r).growth;
    LeftIsWithout(owed, gone);
    FreedIsSum(gone);
    FreedNonNegative(gone);
    var left := WithoutEvicted(owed, gone);
    RemainingKnown(r.growthUuids, left);
    var at := RemainingLists(r.growthUuids, left);
    LeftOnlyOwed(owed, gone);
  }

  lemma LeftOnlyOwed(owed: map<string, int>, gone: seq<Candidate>)
    ensures forall u | u in WithoutEvicted(owed, gone) :: u in owed && WithoutEvicted(owed, gone)[u] == owed[u]
  {
  }

  /** Two plans that evict the same candidates agree on whether that is enough. */
  lemma AccountsAgree(r: Request, owed: map<string, int>, gone: seq<Candidate>, a: Plan, b: Plan)
    requires Accounts(r, owed, gone, a) && Accounts(r, owed, gone, b)
    ensures a.feasible == b.feasible && a.evicted == b.evicted
  {
    hide SumMap, SumSeq, Left, Lists;
  }

  /** Of the candidates with one name the order keeps one that is not later than any other. */
  lemma {:induction false} EligibleIsFirst(cs: seq<Candidate>, completed: seq<string>, le: (Candidate, Candidate) -> bool, d: Candidate)
    returns (i: nat)
    requires Sorted(cs, le) && le(d, d) && d in cs && IsEligible(d, completed)
    ensures i < |Eligible(cs, completed)| && Eligible(cs, completed)[i].uuid == d.uuid && le(Eligible(cs, completed)[i], d)
    decreases |cs|
  {
    var n := |cs| - 1;
    var before := Eligible(cs[..n], completed);
    if d in cs[..n] {
      i := EligibleIsFirst(cs[..n], completed, le, d);
    } else if d.uuid in Uuids(before) {
      UuidsMember(before, d.uuid);
      i :| 0 <= i < |before| && before[i].uuid == d.uuid;
      EligibleIsSound(cs[..n], completed);
      assert before[i] in cs[..n];
    } else {
      i := |before|;
    }
  }

  /** The plan follows its order: nothing that comes earlier is left for later. */
  lemma PlanFollowsOrder(r: Request, cs: seq<Candidate>, n: nat)
    requires n <= |EvictionOrder(r, cs)|
    ensures var gone := EvictionOrder(r, cs)[..n];
            && (forall i | 0 <= i < n :: gone[i] in cs && gone[i].uuid !in r.completed && gone[i].pages > 0)
            && (forall i, j | 0 <= i < j < n :: gone[i].uuid != gone[j].uuid && Sooner(r.strategy, gone[i], gone[j]))
  {
    hide Sooner, EvictionOrder, Uuids;
    EvictionOrderIsByPriority(r, cs);
    var order := EvictionOrder(r, cs);
    forall i, j | 0 <= i < j < n ensures Sooner(r.strategy, order[i], order[j]) {
      SoonerIff(r.strategy, order[i], order[j]);
    }
  }

  lemma LeftOverIsLater(r: Request, cs: seq<Candidate>, n: nat, i: nat, d: Candidate)
    requires i < n <= |EvictionOrder(r, cs)|
    requires d in cs && d.uuid !in r.completed && d.pages > 0 && d.uuid !in Uuids(EvictionOrder(r, cs)[..n])
    ensures Sooner(r.strategy, EvictionOrder(r, cs)[i], d)
  {
    hide Sooner, CandidateLe, SortBy, Eligible, Uuids;
    var le, order := Order(r.strategy), EvictionOrder(r, cs);
    var sorted := SortBy(cs, le);
    OrderIsTotal(r.strategy);
    SortIsSorted(cs, le);
    SortMembership(cs, le);
    EligibleKeepsOrder(sorted, r.completed, le);
    var j := EligibleIsFirst(sorted, r.completed, le, d);
    UuidsMember(order[..n], d.uuid);
    assert j >= n;
    assert le(order[i], order[j]) && le(order[j], d);
    SoonerIff(r.strategy, order[i], d);
  }

  /** Every plan keeps its promise. */
  lemma PlanIsLawful(r: Request, cs: seq<Candidate>) returns (gone: seq<Candidate>)
    requires |r.growthUuids| == |r.growthPages|
    ensures Lawful(r, cs, PoolOf(r).growth, gone, PlanOf(r, cs))
  {
    hide Accounts, Sooner, OwedIs, EvictionOrder, PoolOf, Uuids, Enough, PlanOf;
    var p, order, plan := PoolOf(r), EvictionOrder(r, cs), PlanOf(r, cs);
    ShortestSufficientPrefix(r, cs);
    var n := |plan.evicted|;
    gone := order[..n];
    GrowthIsOwed(r);
    PlanFollowsOrder(r, cs, n);
    PlanAccounts(r, gone);
    forall i, d | 0 <= i < n && d in cs && d.uuid !in r.completed && d.pages > 0 && d.uuid !in plan.evicted
      ensures Sooner(r.strategy, gone[i], d)
    {
      LeftOverIsLater(r, cs, n, i, d);
    }
    forall k, sooner | 0 <= k < n && Accounts(r, p.growth, gone[..k], sooner) ensures !sooner.feasible {
      assert gone[..k] == order[..k];
      PlanAccounts(r, order[..k]);
      AccountsAgree(r, p.growth, order[..k], sooner, PlanFor(r, order[..k]));
    }
    if !plan.feasible {
      assert gone == order;
      EvictionOrderIsByPriority(r, cs);
    }
  }

  lemma GrowthIsOwed(r: Request)
    requires |r.growthUuids| == |r.growthPages|
    ensures OwedIs(r, PoolOf(r).growth)
  {
    GrowthMapIsOwed(r);
  }

  // ---- the planner as the source runs it ----------------------------------------------

  method BuildGrowth(r: Request) returns (growth: map<string, int>, sum: int)
    requires |r.growthUuids| == |r.growthPages|
    ensures growth == PoolOf(r).growth && sum == SumMap(growth)
  {
    growth := map[];
    for n := 0 to |r.growthUuids|
      invariant growth == GrowthMap(r.growthUuids[..n], r.growthPages[..n], r.active, r.completed)
    {
      var u, pages := r.growthUuids[n], r.growthPages[n];
      assert r.growthUuids[..n + 1][..n] == r.growthUuids[..n];
      assert r.growthPages[..n + 1][..n] == r.growthPages[..n];
      if pages > 0 && u in r.active && u !in r.completed {
        growth := growth[u := pages];
      }
    }
    assert r.growthUuids[..|r.growthUuids|] == r.growthUuids;
    assert r.growthPages[..|r.growthPages|] == r.growthPages;
    sum := 0;
    var todo := growth;
    while todo != map[]
      invariant forall k | k in todo :: k in growth && todo[k] == growth[k]
      invariant sum + SumMap(todo) == SumMap(growth)
      decreases |todo|
    {
      assert todo.Keys != {};
      var k :| k in todo;
      SumMapRemove(todo, k);
      sum := sum + todo[k];
      todo := todo - {k};
    }
  }

  lemma EligibleStep(cs: seq<Candidate>, completed: seq<string>, n: nat)
    requires n < |cs|
    ensures Eligible(cs[..n + 1], completed) ==
              var before := Eligible(cs[..n], completed);
              if IsEligible(cs[n], completed) && cs[n].uuid !in Uuids(before) then before + [cs[n]] else before
  {
    assert cs[..n + 1][..n] == cs[..n];
  }

  lemma {:induction false} EligibleGrows(cs: seq<Candidate>, completed: seq<string>, n: nat)
    requires n <= |cs|
    ensures Eligible(cs[..n], completed) <= Eligible(cs, completed)
    decreases |cs| - n
  {
    if n < |cs| {
      EligibleStep(cs, completed, n);
      EligibleGrows(cs, completed, n + 1);
    } else {
      assert cs[..n] == cs;
    }
  }

  lemma EvictOne(p: Pool, gone: seq<Candidate>, c: Candidate)
    requires c.uuid !in Uuids(gone)
    ensures WithoutEvicted(p.growth, gone + [c]) == WithoutEvicted(p.growth, gone) - {c.uuid}
    ensures Uuids(gone + [c]) == Uuids(gone) + [c.uuid]
    ensures FreedPages(gone + [c]) == FreedPages(gone) + c.pages
    ensures Debt(p, gone + [c]) ==
              Debt(p, gone) - (if c.uuid in WithoutEvicted(p.growth, gone) then WithoutEvicted(p.growth, gone)[c.uuid] else 0)
  {
    var left := WithoutEvicted(p.growth, gone);
    assert Uuids(gone + [c]) == Uuids(gone) + [c.uuid];
    assert (gone + [c])[..|gone|] == gone;
    assert WithoutEvicted(p.growth, gone + [c]) == left - {c.uuid};
    if c.uuid in left { SumMapRemove(left, c.uuid); } else { assert left - {c.uuid} == left; }
  }

  lemma StopAtStep(p: Pool, order: seq<Candidate>, n: nat)
    requires n < |order| && !Enough(p, order[..n])
    ensures StopAt(p, order, n) == StopAt(p, order, n + 1)
  {
  }

  /** The planner's variables after evicting `gone`, an initial part of the eviction order. */
  ghost predicate Searching(p: Pool, order: seq<Candidate>, gone: seq<Candidate>, evicted: seq<string>, freed: int,
                            growth: map<string, int>, remaining: int) {
    && |gone| <= |order| && gone == order[..|gone|]
    && evicted == Uuids(gone) && freed == FreedPages(gone)
    && growth == WithoutEvicted(p.growth, gone) && remaining == Debt(p, gone)
    && StopAt(p, order, |gone|) == StopAt(p, order, 0)
  }

  lemma SearchStep(p: Pool, order: seq<Candidate>, gone: seq<Candidate>, evicted: seq<string>, freed: int,
                   growth: map<string, int>, remaining: int, c: Candidate)
    requires Searching(p, order, gone, evicted, freed, growth, remaining)
    requires gone + [c] <= order && c.uuid !in evicted && !Enough(p, gone)
    ensures Searching(p, order, gone + [c], evicted + [c.uuid], freed + c.pages, growth - {c.uuid},
                      remaining - (if c.uuid in growth then growth[c.uuid] else 0))
  {
    hide Enough, WithoutEvicted, Uuids, FreedPages, Debt;
    StopAtStep(p, order, |gone|);
    EvictOne(p, gone, c);
  }

  lemma SearchEnds(p: Pool, order: seq<Candidate>, gone: seq<Candidate>, evicted: seq<string>, freed: int,
                   growth: map<string, int>, remaining: int)
    requires Searching(p, order, gone, evicted, freed, growth, remaining)
    requires Enough(p, gone) || gone == order
    ensures |gone| == StopAt(p, order, 0)
  {
    hide Enough;
  }

  /** Advances over candidates that are completed, already evicted, or hold no pages. */
  method NextEligible(sorted: seq<Candidate>, completed: seq<string>, evicted: seq<string>, from: nat)
    returns (idx: nat, found: bool)
    requires from <= |sorted| && evicted == Uuids(Eligible(sorted[..from], completed))
    ensures from <= idx <= |sorted|
    ensures !found ==> Eligible(sorted, completed) == Eligible(sorted[..from], completed)
    ensures found ==>
              && from < idx && sorted[idx - 1].uuid !in evicted
              && Eligible(sorted[..idx], completed) == Eligible(sorted[..from], completed) + [sorted[idx - 1]]
  {
    idx, found := from, false;
    while idx < |sorted| && !found
      invariant from <= idx <= |sorted|
      invariant !found ==> Eligible(sorted[..idx], completed) == Eligible(sorted[..from], completed)
      invariant found ==>
                  && from < idx && sorted[idx - 1].uuid !in evicted
                  && Eligible(sorted[..idx], completed) == Eligible(sorted[..from], completed) + [sorted[idx - 1]]
      decreases |sorted| - idx
    {
      var c := sorted[idx];
      EligibleStep(sorted, completed, idx);
      idx := idx + 1;
      found := !(c.uuid in completed || c.uuid in evicted) && c.pages > 0;
    }
    if !found { assert sorted[..idx] == sorted; }
  }

  method PlanHostGrowthEvictions(r: Request, cs: seq<Candidate>) returns (plan: Option<Plan>)
    ensures |r.growthUuids| != |r.growthPages| ==> plan == None
    ensures |r.growthUuids| == |r.growthPages| ==> plan == Some(PlanOf(r, cs))
    ensures |r.growthUuids| == |r.growthPages| ==> exists owed, gone :: Lawful(r, cs, owed, gone, plan.value)
  {
    if |r.growthUuids| != |r.growthPages| {
      return None;
    }
    hide SortBy, Eligible, StopAt, Uuids, FreedPages, WithoutEvicted, SumMap, GrowthMap, PlanFor, Lawful, Enough, Order;
    var total, margin := Max(r.totalPages, 0), Max(r.safetyMargin, 0);
    var base := Min(total, Max(r.freePages, 0) + Max(r.completedPages, 0));
    var growth, remaining := BuildGrowth(r);
    var sorted := SortBy(cs, Order(r.strategy));
    var evicted, freed := [], 0;
    evicted, freed, growth, remaining :=
      SearchEvictions(sorted, r.completed, growth, remaining, total, margin, base, PoolOf(r));
    EligibleIsSound(sorted, r.completed);
    ghost var order := EvictionOrder(r, cs);
    ghost var gone := order[..StopAt(PoolOf(r), order, 0)];
    var result := Assemble(r, evicted, freed, growth, remaining, total, margin, base, gone);
    plan := Some(result);
    ghost var lawful := PlanIsLawful(r, cs);
  }

  /** The planning loop: evict the next candidate until the headroom test passes or none is left. */
  method SearchEvictions(sorted: seq<Candidate>, completed: seq<string>, growth0: map<string, int>, remaining0: int,
                         total: int, margin: int, base: int, ghost p: Pool)
    returns (evicted: seq<string>, freed: int, growth: map<string, int>, remaining: int)
    requires growth0 == p.growth && remaining0 == SumMap(growth0)
    requires total == Max(p.total, 0) && margin == Max(p.margin, 0) && base == p.base
    ensures var order := Eligible(sorted, completed);
            var k := StopAt(p, order, 0);
            && k <= |order|
            && evicted == Uuids(order[..k]) && freed == FreedPages(order[..k])
            && growth == WithoutEvicted(p.growth, order[..k]) && remaining == Debt(p, order[..k])
  {
    ghost var order := Eligible(sorted, completed);
    var idx := 0;
    ghost var gone: seq<Candidate> := [];
    evicted, freed, growth, remaining := [], 0, growth0, remaining0;
    assert Eligible(sorted[..0], completed) == [] && WithoutEvicted(p.growth, []) == p.growth;
    EligibleGrows(sorted, completed, 0);
    while true
      invariant 0 <= idx <= |sorted| && gone == Eligible(sorted[..idx], completed)
      invariant Searching(p, order, gone, evicted, freed, growth, remaining)
      decreases |sorted| - idx
    {
      hide Eligible, StopAt, Uuids, WithoutEvicted, FreedPages, SumMap;
      if Min(total, base + freed) >= (if remaining > 0 then remaining + margin else 0) {
        SearchEnds(p, order, gone, evicted, freed, growth, remaining);
        return;
      }
      var next, found := NextEligible(sorted, completed, evicted, idx);
      if !found {
        SearchEnds(p, order, gone, evicted, freed, growth, remaining);
        return;
      }
      var c := sorted[next - 1];
      EligibleGrows(sorted, completed, next);
      SearchStep(p, order, gone, evicted, freed, growth, remaining, c);
      idx := next;
      evicted := evicted + [c.uuid];
      freed := freed + c.pages;
      remaining := remaining - (if c.uuid in growth then growth[c.uuid] else 0);
      growth := growth - {c.uuid};
      gone := gone + [c];
    }
  }

  method Assemble(r: Request, evicted: seq<string>, freed: int, growth: map<string, int>, remaining: int,
                  total: int, margin: int, base: int, ghost gone: seq<Candidate>) returns (plan: Plan)
    requires |r.growthUuids| == |r.growthPages|
    requires total == Max(r.totalPages, 0) && margin == Max(r.safetyMargin, 0) && base == PoolOf(r).base
    requires evicted == Uuids(gone) && freed == FreedPages(gone)
    requires growth == WithoutEvicted(PoolOf(r).growth, gone) && remaining == Debt(PoolOf(r), gone)
    requires forall i | 0 <= i < |gone| :: gone[i].pages > 0
    ensures plan == PlanFor(r, gone)
  {
    var uuids := KeepListed(r.growthUuids, growth);
    RemainingKnown(r.growthUuids, growth);
    var expected := Min(total, base + freed);
    GrowthMapPositive(r.growthUuids, r.growthPages, r.active, r.completed);
    SumMapPositive(growth);
    FreedNonNegative(gone);
    plan := Plan(evicted, freed, uuids, PagesOf(uuids, growth), remaining, expected,
                 if remaining > 0 then remaining + margin else 0,
                 remaining == 0 || expected >= remaining + margin);
  }

  method KeepListed(uuids: seq<string>, growth: map<string, int>) returns (kept: seq<string>)
    ensures kept == Remaining(uuids, growth)
  {
    kept := [];
    for n := 0 to |uuids|
      invariant kept == Remaining(uuids[..n], growth)
    {
      assert uuids[..n + 1][..n] == uuids[..n];
      if uuids[n] in growth {
        kept := kept + [uuids[n]];
      }
    }
    assert uuids[..|uuids|] == uuids;
  }
}
