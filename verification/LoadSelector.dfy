/**
 Which waiting sequences are loaded from host to GPU at a boundary: a greedy
 pass in priority order under per-group page and row limits.
 */
module LoadSelector {
  import opened Options
  import opened Arith
  import opened Sorting

  datatype Strategy = LongestFirst | ShortestFirst | Fifo

  /** A waiting sequence; `globalIdx` is missing when the caller supplies no index function. */
  datatype Candidate = Candidate(
    uuid: string, decodedLength: int, globalIdx: Option<int>, pagesNeeded: nat,
    assignedRank: int, decodeGroup: Option<int>)

  // ---- priority order ----------------------------------------------------------

  function LengthKey(s: Strategy, c: Candidate): int {
    match s case LongestFirst => -c.decodedLength case ShortestFirst => c.decodedLength case Fifo => 0
  }

  predicate CandidateLe(s: Strategy, a: Candidate, b: Candidate) {
    if LengthKey(s, a) != LengthKey(s, b) then LengthKey(s, a) < LengthKey(s, b)
    else if s.Fifo? && a.globalIdx == b.globalIdx then StringLe(a.uuid, b.uuid)
    else IndexLe(a.globalIdx, b.globalIdx)
  }

  function Order(s: Strategy): (Candidate, Candidate) -> bool {
    (a, b) => CandidateLe(s, a, b)
  }

  lemma OrderIsTotal(s: Strategy)
    ensures TotalPreorder(Order(s))
  {
    var le := Order(s);
    forall a, b
      ensures le(a, b) || le(b, a)
    {
      StringLeTotal(a.uuid, b.uuid);
    }
    forall a, b, c | le(a, b) && le(b, c)
      ensures le(a, c)
    {
      if StringLe(a.uuid, b.uuid) && StringLe(b.uuid, c.uuid) { StringLeTransitive(a.uuid, b.uuid, c.uuid); }
    }
  }

  // ---- the greedy choice ---------------------------------------------------------

  /** Limits of the capacity groups; without row limits `rows` is missing. */
  datatype Limits = Limits(groupSize: nat, pages: seq<int>, rows: Option<seq<int>>)

  /** The row limit of a group; a list that stops short limits the groups it does not reach to none. */
  function RowLimit(l: Limits, g: nat): int
    requires l.rows.Some?
  {
    if g < |l.rows.value| then l.rows.value[g] else 0
  }

  /** The capacity group a sequence is charged to. */
  function GroupOf(l: Limits, c: Candidate): Option<int> {
    if l.groupSize > 1 then c.decodeGroup else Some(c.assignedRank)
  }

  predicate InGroup(l: Limits, c: Candidate, g: int) { GroupOf(l, c) == Some(g) }

  function PagesIn(l: Limits, cs: seq<Candidate>, g: int): nat {
    if cs == [] then 0
    else PagesIn(l, cs[..|cs| - 1], g) + (if InGroup(l, cs[|cs| - 1], g) then cs[|cs| - 1].pagesNeeded else 0)
  }

  function RowsIn(l: Limits, cs: seq<Candidate>, g: int): nat {
    if cs == [] then 0
    else RowsIn(l, cs[..|cs| - 1], g) + (if InGroup(l, cs[|cs| - 1], g) then 1 else 0)
  }

  /** A candidate that asks for pages in an existing group. */
  predicate Eligible(l: Limits, c: Candidate) {
    c.pagesNeeded != 0 && GroupOf(l, c).Some? && 0 <= GroupOf(l, c).value < |l.pages|
  }

  /** `c` still fits next to the sequences already chosen. */
  predicate Fits(l: Limits, chosen: seq<Candidate>, c: Candidate)
  {
    && Eligible(l, c)
    && var g := GroupOf(l, c).value;
       && (l.rows.Some? ==> RowsIn(l, chosen, g) < RowLimit(l, g))
       && PagesIn(l, chosen, g) + c.pagesNeeded <= l.pages[g]
  }

  function Choose(l: Limits, order: seq<Candidate>): seq<Candidate> {
    if order == [] then []
    else
      var chosen := Choose(l, order[..|order| - 1]);
      if Fits(l, chosen, order[|order| - 1]) then chosen + [order[|order| - 1]] else chosen
  }

  // ---- what the choice guarantees --------------------------------------------------

  lemma SumsSnoc(l: Limits, cs: seq<Candidate>, c: Candidate, g: int)
    ensures PagesIn(l, cs + [c], g) == PagesIn(l, cs, g) + (if InGroup(l, c, g) then c.pagesNeeded else 0)
    ensures RowsIn(l, cs + [c], g) == RowsIn(l, cs, g) + (if InGroup(l, c, g) then 1 else 0)
  {
    assert (cs + [c])[..|cs|] == cs;
  }

  /** No group is ever charged more pages or rows than it has. */
  lemma {:induction false} ChoiceFits(l: Limits, order: seq<Candidate>, g: nat)
    requires g < |l.pages|
    ensures PagesIn(l, Choose(l, order), g) <= Max(l.pages[g], 0)
    ensures l.rows.Some? ==> RowsIn(l, Choose(l, order), g) <= Max(RowLimit(l, g), 0)
    decreases |order|
  {
    if order != [] {
      var init, c := order[..|order| - 1], order[|order| - 1];
      ChoiceFits(l, init, g);
      SumsSnoc(l, Choose(l, init), c, g);
    }
  }

  lemma {:induction false} SumsGrow(l: Limits, cs: seq<Candidate>, more: seq<Candidate>, g: int)
    requires cs <= more
    ensures PagesIn(l, cs, g) <= PagesIn(l, more, g) && RowsIn(l, cs, g) <= RowsIn(l, more, g)
    decreases |more|
  {
    if |cs| < |more| {
      SumsGrow(l, cs, more[..|more| - 1], g);
    } else {
      assert cs == more;
    }
  }

  lemma {:induction false} ChoiceGrows(l: Limits, order: seq<Candidate>, n: nat)
    requires n <= |order|
    ensures Choose(l, order[..n]) <= Choose(l, order)
    decreases |order|
  {
    if n < |order| {
      ChoiceGrows(l, order[..|order| - 1], n);
      assert order[..|order| - 1][..n] == order[..n];
    } else {
      assert order[..n] == order;
    }
  }

  lemma FittingIsChosen(l: Limits, order: seq<Candidate>, i: nat)
    requires i < |order|
    ensures Fits(l, Choose(l, order[..i]), order[i]) ==> order[i] in Choose(l, order)
  {
    assert order[..i + 1][..i] == order[..i];
    ChoiceGrows(l, order, i + 1);
    assert forall k | 0 <= k < |Choose(l, order[..i + 1])| :: Choose(l, order)[k] == Choose(l, order[..i + 1])[k];
    if Fits(l, Choose(l, order[..i]), order[i]) {
      assert Choose(l, order[..i + 1])[|Choose(l, order[..i])|] == order[i];
    }
  }

  /** Nothing was left behind: a candidate that was not chosen does not fit at the end either. */
  lemma ChoiceIsMaximal(l: Limits, order: seq<Candidate>, i: nat)
    requires i < |order| && order[i] !in Choose(l, order)
    ensures !Fits(l, Choose(l, order), order[i])
  {
    FittingIsChosen(l, order, i);
    ChoiceGrows(l, order, i);
    if Eligible(l, order[i]) {
      SumsGrow(l, Choose(l, order[..i]), Choose(l, order), GroupOf(l, order[i]).value);
    }
  }

  /** Only candidates are chosen, in priority order. */
  lemma {:induction false} ChoiceIsSound(l: Limits, order: seq<Candidate>, c: Candidate)
    requires c in Choose(l, order)
    ensures c in order && Eligible(l, c)
    decreases |order|
  {
    var init, last := order[..|order| - 1], order[|order| - 1];
    if c in Choose(l, init) {
      ChoiceIsSound(l, init, c);
    }
  }

  // ---- capacity of a group ------------------------------------------------------------

  function MinOf(xs: seq<int>): int
    requires xs != []
  {
    if |xs| == 1 then xs[0] else Min(MinOf(xs[..|xs| - 1]), xs[|xs| - 1])
  }

  lemma {:induction false} MinOfIsLeast(xs: seq<int>, i: nat)
    requires i < |xs|
    ensures MinOf(xs) <= xs[i]
  {
    if |xs| > 1 && i < |xs| - 1 { MinOfIsLeast(xs[..|xs| - 1], i); }
  }

  lemma GroupSlice(n: nat, groupSize: nat, g: nat)
    requires groupSize > 0 && n % groupSize == 0 && g < n / groupSize
    ensures g * groupSize + groupSize <= n
  {
    DivBounds(n, groupSize);
    MulStrict(g, n / groupSize, groupSize);
  }

  /** The tightest physical rank of each group. */
  function GroupPages(free: seq<int>, groupSize: nat): seq<int>
    requires groupSize > 0 && |free| % groupSize == 0
  {
    seq(|free| / groupSize, g requires 0 <= g < |free| / groupSize =>
      GroupSlice(|free|, groupSize, g);
      MinOf(free[g * groupSize..g * groupSize + groupSize]))
  }

  lemma RankInGroup(free: seq<int>, groupSize: nat, rank: nat)
    requires groupSize > 0 && |free| % groupSize == 0 && rank < |free|
    ensures 0 <= rank / groupSize < |free| / groupSize
    ensures GroupPages(free, groupSize)[rank / groupSize] <= free[rank]
  {
    var g := rank / groupSize;
    DivBounds(rank, groupSize);
    DivBounds(|free|, groupSize);
    if g >= |free| / groupSize { MulMonotone(|free| / groupSize, g, groupSize); }
    GroupSlice(|free|, groupSize, g);
    var slice := free[g * groupSize..g * groupSize + groupSize];
    assert slice[rank - g * groupSize] == free[rank];
    MinOfIsLeast(slice, rank - g * groupSize);
  }

  // ---- the selector ----------------------------------------------------------------------

  datatype Query = Query(
    free: seq<int>, exclude: set<string>, strategy: Strategy, groupSize: int, rows: Option<seq<int>>)

  function Wanted(cs: seq<Candidate>, exclude: set<string>): seq<Candidate> {
    if cs == [] then []
    else
      Wanted(cs[..|cs| - 1], exclude) + (if cs[|cs| - 1].uuid in exclude then [] else [cs[|cs| - 1]])
  }

  function LoadOrder(q: Query, cs: seq<Candidate>): seq<Candidate> {
    SortBy(Wanted(cs, q.exclude), Order(q.strategy))
  }

  predicate GroupsDivide(q: Query) { q.groupSize > 0 && |q.free| % q.groupSize == 0 }

  function LimitsOf(q: Query): Limits
    requires GroupsDivide(q)
  {
    Limits(q.groupSize, GroupPages(q.free, q.groupSize), q.rows)
  }

  /** Every wanted candidate names its group when groups are larger than one rank. */
  predicate AllGrouped(q: Query, cs: seq<Candidate>) {
    q.groupSize > 1 ==> forall i | 0 <= i < |cs| && cs[i].uuid !in q.exclude :: cs[i].decodeGroup.Some?
  }

  /** Every wanted candidate that asks for pages in an existing group finds a row limit, when there are any. */
  predicate AllLimited(q: Query, cs: seq<Candidate>)
    requires GroupsDivide(q)
  {
    forall i | 0 <= i < |cs| && cs[i].uuid !in q.exclude :: Limited(LimitsOf(q), cs[i])
  }

  predicate Limited(l: Limits, c: Candidate) {
    Eligible(l, c) && l.rows.Some? ==> GroupOf(l, c).value < |l.rows.value|
  }

  /** The load list never asks a physical rank for pages it does not have. */
  lemma RanksNotOverdrawn(q: Query, cs: seq<Candidate>, rank: nat)
    requires GroupsDivide(q) && rank < |q.free|
    ensures PagesIn(LimitsOf(q), Choose(LimitsOf(q), LoadOrder(q, cs)), rank / q.groupSize) <= Max(q.free[rank], 0)
  {
    RankInGroup(q.free, q.groupSize, rank);
    ChoiceFits(LimitsOf(q), LoadOrder(q, cs), rank / q.groupSize);
  }

  ghost predicate DistinctUuids(cs: seq<Candidate>) {
    forall a, b | a in cs && b in cs && a.uuid == b.uuid :: a == b
  }

  ghost predicate DistinctIndexes(cs: seq<Candidate>) {
    forall a, b | a in cs && b in cs && a.globalIdx == b.globalIdx :: a == b
  }

  lemma {:induction false} WantedIsFilter(cs: seq<Candidate>, exclude: set<string>, c: Candidate)
    ensures multiset(Wanted(cs, exclude))[c] == if c.uuid in exclude then 0 else multiset(cs)[c]
    decreases |cs|
  {
    if cs != [] {
      var n := |cs| - 1;
      WantedIsFilter(cs[..n], exclude, c);
      assert cs == cs[..n] + [cs[n]];
    }
  }

  lemma WantedIgnoresOrder(cs: seq<Candidate>, cs': seq<Candidate>, exclude: set<string>)
    requires multiset(cs) == multiset(cs')
    ensures multiset(Wanted(cs, exclude)) == multiset(Wanted(cs', exclude))
    ensures forall c | c in Wanted(cs, exclude) :: c in cs
  {
    var w, w' := Wanted(cs, exclude), Wanted(cs', exclude);
    forall c
      ensures multiset(w)[c] == multiset(w')[c]
      ensures c in w ==> c in cs
    {
      WantedIsFilter(cs, exclude, c);
      WantedIsFilter(cs', exclude, c);
      assert c in w ==> c in multiset(w);
      assert c in multiset(cs) ==> c in cs;
    }
  }

  /** Two candidates the strategy cannot tell apart: equal indexes and, by strategy, equal lengths or names. */
  predicate Tied(s: Strategy, a: Candidate, b: Candidate) {
    a.globalIdx == b.globalIdx && (if s.Fifo? then a.uuid == b.uuid else a.decodedLength == b.decodedLength)
  }

  ghost predicate NoTies(s: Strategy, cs: seq<Candidate>, exclude: set<string>) {
    forall a, b | a in cs && b in cs && a.uuid !in exclude && b.uuid !in exclude && Tied(s, a, b) :: a == b
  }

  lemma TiedIff(s: Strategy, a: Candidate, b: Candidate)
    ensures Tied(s, a, b) <==> Order(s)(a, b) && Order(s)(b, a)
  {
    StringLeTotal(a.uuid, b.uuid);
  }

  lemma WantedMembers(cs: seq<Candidate>, exclude: set<string>, c: Candidate)
    ensures c in Wanted(cs, exclude) <==> c in cs && c.uuid !in exclude
  {
    WantedIsFilter(cs, exclude, c);
    assert c in Wanted(cs, exclude) <==> c in multiset(Wanted(cs, exclude));
    assert c in cs <==> c in multiset(cs);
  }

  lemma NoTiesIff(s: Strategy, cs: seq<Candidate>, exclude: set<string>)
    ensures NoTies(s, cs, exclude) <==> DistinctKeys(Wanted(cs, exclude), Order(s))
  {
    hide Wanted, Tied;
    var w, le := Wanted(cs, exclude), Order(s);
    forall a, b
      ensures Tied(s, a, b) <==> le(a, b) && le(b, a)
      ensures a in w <==> a in cs && a.uuid !in exclude
      ensures b in w <==> b in cs && b.uuid !in exclude
    {
      TiedIff(s, a, b);
      WantedMembers(cs, exclude, a);
      WantedMembers(cs, exclude, b);
    }
  }

  lemma {:induction false} WantedCons(c: Candidate, rest: seq<Candidate>, exclude: set<string>)
    requires c.uuid !in exclude
    ensures Wanted([c] + rest, exclude) == [c] + Wanted(rest, exclude)
    decreases |rest|
  {
    if rest == [] {
      assert [c] + rest == [c];
    } else {
      var n := |rest| - 1;
      WantedCons(c, rest[..n], exclude);
      assert ([c] + rest)[..n + 1] == [c] + rest[..n];
    }
  }

  /** The wanted candidates are sorted alike, however the dictionary was filled, exactly when none of them tie. */
  lemma LoadOrderIgnoresInsertionOrderIff(q: Query, cs: seq<Candidate>)
    ensures (forall cs' | multiset(cs') == multiset(cs) :: LoadOrder(q, cs') == LoadOrder(q, cs))
            <==> NoTies(q.strategy, cs, q.exclude)
  {
    hide Wanted, SortBy, NoTies, DistinctKeys, Order, TotalPreorder;
    var w, le := Wanted(cs, q.exclude), Order(q.strategy);
    NoTiesIff(q.strategy, cs, q.exclude);
    OrderIsTotal(q.strategy);
    SortIgnoresInputOrderIff(w, le);
    if DistinctKeys(w, le) {
      forall cs' | multiset(cs') == multiset(cs) ensures LoadOrder(q, cs') == LoadOrder(q, cs) {
        WantedIgnoresOrder(cs, cs', q.exclude);
        assert SortBy(Wanted(cs', q.exclude), le) == SortBy(w, le);
      }
    } else {
      var ys :| multiset(ys) == multiset(w) && SortBy(ys, le) != SortBy(w, le);
      var cs' := Refill(q, cs, ys);
      assert LoadOrder(q, cs') == SortBy(ys, le) && LoadOrder(q, cs') != LoadOrder(q, cs);
    }
  }

  /** A dictionary filled so that its wanted candidates come in a given order. */
  lemma Refill(q: Query, cs: seq<Candidate>, ys: seq<Candidate>) returns (cs': seq<Candidate>)
    requires multiset(ys) == multiset(Wanted(cs, q.exclude))
    ensures multiset(cs') == multiset(cs) && Wanted(cs', q.exclude) == ys
  {
    var out := Dropped(cs, q.exclude);
    cs' := ys + out;
    hide Wanted, Dropped;
    forall c ensures multiset(cs')[c] == multiset(cs)[c] {
      WantedIsFilter(cs, q.exclude, c);
      DroppedIsRest(cs, q.exclude, c);
    }
    forall c | c in ys ensures c.uuid !in q.exclude {
      assert c in multiset(ys);
      WantedIsFilter(cs, q.exclude, c);
    }
    forall c | c in out ensures c.uuid in q.exclude {
      assert c in multiset(out);
      DroppedIsRest(cs, q.exclude, c);
    }
    WantedThenDropped(ys, out, q.exclude);
  }

  function Dropped(cs: seq<Candidate>, exclude: set<string>): seq<Candidate> {
    if cs == [] then []
    else
      Dropped(cs[..|cs| - 1], exclude) + (if cs[|cs| - 1].uuid in exclude then [cs[|cs| - 1]] else [])
  }

  lemma {:induction false} DroppedIsRest(cs: seq<Candidate>, exclude: set<string>, c: Candidate)
    ensures multiset(Dropped(cs, exclude))[c] == if c.uuid in exclude then multiset(cs)[c] else 0
    decreases |cs|
  {
    if cs != [] {
      var n := |cs| - 1;
      DroppedIsRest(cs[..n], exclude, c);
      assert cs == cs[..n] + [cs[n]];
    }
  }

  lemma {:induction false} WantedThenDropped(ys: seq<Candidate>, out: seq<Candidate>, exclude: set<string>)
    requires (forall c | c in ys :: c.uuid !in exclude) && (forall c | c in out :: c.uuid in exclude)
    ensures Wanted(ys + out, exclude) == ys
    decreases |out|, |ys|
  {
    if out != [] {
      var n := |out| - 1;
      WantedThenDropped(ys, out[..n], exclude);
      assert (ys + out)[..|ys| + n] == ys + out[..n];
    } else if ys != [] {
      var n := |ys| - 1;
      WantedThenDropped(ys[..n], [], exclude);
      assert (ys + out)[..n] == ys[..n] + [];
      assert ys == ys[..n] + [ys[n]];
    }
  }

  /** Distinct indexes, or distinct names in index order, leave nothing tied. */
  lemma SelectionIgnoresInsertionOrder(q: Query, cs: seq<Candidate>, cs': seq<Candidate>)
    requires multiset(cs) == multiset(cs')
    requires DistinctIndexes(cs) || (q.strategy.Fifo? && DistinctUuids(cs))
    ensures LoadOrder(q, cs) == LoadOrder(q, cs')
  {
    hide LoadOrder;
    LoadOrderIgnoresInsertionOrderIff(q, cs);
  }

  // ---- which sequences every rank selects ------------------------------------------------

  predicate ChargedTo(l: Limits, c: Candidate, g: int) { Eligible(l, c) && InGroup(l, c, g) }

  /** The candidates that compete for one capacity group, in order. */
  function Charged(l: Limits, cs: seq<Candidate>, g: int): seq<Candidate> {
    if cs == [] then []
    else
      var some, c := Charged(l, cs[..|cs| - 1], g), cs[|cs| - 1];
      if ChargedTo(l, c, g) then some + [c] else some
  }

  lemma ChargedSnoc(l: Limits, cs: seq<Candidate>, c: Candidate, g: int)
    ensures Charged(l, cs + [c], g) == if ChargedTo(l, c, g) then Charged(l, cs, g) + [c] else Charged(l, cs, g)
  {
    assert (cs + [c])[..|cs|] == cs;
  }

  lemma {:induction false} ChargedAppend(l: Limits, cs: seq<Candidate>, more: seq<Candidate>, g: int)
    ensures Charged(l, cs + more, g) == Charged(l, cs, g) + Charged(l, more, g)
    decreases |more|
  {
    if more == [] {
      assert cs + more == cs;
    } else {
      var n := |more| - 1;
      ChargedAppend(l, cs, more[..n], g);
      assert (cs + more)[..|cs| + n] == cs + more[..n];
    }
  }

  lemma {:induction false} ChargedIsFilter(l: Limits, cs: seq<Candidate>, g: int, c: Candidate)
    ensures multiset(Charged(l, cs, g))[c] == if ChargedTo(l, c, g) then multiset(cs)[c] else 0
    ensures c in Charged(l, cs, g) <==> c in cs && ChargedTo(l, c, g)
    decreases |cs|
  {
    if cs != [] {
      var n := |cs| - 1;
      ChargedIsFilter(l, cs[..n], g, c);
      assert cs == cs[..n] + [cs[n]];
    }
  }

  lemma {:induction false} ChargedKeepsSorted(l: Limits, cs: seq<Candidate>, g: int, le: (Candidate, Candidate) -> bool)
    requires Sorted(cs, le)
    ensures Sorted(Charged(l, cs, g), le)
    decreases |cs|
  {
    if cs != [] {
      var n := |cs| - 1;
      ChargedKeepsSorted(l, cs[..n], g, le);
      var some := Charged(l, cs[..n], g);
      forall i | 0 <= i < |some| ensures le(some[i], cs[n]) {
        ChargedIsFilter(l, cs[..n], g, some[i]);
      }
    }
  }

  lemma {:induction false} SumsOfCharged(l: Limits, cs: seq<Candidate>, g: int)
    requires forall c | c in cs :: Eligible(l, c)
    ensures PagesIn(l, Charged(l, cs, g), g) == PagesIn(l, cs, g)
    ensures RowsIn(l, Charged(l, cs, g), g) == RowsIn(l, cs, g)
    decreases |cs|
  {
    if cs != [] {
      var n := |cs| - 1;
      assert cs[n] in cs;
      SumsOfCharged(l, cs[..n], g);
      SumsSnoc(l, Charged(l, cs[..n], g), cs[n], g);
    }
  }

  /** The groups do not interfere: what one group gets is the choice from its own candidates. */
  lemma {:induction false} ChoiceByGroup(l: Limits, order: seq<Candidate>, g: int)
    ensures Charged(l, Choose(l, order), g) == Choose(l, Charged(l, order, g))
    decreases |order|
  {
    if order != [] {
      var init, c := order[..|order| - 1], order[|order| - 1];
      var chosen := Choose(l, init);
      ChoiceByGroup(l, init, g);
      forall d | d in chosen ensures Eligible(l, d) { ChoiceIsSound(l, init, d); }
      SumsOfCharged(l, chosen, g);
      ChargedSnoc(l, chosen, c, g);
      var own := Charged(l, init, g);
      assert (own + [c])[..|own|] == own;
    }
  }

  /** Two different candidates compete when they tie for one group. */
  ghost predicate NoRivals(l: Limits, s: Strategy, cs: seq<Candidate>, exclude: set<string>) {
    forall a, b, g | a in cs && b in cs && a.uuid !in exclude && b.uuid !in exclude
                     && ChargedTo(l, a, g) && ChargedTo(l, b, g) && Tied(s, a, b) :: a == b
  }

  /** The sequences a call selects. */
  function Selected(q: Query, cs: seq<Candidate>): set<Candidate>
    requires GroupsDivide(q)
  {
    set c | c in Choose(LimitsOf(q), LoadOrder(q, cs))
  }

  /** Calls for the same ranks and groups: free pages and row limits may differ. */
  ghost predicate SameRanks(q: Query, q': Query) {
    && q'.groupSize == q.groupSize && |q'.free| == |q.free|
    && q'.strategy == q.strategy && q'.exclude == q.exclude
  }

  lemma SameEligibility(q: Query, q': Query, c: Candidate, g: int)
    requires GroupsDivide(q) && SameRanks(q, q')
    ensures GroupsDivide(q') && (ChargedTo(LimitsOf(q'), c, g) <==> ChargedTo(LimitsOf(q), c, g))
  {
  }

  lemma UnrivalledGroup(q: Query, cs: seq<Candidate>, cs': seq<Candidate>, g: int)
    requires GroupsDivide(q) && multiset(cs') == multiset(cs)
    requires NoRivals(LimitsOf(q), q.strategy, cs, q.exclude)
    ensures Charged(LimitsOf(q), LoadOrder(q, cs), g) == Charged(LimitsOf(q), LoadOrder(q, cs'), g)
  {
    hide Wanted, SortBy, Tied, ChargedTo, Charged, TotalPreorder, LimitsOf, Order;
    var l, le, w, w' := LimitsOf(q), Order(q.strategy), Wanted(cs, q.exclude), Wanted(cs', q.exclude);
    var o, o' := SortBy(w, le), SortBy(w', le);
    OrderIsTotal(q.strategy);
    WantedIgnoresOrder(cs, cs', q.exclude);
    SortIsPermutation(w, le);
    SortIsPermutation(w', le);
    SortIsSorted(w, le);
    SortIsSorted(w', le);
    ChargedKeepsSorted(l, o, g, le);
    ChargedKeepsSorted(l, o', g, le);
    forall c ensures multiset(Charged(l, o, g))[c] == multiset(Charged(l, o', g))[c] {
      ChargedIsFilter(l, o, g, c);
      ChargedIsFilter(l, o', g, c);
    }
    UnrivalledKeys(q, cs, g);
    SortedIsUnique(Charged(l, o, g), Charged(l, o', g), le);
  }

  lemma UnrivalledKeys(q: Query, cs: seq<Candidate>, g: int)
    requires GroupsDivide(q) && NoRivals(LimitsOf(q), q.strategy, cs, q.exclude)
    ensures DistinctKeys(Charged(LimitsOf(q), LoadOrder(q, cs), g), Order(q.strategy))
  {
    hide Wanted, SortBy, Tied, ChargedTo, Charged, LimitsOf, Order;
    var l, le, w := LimitsOf(q), Order(q.strategy), Wanted(cs, q.exclude);
    var own := Charged(l, LoadOrder(q, cs), g);
    forall a, b | a in own && b in own && le(a, b) && le(b, a)
      ensures a == b
    {
      SortMembership(w, le);
      ChargedIsFilter(l, LoadOrder(q, cs), g, a);
      ChargedIsFilter(l, LoadOrder(q, cs), g, b);
      WantedMembers(cs, q.exclude, a);
      WantedMembers(cs, q.exclude, b);
      TiedIff(q.strategy, a, b);
    }
  }

  /** Without rivals every filling selects the same sequences. */
  lemma UnrivalledSelectAlike(q: Query, cs: seq<Candidate>, cs': seq<Candidate>)
    requires GroupsDivide(q) && multiset(cs') == multiset(cs)
    requires NoRivals(LimitsOf(q), q.strategy, cs, q.exclude)
    ensures Selected(q, cs') == Selected(q, cs)
  {
    hide LoadOrder, NoRivals, LimitsOf;
    var l, o, o' := LimitsOf(q), LoadOrder(q, cs), LoadOrder(q, cs');
    forall c
      ensures c in Choose(l, o) <==> c in Choose(l, o')
    {
      if c in Choose(l, o) { ChosenInGroup(q, cs, cs', c); }
      if c in Choose(l, o') { ChosenInGroup(q, cs, cs', c); }
    }
  }

  lemma ChosenInGroup(q: Query, cs: seq<Candidate>, cs': seq<Candidate>, c: Candidate)
    requires GroupsDivide(q) && multiset(cs') == multiset(cs)
    requires NoRivals(LimitsOf(q), q.strategy, cs, q.exclude)
    requires c in Choose(LimitsOf(q), LoadOrder(q, cs)) || c in Choose(LimitsOf(q), LoadOrder(q, cs'))
    ensures c in Choose(LimitsOf(q), LoadOrder(q, cs)) && c in Choose(LimitsOf(q), LoadOrder(q, cs'))
  {
    hide LoadOrder, NoRivals, LimitsOf, Choose, Charged;
    var l, o, o' := LimitsOf(q), LoadOrder(q, cs), LoadOrder(q, cs');
    if c in Choose(l, o) { ChoiceIsSound(l, o, c); } else { ChoiceIsSound(l, o', c); }
    var g := GroupOf(l, c).value;
    ChargedIsFilter(l, Choose(l, o), g, c);
    ChargedIsFilter(l, Choose(l, o'), g, c);
    ChoiceByGroup(l, o, g);
    ChoiceByGroup(l, o', g);
    UnrivalledGroup(q, cs, cs', g);
  }

  // ---- rivals are selected apart ---------------------------------------------------------

  function ConstantPages(n: nat, pages: int): seq<int> { seq(n, _ => pages) }

  lemma {:induction false} MinOfConstant(n: nat, pages: int)
    requires n > 0
    ensures MinOf(ConstantPages(n, pages)) == pages
  {
    if n > 1 {
      MinOfConstant(n - 1, pages);
      assert ConstantPages(n, pages)[..n - 1] == ConstantPages(n - 1, pages);
    }
  }

  /** The same call with this many free pages on every rank and no row limits. */
  function WithPages(q: Query, pages: int): Query { q.(free := ConstantPages(|q.free|, pages), rows := None) }

  lemma EveryGroupHas(q: Query, pages: int, g: nat)
    requires GroupsDivide(q) && g < |q.free| / q.groupSize
    ensures GroupsDivide(WithPages(q, pages)) && LimitsOf(WithPages(q, pages)).pages[g] == pages
  {
    GroupSlice(|q.free|, q.groupSize, g);
    MinOfConstant(q.groupSize, pages);
    assert ConstantPages(|q.free|, pages)[g * q.groupSize..g * q.groupSize + q.groupSize]
           == ConstantPages(q.groupSize, pages);
  }

  /** With room for all of them, all are chosen. */
  lemma {:induction false} RoomForAll(l: Limits, cs: seq<Candidate>, g: int)
    requires l.rows.None? && 0 <= g < |l.pages| && (forall c | c in cs :: ChargedTo(l, c, g))
    requires cs != [] ==> PagesIn(l, cs, g) <= l.pages[g]
    ensures Choose(l, cs) == cs
    decreases |cs|
  {
    if cs != [] {
      var n := |cs| - 1;
      assert cs[n] in cs && cs == cs[..n] + [cs[n]];
      RoomForAll(l, cs[..n], g);
    }
  }

  /** A candidate that does not fit now is not chosen later. */
  lemma {:induction false} NotChosenLater(l: Limits, order: seq<Candidate>, n: nat, c: Candidate, g: int)
    requires n <= |order| && ChargedTo(l, c, g) && c !in Choose(l, order[..n])
    requires PagesIn(l, Choose(l, order[..n]), g) + c.pagesNeeded > l.pages[g]
    ensures c !in Choose(l, order)
    decreases |order|
  {
    if n < |order| {
      var init := order[..|order| - 1];
      assert init[..n] == order[..n];
      NotChosenLater(l, init, n, c, g);
      ChoiceGrows(l, init, n);
      SumsGrow(l, Choose(l, order[..n]), Choose(l, init), g);
    } else {
      assert order[..n] == order;
    }
  }

  /** Of two rivals the first is chosen and the second is not, given room for the ones before and either of them. */
  lemma FirstRivalWins(l: Limits, before: seq<Candidate>, a: Candidate, b: Candidate, after: seq<Candidate>, g: int)
    requires l.rows.None? && 0 <= g < |l.pages| && (forall c | c in before :: ChargedTo(l, c, g))
    requires ChargedTo(l, a, g) && ChargedTo(l, b, g) && a != b && b !in before
    requires l.pages[g] == PagesIn(l, before, g) + Max(a.pagesNeeded, b.pagesNeeded)
    ensures a in Choose(l, before + [a, b] + after) && b !in Choose(l, before + [a, b] + after)
  {
    var order, n := before + [a, b] + after, |before|;
    RoomForAll(l, before, g);
    assert order[..n] == before && order[..n + 1] == before + [a] && order[n] == a;
    assert (before + [a])[..n] == before;
    assert Choose(l, before + [a]) == before + [a];
    FittingIsChosen(l, order, n);
    SumsSnoc(l, before, a, g);
    NotChosenLater(l, order, n + 1, b, g);
  }

  /** Two rivals: with these free pages on every rank, each filling selects the one it inserted first. */
  lemma RivalsSelectApart(q: Query, a: Candidate, b: Candidate, rest: seq<Candidate>, g: int) returns (pages: int)
    requires GroupsDivide(q) && a != b && Tied(q.strategy, a, b) && a.uuid !in q.exclude && b.uuid !in q.exclude
    requires ChargedTo(LimitsOf(q), a, g) && ChargedTo(LimitsOf(q), b, g)
    ensures GroupsDivide(WithPages(q, pages))
    ensures a in Selected(WithPages(q, pages), [a, b] + rest) && a !in Selected(WithPages(q, pages), [b, a] + rest)
  {
    hide Wanted, SortBy, Choose, Tied, CandidateLe, Place, Charged;
    var sorted := SortBy(Wanted(rest, q.exclude), Order(q.strategy));
    var p := Place(b, sorted, Order(q.strategy));
    var before, after := sorted[..p], sorted[p..];
    RivalOrders(q, a, b, rest);
    pages := PagesIn(LimitsOf(q), Charged(LimitsOf(q), before, g), g) + Max(a.pagesNeeded, b.pagesNeeded);
    var l := LimitsOf(WithPages(q, pages));
    EveryGroupHas(q, pages, g);
    RivalsInGroup(LimitsOf(q), l, before, a, b, after, g);
  }

  lemma RivalOrders(q: Query, a: Candidate, b: Candidate, rest: seq<Candidate>)
    requires a != b && Tied(q.strategy, a, b) && a.uuid !in q.exclude && b.uuid !in q.exclude
    ensures var sorted := SortBy(Wanted(rest, q.exclude), Order(q.strategy));
            var p := Place(b, sorted, Order(q.strategy));
            && LoadOrder(q, [a, b] + rest) == sorted[..p] + [a, b] + sorted[p..]
            && LoadOrder(q, [b, a] + rest) == sorted[..p] + [b, a] + sorted[p..]
            && a !in sorted[..p] && b !in sorted[..p]
  {
    hide Tied, CandidateLe, SortBy, Wanted;
    var le, w := Order(q.strategy), Wanted(rest, q.exclude);
    OrderIsTotal(q.strategy);
    TiedIff(q.strategy, a, b);
    WantedPair(q, a, b, rest);
    WantedPair(q, b, a, rest);
    TiesKeepInputOrder(a, b, w, le);
    TiesKeepInputOrder(b, a, w, le);
    TiedPlaces(a, b, SortBy(w, le), le);
  }

  lemma WantedPair(q: Query, a: Candidate, b: Candidate, rest: seq<Candidate>)
    requires a.uuid !in q.exclude && b.uuid !in q.exclude
    ensures Wanted([a, b] + rest, q.exclude) == [a, b] + Wanted(rest, q.exclude)
  {
    assert [a, b] + rest == [a] + ([b] + rest);
    WantedCons(a, [b] + rest, q.exclude);
    WantedCons(b, rest, q.exclude);
    assert [a] + ([b] + Wanted(rest, q.exclude)) == [a, b] + Wanted(rest, q.exclude);
  }

  lemma RivalsInGroup(l0: Limits, l: Limits, before: seq<Candidate>, a: Candidate, b: Candidate, after: seq<Candidate>, g: int)
    requires l.groupSize == l0.groupSize && |l.pages| == |l0.pages| && l.rows.None?
    requires ChargedTo(l0, a, g) && ChargedTo(l0, b, g) && a != b && a !in before && b !in before
    requires l.pages[g] == PagesIn(l0, Charged(l0, before, g), g) + Max(a.pagesNeeded, b.pagesNeeded)
    ensures a in Choose(l, before + [a, b] + after) && a !in Choose(l, before + [b, a] + after)
  {
    hide Choose;
    SameCharges(l0, l, before, g);
    SamePages(l0, l, Charged(l, before, g), g);
    var own, more := Charged(l, before, g), Charged(l, after, g);
    forall c ensures c in own <==> c in before && ChargedTo(l, c, g) { ChargedIsFilter(l, before, g, c); }
    FirstRivalWins(l, own, a, b, more, g);
    FirstRivalWins(l, own, b, a, more, g);
    ChargedPair(l, before, a, b, after, g);
    ChargedPair(l, before, b, a, after, g);
    ChoiceByGroup(l, before + [a, b] + after, g);
    ChoiceByGroup(l, before + [b, a] + after, g);
    ChargedIsFilter(l, Choose(l, before + [a, b] + after), g, a);
    ChargedIsFilter(l, Choose(l, before + [b, a] + after), g, a);
  }

  lemma ChargedPair(l: Limits, before: seq<Candidate>, a: Candidate, b: Candidate, after: seq<Candidate>, g: int)
    requires ChargedTo(l, a, g) && ChargedTo(l, b, g)
    ensures Charged(l, before + [a, b] + after, g) == Charged(l, before, g) + [a, b] + Charged(l, after, g)
  {
    ChargedAppend(l, before + [a, b], after, g);
    ChargedAppend(l, before, [a, b], g);
    assert [a, b] == [] + [a] + [b];
    ChargedSnoc(l, [] + [a], b, g);
    ChargedSnoc(l, [], a, g);
  }

  lemma {:induction false} SameCharges(l0: Limits, l: Limits, cs: seq<Candidate>, g: int)
    requires l.groupSize == l0.groupSize && |l.pages| == |l0.pages|
    ensures Charged(l0, cs, g) == Charged(l, cs, g)
    decreases |cs|
  {
    if cs != [] { SameCharges(l0, l, cs[..|cs| - 1], g); }
  }

  lemma {:induction false} SamePages(l0: Limits, l: Limits, cs: seq<Candidate>, g: int)
    requires l.groupSize == l0.groupSize
    ensures PagesIn(l0, cs, g) == PagesIn(l, cs, g)
    decreases |cs|
  {
    if cs != [] { SamePages(l0, l, cs[..|cs| - 1], g); }
  }

  /**
   All ranks select the same sequences, however their dictionaries were filled
   and whatever free pages and row limits the call brings, exactly when no two
   different wanted candidates tie for one capacity group.
   */
  lemma SelectionIgnoresInsertionOrderIff(q: Query, cs: seq<Candidate>)
    requires GroupsDivide(q)
    ensures forall q' | SameRanks(q, q') :: GroupsDivide(q')
    ensures (forall q', cs' | SameRanks(q, q') && multiset(cs') == multiset(cs) :: Selected(q', cs') == Selected(q', cs))
            <==> NoRivals(LimitsOf(q), q.strategy, cs, q.exclude)
  {
    hide Selected, LimitsOf, Tied, ChargedTo;
    if NoRivals(LimitsOf(q), q.strategy, cs, q.exclude) {
      forall q', cs' | SameRanks(q, q') && multiset(cs') == multiset(cs) ensures Selected(q', cs') == Selected(q', cs) {
        forall c, g ensures ChargedTo(LimitsOf(q'), c, g) <==> ChargedTo(LimitsOf(q), c, g) { SameEligibility(q, q', c, g); }
        UnrivalledSelectAlike(q', cs, cs');
      }
    } else {
      var a, b, g :| a in cs && b in cs && a.uuid !in q.exclude && b.uuid !in q.exclude
                     && ChargedTo(LimitsOf(q), a, g) && ChargedTo(LimitsOf(q), b, g) && Tied(q.strategy, a, b) && a != b;
      var rest := SplitOff(cs, a, b);
      SwapTwo(a, b, rest);
      var pages := RivalsSelectApart(q, a, b, rest, g);
      var q' := WithPages(q, pages);
      assert SameRanks(q, q');
      assert Selected(q', [a, b] + rest) != Selected(q', [b, a] + rest);
    }
  }

  /** One rank with one free page, two sequences of one length and one page each, no index function. */
  lemma TiedPairSelectsApart()
    ensures var a := Candidate("a", 5, None, 1, 0, None);
            var b := Candidate("b", 5, None, 1, 0, None);
            var q := Query([1], {}, LongestFirst, 1, None);
            GroupsDivide(q) && Selected(q, [a, b]) == {a} && Selected(q, [b, a]) == {b}
  {
    var a := Candidate("a", 5, None, 1, 0, None);
    var b := Candidate("b", 5, None, 1, 0, None);
    OnePageEach(a, b);
    OnePageEach(b, a);
  }

  lemma OnePageEach(a: Candidate, b: Candidate)
    requires a != b && Tied(LongestFirst, a, b)
    requires a.pagesNeeded == b.pagesNeeded == 1 && a.assignedRank == b.assignedRank == 0
    ensures var q := Query([1], {}, LongestFirst, 1, None);
            GroupsDivide(q) && Selected(q, [a, b]) == {a}
  {
    hide Choose, Tied;
    var q := Query([1], {}, LongestFirst, 1, None);
    OneRank(q);
    var l := LimitsOf(q);
    RivalOrders(q, a, b, []);
    assert [a, b] + [] == [a, b] && [] + [a, b] + [] == [a, b];
    FirstRivalWins(l, [], a, b, [], 0);
    forall c | c in Choose(l, [a, b]) ensures c == a || c == b { ChoiceIsSound(l, [a, b], c); }
  }

  lemma OneRank(q: Query)
    requires q == Query([1], {}, LongestFirst, 1, None)
    ensures GroupsDivide(q) && LimitsOf(q) == Limits(1, [1], None)
  {
    assert ConstantPages(1, 1) == [1] && WithPages(q, 1) == q;
    EveryGroupHas(q, 1, 0);
  }

  function Names(cs: seq<Candidate>): seq<string> {
    seq(|cs|, i requires 0 <= i < |cs| => cs[i].uuid)
  }

  function PagesUsed(l: Limits, cs: seq<Candidate>): seq<int> {
    seq(|l.pages|, g => PagesIn(l, cs, g))
  }

  function RowsUsed(l: Limits, cs: seq<Candidate>): seq<int> {
    seq(|l.pages|, g => RowsIn(l, cs, g))
  }

  lemma CountersSnoc(l: Limits, cs: seq<Candidate>, c: Candidate, g: nat)
    requires g < |l.pages| && InGroup(l, c, g)
    ensures Names(cs + [c]) == Names(cs) + [c.uuid]
    ensures PagesUsed(l, cs + [c]) == PagesUsed(l, cs)[g := PagesUsed(l, cs)[g] + c.pagesNeeded]
    ensures RowsUsed(l, cs + [c]) == RowsUsed(l, cs)[g := RowsUsed(l, cs)[g] + 1]
  {
    forall k | 0 <= k < |l.pages|
      ensures PagesIn(l, cs + [c], k) == PagesIn(l, cs, k) + (if k == g then c.pagesNeeded else 0)
      ensures RowsIn(l, cs + [c], k) == RowsIn(l, cs, k) + (if k == g then 1 else 0)
    {
      SumsSnoc(l, cs, c, k);
    }
  }

  lemma NoCounters(l: Limits)
    ensures Names([]) == [] && PagesUsed(l, []) == seq(|l.pages|, _ => 0) && RowsUsed(l, []) == seq(|l.pages|, _ => 0)
  {
  }

  lemma CounterAt(l: Limits, cs: seq<Candidate>, g: nat)
    requires g < |l.pages|
    ensures |PagesUsed(l, cs)| == |l.pages| == |RowsUsed(l, cs)|
    ensures PagesUsed(l, cs)[g] == PagesIn(l, cs, g) && RowsUsed(l, cs)[g] == RowsIn(l, cs, g)
  {
  }

  lemma ChooseNothing(l: Limits, order: seq<Candidate>)
    requires order == []
    ensures Choose(l, order) == []
  {
  }

  lemma ChooseStep(l: Limits, order: seq<Candidate>, n: nat)
    requires n < |order|
    ensures var chosen := Choose(l, order[..n]);
            Choose(l, order[..n + 1]) == if Fits(l, chosen, order[n]) then chosen + [order[n]] else chosen
  {
    assert order[..n + 1][..n] == order[..n];
  }

  // ---- the selection in the fields of its inputs ---------------------------------------

  /** `c` is considered before `d`, or they are alike: length by strategy, then index, then name. */
  ghost predicate Sooner(s: Strategy, c: Candidate, d: Candidate) {
    && (s.LongestFirst? ==> c.decodedLength >= d.decodedLength)
    && (s.ShortestFirst? ==> c.decodedLength <= d.decodedLength)
    && (s.Fifo? || c.decodedLength == d.decodedLength ==>
          d.globalIdx.Some? ==> c.globalIdx.Some? && c.globalIdx.value <= d.globalIdx.value)
    && (s.Fifo? && c.globalIdx == d.globalIdx ==> Alphabetical(c.uuid, d.uuid))
  }

  lemma SoonerIff(s: Strategy, c: Candidate, d: Candidate)
    ensures Order(s)(c, d) <==> Sooner(s, c, d)
  {
    hide Alphabetical;
    StringLeIff(c.uuid, d.uuid);
  }

  /** The sequence lives on the ranks of group `g`. */
  predicate LivesIn(q: Query, c: Candidate, g: int) {
    if q.groupSize > 1 then c.decodeGroup == Some(g) else c.assignedRank == g
  }

  /** A wanted sequence that asks for pages of group `g`. */
  predicate Asks(q: Query, c: Candidate, g: int)
    requires q.groupSize > 0
  {
    c.uuid !in q.exclude && c.pagesNeeded > 0 && LivesIn(q, c, g) && 0 <= g < |q.free| / q.groupSize
  }

  function PagesAt(q: Query, cs: seq<Candidate>, g: int): nat {
    if cs == [] then 0 else (if LivesIn(q, cs[0], g) then cs[0].pagesNeeded else 0) + PagesAt(q, cs[1..], g)
  }

  function RowsAt(q: Query, cs: seq<Candidate>, g: int): nat {
    if cs == [] then 0 else (if LivesIn(q, cs[0], g) then 1 else 0) + RowsAt(q, cs[1..], g)
  }

  /** Next to `chosen` every rank of the group has the pages `c` asks for, and the group a row. */
  ghost predicate HasRoom(q: Query, chosen: seq<Candidate>, c: Candidate, g: int) {
    && (forall rank | 0 <= rank < |q.free| && g * q.groupSize <= rank < g * q.groupSize + q.groupSize ::
          PagesAt(q, chosen, g) + c.pagesNeeded <= q.free[rank])
    && (q.rows.Some? ==> 0 <= g < |q.rows.value| && RowsAt(q, chosen, g) < q.rows.value[g])
  }

  ghost predicate FoundRoom(q: Query, chosen: seq<Candidate>, c: Candidate)
    requires q.groupSize > 0
  {
    exists g :: Asks(q, c, g) && HasRoom(q, chosen, c, g)
  }

  /** `d` was passed over in its turn: the ones before it left no room. */
  ghost predicate PassedOver(q: Query, chosen: seq<Candidate>, d: Candidate, g: int, n: nat) {
    && n <= |chosen| && !HasRoom(q, chosen[..n], d, g)
    && (forall i | 0 <= i < n :: Sooner(q.strategy, chosen[i], d))
    && (forall i | n <= i < |chosen| :: Sooner(q.strategy, d, chosen[i]))
  }

  /** What a selection promises: each chosen sequence found room in its turn, each other one did not. */
  ghost predicate Greedy(q: Query, cs: seq<Candidate>, chosen: seq<Candidate>)
    requires q.groupSize > 0
  {
    && multiset(chosen) <= multiset(cs)
    && (forall i | 0 <= i < |chosen| :: FoundRoom(q, chosen[..i], chosen[i]))
    && (forall i, j | 0 <= i < j < |chosen| :: Sooner(q.strategy, chosen[i], chosen[j]))
    && (forall d, g | d in cs && Asks(q, d, g) && d !in chosen :: exists n: nat :: PassedOver(q, chosen, d, g, n))
  }

  /** The names of `chosen` in their order, and the pages each group gives. */
  ghost predicate Reports(q: Query, chosen: seq<Candidate>, names: seq<string>, pages: seq<int>)
    requires q.groupSize > 0
  {
    && |names| == |chosen| && (forall i | 0 <= i < |chosen| :: names[i] == chosen[i].uuid)
    && |pages| == |q.free| / q.groupSize && (forall g | 0 <= g < |pages| :: pages[g] == PagesAt(q, chosen, g))
  }

  lemma {:induction false} PagesAtSnoc(q: Query, cs: seq<Candidate>, c: Candidate, g: int)
    ensures PagesAt(q, cs + [c], g) == PagesAt(q, cs, g) + (if LivesIn(q, c, g) then c.pagesNeeded else 0)
    ensures RowsAt(q, cs + [c], g) == RowsAt(q, cs, g) + (if LivesIn(q, c, g) then 1 else 0)
  {
    if cs == [] {
      assert cs + [c] == [c];
    } else {
      PagesAtSnoc(q, cs[1..], c, g);
      assert (cs + [c])[1..] == cs[1..] + [c];
    }
  }

  lemma {:induction false} PagesAtGrow(q: Query, cs: seq<Candidate>, n: nat, g: int)
    requires n <= |cs|
    ensures PagesAt(q, cs[..n], g) <= PagesAt(q, cs, g) && RowsAt(q, cs[..n], g) <= RowsAt(q, cs, g)
  {
    if n > 0 {
      PagesAtGrow(q, cs[1..], n - 1, g);
      assert cs[..n][1..] == cs[1..][..n - 1];
    }
  }

  lemma {:induction false} SumsAgree(q: Query, cs: seq<Candidate>, g: int)
    requires GroupsDivide(q)
    ensures PagesIn(LimitsOf(q), cs, g) == PagesAt(q, cs, g) && RowsIn(LimitsOf(q), cs, g) == RowsAt(q, cs, g)
    decreases |cs|
  {
    if cs != [] {
      var n := |cs| - 1;
      SumsAgree(q, cs[..n], g);
      PagesAtSnoc(q, cs[..n], cs[n], g);
      assert cs == cs[..n] + [cs[n]];
    }
  }

  lemma {:induction false} MinOfIff(xs: seq<int>, v: int)
    requires xs != []
    ensures v <= MinOf(xs) <==> forall i | 0 <= i < |xs| :: v <= xs[i]
  {
    if |xs| > 1 {
      var n := |xs| - 1;
      MinOfIff(xs[..n], v);
      assert (forall i | 0 <= i < |xs| :: v <= xs[i]) <==> (forall i | 0 <= i < n :: v <= xs[..n][i]) && v <= xs[n] by {
        if forall i | 0 <= i < n :: v <= xs[..n][i] { assert forall i | 0 <= i < n :: v <= xs[i]; }
      }
    }
  }

  lemma TightestRank(q: Query, g: nat, v: int)
    requires GroupsDivide(q) && g < |q.free| / q.groupSize
    ensures v <= LimitsOf(q).pages[g] <==>
              forall rank | 0 <= rank < |q.free| && g * q.groupSize <= rank < g * q.groupSize + q.groupSize :: v <= q.free[rank]
  {
    GroupSlice(|q.free|, q.groupSize, g);
    var at := g * q.groupSize;
    var slice := q.free[at..at + q.groupSize];
    MinOfIff(slice, v);
    assert forall i | 0 <= i < |slice| :: slice[i] == q.free[at + i];
    if v <= MinOf(slice) {
      forall rank | 0 <= rank < |q.free| && at <= rank < at + q.groupSize ensures v <= q.free[rank] {
        assert slice[rank - at] == q.free[rank];
      }
    }
  }

  lemma FitsIff(q: Query, chosen: seq<Candidate>, c: Candidate, g: int)
    requires GroupsDivide(q) && Asks(q, c, g)
    ensures Fits(LimitsOf(q), chosen, c) <==> HasRoom(q, chosen, c, g)
  {
    SumsAgree(q, chosen, g);
    TightestRank(q, g, PagesAt(q, chosen, g) + c.pagesNeeded);
    hide PagesIn, RowsIn, PagesAt, RowsAt, MinOf;
  }

  lemma AsksIff(q: Query, c: Candidate)
    requires GroupsDivide(q)
    ensures c.uuid !in q.exclude && Eligible(LimitsOf(q), c) <==> exists g :: Asks(q, c, g)
  {
    if c.uuid !in q.exclude && Eligible(LimitsOf(q), c) {
      assert Asks(q, c, GroupOf(LimitsOf(q), c).value);
    }
  }

  /** Each chosen sequence fits next to the ones chosen before it. */
  lemma {:induction false} ChosenFits(l: Limits, order: seq<Candidate>, k: nat)
    requires k < |Choose(l, order)|
    ensures Fits(l, Choose(l, order)[..k], Choose(l, order)[k]) && Choose(l, order)[k] in order
    decreases |order|
  {
    var init, c := order[..|order| - 1], order[|order| - 1];
    var chosen := Choose(l, init);
    if k < |chosen| {
      ChosenFits(l, init, k);
      assert Choose(l, order)[..k] == chosen[..k] && Choose(l, order)[k] == chosen[k];
    } else {
      assert Choose(l, order)[..k] == chosen && Choose(l, order)[k] == c;
    }
  }

  lemma {:induction false} ChoiceKeepsSorted(l: Limits, order: seq<Candidate>, le: (Candidate, Candidate) -> bool)
    requires Sorted(order, le)
    ensures Sorted(Choose(l, order), le) && multiset(Choose(l, order)) <= multiset(order)
    decreases |order|
  {
    if order != [] {
      var init, c := order[..|order| - 1], order[|order| - 1];
      ChoiceKeepsSorted(l, init, le);
      assert order == init + [c];
      forall i | 0 <= i < |Choose(l, init)| ensures le(Choose(l, init)[i], c) {
        ChosenFits(l, init, i);
      }
    }
  }

  /** What is chosen later comes later in the order. */
  lemma {:induction false} LaterChosen(l: Limits, order: seq<Candidate>, le: (Candidate, Candidate) -> bool, n: nat, k: nat)
    requires Sorted(order, le) && n < |order| && le(order[n], order[n])
    requires |Choose(l, order[..n])| <= k < |Choose(l, order)|
    ensures le(order[n], Choose(l, order)[k])
    decreases |order|
  {
    var init, c := order[..|order| - 1], order[|order| - 1];
    if n < |init| {
      assert init[..n] == order[..n];
      if k < |Choose(l, init)| { LaterChosen(l, init, le, n, k); }
    }
  }

  lemma PassedOverInTurn(q: Query, cs: seq<Candidate>, d: Candidate, g: int) returns (n: nat)
    requires GroupsDivide(q) && d in cs && Asks(q, d, g) && d !in Choose(LimitsOf(q), LoadOrder(q, cs))
    ensures PassedOver(q, Choose(LimitsOf(q), LoadOrder(q, cs)), d, g, n)
  {
    hide Wanted, SortBy, CandidateLe, Choose, Sooner, HasRoom, Fits, LimitsOf, Asks;
    var l, le, order := LimitsOf(q), Order(q.strategy), LoadOrder(q, cs);
    var chosen := Choose(l, order);
    OrderIsTotal(q.strategy);
    SortIsSorted(Wanted(cs, q.exclude), le);
    SortMembership(Wanted(cs, q.exclude), le);
    WantedMembers(cs, q.exclude, d);
    AsksFacts(q, d, g);
    var i :| 0 <= i < |order| && order[i] == d;
    n := |Choose(l, order[..i])|;
    ChoiceGrows(l, order, i);
    assert chosen[..n] == Choose(l, order[..i]);
    FittingIsChosen(l, order, i);
    FitsIff(q, chosen[..n], d, g);
    forall k | 0 <= k < n ensures Sooner(q.strategy, chosen[k], d) {
      ChosenFits(l, order[..i], k);
      assert chosen[k] == Choose(l, order[..i])[k];
      SoonerIff(q.strategy, chosen[k], d);
    }
    forall k | n <= k < |chosen| ensures Sooner(q.strategy, d, chosen[k]) {
      LaterChosen(l, order, le, i, k);
      SoonerIff(q.strategy, d, chosen[k]);
    }
  }

  lemma AsksFacts(q: Query, c: Candidate, g: int)
    requires q.groupSize > 0 && Asks(q, c, g)
    ensures c.uuid !in q.exclude
  {
  }

  lemma ChosenOnce(q: Query, cs: seq<Candidate>)
    requires GroupsDivide(q)
    ensures multiset(Choose(LimitsOf(q), LoadOrder(q, cs))) <= multiset(cs)
  {
    hide Wanted, SortBy, Choose, LimitsOf;
    var le, w := Order(q.strategy), Wanted(cs, q.exclude);
    OrderIsTotal(q.strategy);
    SortIsSorted(w, le);
    SortIsPermutation(w, le);
    ChoiceKeepsSorted(LimitsOf(q), LoadOrder(q, cs), le);
    forall c ensures multiset(w)[c] <= multiset(cs)[c] { WantedIsFilter(cs, q.exclude, c); }
  }

  /** Every selection is the greedy one. */
  lemma SelectionIsGreedy(q: Query, cs: seq<Candidate>)
    requires GroupsDivide(q)
    ensures Greedy(q, cs, Choose(LimitsOf(q), LoadOrder(q, cs)))
  {
    hide Wanted, SortBy, CandidateLe, Choose, Sooner, HasRoom, Fits, LimitsOf, PassedOver, Asks, Eligible;
    var l, le, w := LimitsOf(q), Order(q.strategy), Wanted(cs, q.exclude);
    var order := LoadOrder(q, cs);
    var chosen := Choose(l, order);
    OrderIsTotal(q.strategy);
    SortIsSorted(w, le);
    SortMembership(w, le);
    ChoiceKeepsSorted(l, order, le);
    ChosenOnce(q, cs);
    forall i | 0 <= i < |chosen| ensures FoundRoom(q, chosen[..i], chosen[i]) {
      ChosenFits(l, order, i);
      WantedMembers(cs, q.exclude, chosen[i]);
      FitsFacts(l, chosen[..i], chosen[i]);
      AsksIff(q, chosen[i]);
      var g :| Asks(q, chosen[i], g);
      FitsIff(q, chosen[..i], chosen[i], g);
    }
    forall i, j | 0 <= i < j < |chosen| ensures Sooner(q.strategy, chosen[i], chosen[j]) {
      SoonerIff(q.strategy, chosen[i], chosen[j]);
    }
    forall d, g | d in cs && Asks(q, d, g) && d !in chosen ensures exists n: nat :: PassedOver(q, chosen, d, g, n) {
      var n := PassedOverInTurn(q, cs, d, g);
    }
  }

  lemma FitsFacts(l: Limits, chosen: seq<Candidate>, c: Candidate)
    requires Fits(l, chosen, c)
    ensures Eligible(l, c)
  {
  }

  /** Room for a chosen sequence is room, before it, for one that asks for no more of the same group. */
  lemma RoomBefore(q: Query, chosen: seq<Candidate>, n: nat, c: Candidate, d: Candidate, g: int)
    requires n <= |chosen| && d.pagesNeeded <= c.pagesNeeded && HasRoom(q, chosen, c, g)
    ensures HasRoom(q, chosen[..n], d, g)
  {
    PagesAtGrow(q, chosen, n, g);
  }

  lemma PassedOverFor(q: Query, chosen: seq<Candidate>, d: Candidate, g: int, n: nat, i: nat)
    requires PassedOver(q, chosen, d, g, n) && i < |chosen|
    ensures !HasRoom(q, chosen[..n], d, g) && (i < n ==> Sooner(q.strategy, chosen[i], d))
  {
  }

  /** A sequence that is loaded comes, by strategy, before one of its group that is not and asks for no more. */
  lemma LoadedComesFirst(q: Query, cs: seq<Candidate>, chosen: seq<Candidate>, c: Candidate, d: Candidate, g: int)
    requires q.groupSize > 0 && Greedy(q, cs, chosen)
    requires c in chosen && d in cs && d !in chosen && Asks(q, c, g) && Asks(q, d, g) && d.pagesNeeded <= c.pagesNeeded
    ensures q.strategy.LongestFirst? ==> c.decodedLength >= d.decodedLength
    ensures q.strategy.ShortestFirst? ==> c.decodedLength <= d.decodedLength
    ensures q.strategy.Fifo? || c.decodedLength == d.decodedLength ==>
              d.globalIdx.Some? ==> c.globalIdx.Some? && c.globalIdx.value <= d.globalIdx.value
    ensures q.strategy.Fifo? && c.globalIdx == d.globalIdx ==> Alphabetical(c.uuid, d.uuid)
  {
    hide HasRoom, Asks, Alphabetical, PassedOver;
    var i :| 0 <= i < |chosen| && chosen[i] == c;
    assert FoundRoom(q, chosen[..i], chosen[i]);
    var g' :| Asks(q, c, g') && HasRoom(q, chosen[..i], c, g');
    OneGroup(q, c, g, g');
    var n: nat :| PassedOver(q, chosen, d, g, n);
    if n <= i {
      assert chosen[..i][..n] == chosen[..n];
      RoomBefore(q, chosen[..i], n, c, d, g);
    }
    PassedOverFor(q, chosen, d, g, n, i);
  }

  lemma OneGroup(q: Query, c: Candidate, g: int, g': int)
    requires q.groupSize > 0 && Asks(q, c, g) && Asks(q, c, g')
    ensures g == g'
  {
  }

  lemma SelectionReports(q: Query, chosen: seq<Candidate>)
    requires GroupsDivide(q)
    ensures Reports(q, chosen, Names(chosen), PagesUsed(LimitsOf(q), chosen))
  {
    forall g | 0 <= g < |q.free| / q.groupSize ensures PagesUsed(LimitsOf(q), chosen)[g] == PagesAt(q, chosen, g) {
      SumsAgree(q, chosen, g);
    }
  }

  /** The pass reads every candidate of the order: it has its group, and its row limit if there are any. */
  predicate Accepted(l: Limits, c: Candidate) {
    (l.groupSize > 1 ==> c.decodeGroup.Some?) && Limited(l, c)
  }

  /** Who is read without a complaint: it names its group, and there is a row limit for it if there are any. */
  predicate Readable(q: Query, c: Candidate)
    requires q.groupSize > 0
  {
    && (q.groupSize > 1 ==> c.decodeGroup.Some?)
    && (q.rows.Some? && c.pagesNeeded > 0 ==>
          var g := if q.groupSize > 1 then c.decodeGroup.value else c.assignedRank;
          0 <= g < |q.free| / q.groupSize ==> g < |q.rows.value|)
  }

  lemma ReadableIff(q: Query, cs: seq<Candidate>)
    requires GroupsDivide(q)
    ensures AllGrouped(q, cs) && AllLimited(q, cs) <==> forall c | c in cs && c.uuid !in q.exclude :: Readable(q, c)
  {
    forall c ensures Accepted(LimitsOf(q), c) <==> Readable(q, c) {}
    hide Readable, Limited;
    if AllGrouped(q, cs) && AllLimited(q, cs) {
      forall c | c in cs && c.uuid !in q.exclude ensures Readable(q, c) { assert Accepted(LimitsOf(q), c); }
    }
    if forall c | c in cs && c.uuid !in q.exclude :: Readable(q, c) {
      forall i | 0 <= i < |cs| && cs[i].uuid !in q.exclude ensures Accepted(LimitsOf(q), cs[i]) { assert cs[i] in cs; }
    }
  }

  // ---- the selector as the source runs it ---------------------------------------------

  method CapacityPages(free: seq<int>, groupSize: nat) returns (pages: seq<int>)
    requires groupSize > 0 && |free| % groupSize == 0
    ensures pages == GroupPages(free, groupSize)
  {
    if groupSize == 1 {
      DivIs(|free|, 1, |free|);
      return free;
    }
    pages := [];
    for g := 0 to |free| / groupSize
      invariant |pages| == g && forall k | 0 <= k < g :: pages[k] == GroupPages(free, groupSize)[k]
    {
      GroupSlice(|free|, groupSize, g);
      pages := pages + [MinOf(free[g * groupSize..g * groupSize + groupSize])];
    }
  }

  method SelectForLoading(cs: seq<Candidate>, q: Query) returns (r: Option<(seq<string>, seq<int>)>)
    ensures Wanted(cs, q.exclude) == [] ==> r == Some(([], []))
    ensures Wanted(cs, q.exclude) != [] ==>
              if GroupsDivide(q) && AllGrouped(q, cs) && AllLimited(q, cs) then
                var l := LimitsOf(q);
                var chosen := Choose(l, LoadOrder(q, cs));
                r == Some((Names(chosen), PagesUsed(l, chosen)))
              else r == None
    ensures r.Some? <==>
              || (forall c | c in cs :: c.uuid in q.exclude)
              || (q.groupSize > 0 && |q.free| % q.groupSize == 0 && forall c | c in cs && c.uuid !in q.exclude :: Readable(q, c))
    ensures (forall c | c in cs :: c.uuid in q.exclude) ==> r == Some(([], []))
    ensures r.Some? && !(forall c | c in cs :: c.uuid in q.exclude) ==>
              exists chosen :: Greedy(q, cs, chosen) && Reports(q, chosen, r.value.0, r.value.1)
  {
    WantedNone(cs, q.exclude);
    var wanted: seq<Candidate> := [];
    for n := 0 to |cs|
      invariant wanted == Wanted(cs[..n], q.exclude)
    {
      assert cs[..n + 1][..n] == cs[..n];
      if cs[n].uuid !in q.exclude {
        wanted := wanted + [cs[n]];
      }
    }
    assert cs[..|cs|] == cs;
    if wanted == [] {
      return Some(([], []));
    }
    if q.groupSize <= 0 || |q.free| % q.groupSize != 0 {
      return None;
    }
    var pages := CapacityPages(q.free, q.groupSize);
    var order := SortBy(wanted, Order(q.strategy));
    AcceptedInOrder(q, cs);
    ReadableIff(q, cs);
    SelectionIsGreedy(q, cs);
    SelectionReports(q, Choose(LimitsOf(q), LoadOrder(q, cs)));
    hide Readable, Greedy, Reports, Choose, PagesUsed, Names, AllGrouped, AllLimited;
    r := GreedyPass(order, Limits(q.groupSize, pages, q.rows));
  }

  lemma WantedNone(cs: seq<Candidate>, exclude: set<string>)
    ensures Wanted(cs, exclude) == [] <==> forall c | c in cs :: c.uuid in exclude
  {
    forall c ensures c in Wanted(cs, exclude) <==> c in cs && c.uuid !in exclude { WantedMembers(cs, exclude, c); }
    if Wanted(cs, exclude) != [] { assert Wanted(cs, exclude)[0] in Wanted(cs, exclude); }
  }

  lemma AcceptedInOrder(q: Query, cs: seq<Candidate>)
    requires GroupsDivide(q)
    ensures AllGrouped(q, cs) && AllLimited(q, cs) <==>
              forall i | 0 <= i < |LoadOrder(q, cs)| :: Accepted(LimitsOf(q), LoadOrder(q, cs)[i])
  {
    hide Limited;
    var l, order := LimitsOf(q), LoadOrder(q, cs);
    SortMembership(Wanted(cs, q.exclude), Order(q.strategy));
    forall c ensures c in order <==> c in cs && c.uuid !in q.exclude { WantedMembers(cs, q.exclude, c); }
    if AllGrouped(q, cs) && AllLimited(q, cs) {
      forall i | 0 <= i < |order| ensures Accepted(l, order[i]) { assert order[i] in cs; }
    }
    if forall i | 0 <= i < |order| :: Accepted(l, order[i]) {
      forall i | 0 <= i < |cs| && cs[i].uuid !in q.exclude ensures Accepted(l, cs[i]) {
        assert cs[i] in order;
      }
    }
  }

  /** One pass with running page and row counters per group. */
  method GreedyPass(order: seq<Candidate>, l: Limits) returns (r: Option<(seq<string>, seq<int>)>)
    ensures if forall i | 0 <= i < |order| :: Accepted(l, order[i])
            then r == Some((Names(Choose(l, order)), PagesUsed(l, Choose(l, order))))
            else r == None
  {
    hide PagesUsed, RowsUsed, Names, Choose;
    var groups := |l.pages|;
    var uuids, used, loaded := [], seq(groups, _ => 0), seq(groups, _ => 0);
    ghost var chosen: seq<Candidate> := [];
    NoCounters(l);
    assert Choose(l, order[..0]) == [] by { ChooseNothing(l, order[..0]); }
    for n := 0 to |order|
      invariant chosen == Choose(l, order[..n])
      invariant forall i | 0 <= i < n :: Accepted(l, order[i])
      invariant uuids == Names(chosen) && used == PagesUsed(l, chosen) && loaded == RowsUsed(l, chosen)
    {
      var c := order[n];
      ChooseStep(l, order, n);
      if l.groupSize > 1 && c.decodeGroup.None? {
        return None;
      }
      var g := if l.groupSize > 1 then c.decodeGroup.value else c.assignedRank;
      if c.pagesNeeded == 0 || g < 0 || g >= groups {
        continue;
      }
      CounterAt(l, chosen, g);
      if l.rows.Some? && g >= |l.rows.value| {
        return None;
      }
      if l.rows.Some? && loaded[g] >= l.rows.value[g] {
        continue;
      }
      if used[g] + c.pagesNeeded <= l.pages[g] {
        CountersSnoc(l, chosen, c, g);
        uuids := uuids + [c.uuid];
        used := used[g := used[g] + c.pagesNeeded];
        loaded := loaded[g := loaded[g] + 1];
        chosen := chosen + [c];
      }
    }
    assert order[..|order|] == order;
    r := Some((uuids, used));
  }
}
