/**
 The page allocator of the QueryBook: a list of free page ranges, first-fit
 reservation, and coalescing on return.
 */
module Extents {
  import opened Options
  import opened Sorting
  import opened Arith

  datatype Extent = Extent(start: nat, count: nat) {
    function End(): nat { start + count }
    predicate Covers(p: int) { start <= p < start + count }
  }

  /** Ranges in address order inside [0, n), none empty, no two of them touching. */
  ghost predicate Canonical(fs: seq<Extent>, n: nat) {
    && (forall i | 0 <= i < |fs| :: fs[i].count > 0 && fs[i].End() <= n)
    && (forall i, j | 0 <= i < j < |fs| :: fs[i].End() < fs[j].start)
  }

  ghost predicate IsFree(fs: seq<Extent>, p: int) {
    exists i | 0 <= i < |fs| :: fs[i].Covers(p)
  }

  ghost predicate SamePages(xs: seq<Extent>, ys: seq<Extent>) {
    forall p :: IsFree(xs, p) <==> IsFree(ys, p)
  }

  lemma FreeSplit(fs: seq<Extent>, gs: seq<Extent>, p: int)
    ensures IsFree(fs + gs, p) <==> IsFree(fs, p) || IsFree(gs, p)
  {
    if IsFree(fs, p) {
      var i :| 0 <= i < |fs| && fs[i].Covers(p);
      assert (fs + gs)[i].Covers(p);
    }
    if IsFree(gs, p) {
      var i :| 0 <= i < |gs| && gs[i].Covers(p);
      assert (fs + gs)[|fs| + i].Covers(p);
    }
  }

  lemma FreeHead(fs: seq<Extent>, p: int)
    requires fs != []
    ensures IsFree(fs, p) <==> fs[0].Covers(p) || IsFree(fs[1..], p)
  {
    assert fs == [fs[0]] + fs[1..];
    FreeSplit([fs[0]], fs[1..], p);
    assert fs[0].Covers(p) ==> [fs[0]][0].Covers(p);
  }

  lemma FirstStart(xs: seq<Extent>, ys: seq<Extent>, n: nat)
    requires Canonical(xs, n) && Canonical(ys, n) && xs != [] && SamePages(xs, ys)
    ensures ys != [] && ys[0].start <= xs[0].start
  {
    assert xs[0].Covers(xs[0].start);
    assert IsFree(ys, xs[0].start);
    var j :| 0 <= j < |ys| && ys[j].Covers(xs[0].start);
    assert j == 0 || ys[0].End() < ys[j].start;
  }

  lemma GapAfterFirst(fs: seq<Extent>, n: nat)
    requires Canonical(fs, n) && fs != []
    ensures !IsFree(fs, fs[0].End())
  {
    assert forall j | 0 < j < |fs| :: fs[0].End() < fs[j].start;
  }

  lemma FirstEnd(xs: seq<Extent>, ys: seq<Extent>, n: nat)
    requires Canonical(xs, n) && Canonical(ys, n) && SamePages(xs, ys)
    requires xs != [] && ys != [] && xs[0].start == ys[0].start
    ensures ys[0].End() <= xs[0].End()
  {
    GapAfterFirst(xs, n);
    assert !IsFree(ys, xs[0].End());
    assert !ys[0].Covers(xs[0].End());
  }

  /** A set of free pages has exactly one sorted, fully coalesced free list. */
  lemma {:induction false} CanonicalIsUnique(xs: seq<Extent>, ys: seq<Extent>, n: nat)
    requires Canonical(xs, n) && Canonical(ys, n) && SamePages(xs, ys)
    ensures xs == ys
  {
    if xs == [] {
      if ys != [] {
        FirstStart(ys, xs, n);
      }
    } else {
      FirstStart(xs, ys, n);
      FirstStart(ys, xs, n);
      FirstEnd(xs, ys, n);
      FirstEnd(ys, xs, n);
      assert xs[0] == ys[0];
      forall p
        ensures IsFree(xs[1..], p) <==> IsFree(ys[1..], p)
      {
        assert IsFree(xs, p) <==> IsFree(ys, p);
        FreeHead(xs, p);
        FreeHead(ys, p);
        HeadDisjoint(xs, n, p);
        HeadDisjoint(ys, n, p);
      }
      CanonicalIsUnique(xs[1..], ys[1..], n);
      assert xs == [xs[0]] + xs[1..] && ys == [ys[0]] + ys[1..];
    }
  }

  lemma HeadDisjoint(fs: seq<Extent>, n: nat, p: int)
    requires Canonical(fs, n) && fs != []
    ensures !(fs[0].Covers(p) && IsFree(fs[1..], p))
  {
    if IsFree(fs[1..], p) {
      var j :| 0 <= j < |fs[1..]| && fs[1..][j].Covers(p);
      assert fs[0].End() < fs[j + 1].start;
    }
  }

  // ---- reservation -------------------------------------------------------

  /** First fit: the lowest range that is long enough gives up its first `k` pages. */
  function Take(fs: seq<Extent>, k: nat): Option<(nat, seq<Extent>)> {
    if fs == [] then None
    else if fs[0].count < k then
      match Take(fs[1..], k)
      case None => None
      case Some((s, rest)) => Some((s, [fs[0]] + rest))
    else if fs[0].count == k then Some((fs[0].start, fs[1..]))
    else Some((fs[0].start, [Extent(fs[0].start + k, fs[0].count - k)] + fs[1..]))
  }

  predicate Fits(fs: seq<Extent>, k: nat) {
    exists i | 0 <= i < |fs| :: k <= fs[i].count
  }

  /** A reservation succeeds exactly when some free range is long enough. */
  lemma {:induction false} TakeSucceedsIff(fs: seq<Extent>, k: nat)
    ensures Take(fs, k).Some? <==> Fits(fs, k)
  {
    if fs != [] {
      TakeSucceedsIff(fs[1..], k);
      if Fits(fs, k) && fs[0].count < k {
        var i :| 0 <= i < |fs| && k <= fs[i].count;
        assert fs[1..][i - 1].count >= k;
      }
      if Fits(fs[1..], k) {
        var i :| 0 <= i < |fs[1..]| && k <= fs[1..][i].count;
        assert fs[i + 1].count >= k;
      }
    }
  }

  /** What a reservation does to the pool: `[s, s+k)` leaves it, nothing else moves. */
  ghost predicate Reserved(fs: seq<Extent>, k: nat, s: nat, rest: seq<Extent>, n: nat) {
    && Canonical(rest, n)
    && s + k <= n
    && (forall p :: IsFree(fs, p) <==> IsFree(rest, p) || s <= p < s + k)
    && (forall p | s <= p < s + k :: !IsFree(rest, p))
  }

  lemma TakeFromHead(fs: seq<Extent>, k: nat, n: nat)
    requires Canonical(fs, n) && fs != [] && 0 < k <= fs[0].count
    ensures Reserved(fs, k, fs[0].start, Take(fs, k).value.1, n)
  {
    var s, rest, tail := fs[0].start, Take(fs, k).value.1, fs[1..];
    forall p
      ensures IsFree(fs, p) <==> IsFree(rest, p) || s <= p < s + k
      ensures s <= p < s + k ==> !IsFree(rest, p)
    {
      FreeHead(fs, p);
      HeadDisjoint(fs, n, p);
      if fs[0].count > k {
        FreeHead(rest, p);
        assert rest[1..] == tail;
      }
    }
  }

  lemma TakeFromTail(fs: seq<Extent>, k: nat, n: nat, s: nat, rest: seq<Extent>)
    requires Canonical(fs, n) && fs != [] && Reserved(fs[1..], k, s, rest, n) && k > 0
    requires rest != [] ==> |fs| > 1 && fs[1].start <= rest[0].start
    ensures Reserved(fs, k, s, [fs[0]] + rest, n)
  {
    var out, tail := [fs[0]] + rest, fs[1..];
    assert out[1..] == rest;
    forall p
      ensures IsFree(fs, p) <==> IsFree(out, p) || s <= p < s + k
      ensures s <= p < s + k ==> !IsFree(out, p)
    {
      FreeHead(fs, p);
      FreeHead(out, p);
      HeadDisjoint(fs, n, p);
      assert IsFree(tail, p) <==> IsFree(rest, p) || s <= p < s + k;
    }
    assert Canonical(out, n) by {
      if rest != [] {
        assert fs[0].End() < fs[1].start <= rest[0].start;
        assert forall j | 0 <= j < |rest| :: rest[0].start <= rest[j].start;
      }
    }
  }

  /** The reservation is a free range, the lowest one with room, and the pool stays canonical. */
  lemma {:induction false} TakeReserves(fs: seq<Extent>, k: nat, n: nat)
    requires Canonical(fs, n) && k > 0 && Take(fs, k).Some?
    ensures var (s, rest) := Take(fs, k).value;
            && Reserved(fs, k, s, rest, n)
            && (forall i | 0 <= i < |fs| && k <= fs[i].count :: s <= fs[i].start)
            && (rest != [] ==> fs[0].start <= rest[0].start)
  {
    if fs[0].count < k {
      TakeReserves(fs[1..], k, n);
      var (s, rest) := Take(fs[1..], k).value;
      TakeFromTail(fs, k, n, s, rest);
      assert forall i | 0 <= i < |fs| && k <= fs[i].count :: i > 0 && fs[i] == fs[1..][i - 1];
    } else {
      TakeFromHead(fs, k, n);
      assert forall i | 0 < i < |fs| :: fs[0].End() < fs[i].start;
    }
  }

  /** First fit passes over ranges that are too short without changing them. */
  lemma {:induction false} TakeSkips(pre: seq<Extent>, fs: seq<Extent>, k: nat)
    requires forall j | 0 <= j < |pre| :: pre[j].count < k
    ensures Take(pre + fs, k) ==
              match Take(fs, k) case None => None case Some((s, rest)) => Some((s, pre + rest))
    decreases |pre|
  {
    if pre == [] {
      assert pre + fs == fs;
      if Take(fs, k).Some? { assert pre + Take(fs, k).value.1 == Take(fs, k).value.1; }
    } else {
      TakeSkips(pre[1..], fs, k);
      assert (pre + fs)[1..] == pre[1..] + fs;
      if Take(fs, k).Some? {
        var rest := Take(fs, k).value.1;
        assert [pre[0]] + (pre[1..] + rest) == pre + rest;
      }
    }
  }

  lemma TakeAt(fs: seq<Extent>, k: nat, i: nat)
    requires i < |fs| && k <= fs[i].count && forall j | 0 <= j < i :: fs[j].count < k
    ensures Take(fs, k) == Some((fs[i].start,
              if fs[i].count == k then fs[..i] + fs[i + 1..]
              else fs[i := Extent(fs[i].start + k, fs[i].count - k)]))
  {
    TakeSkips(fs[..i], fs[i..], k);
    assert fs[..i] + fs[i..] == fs && fs[i..][1..] == fs[i + 1..];
    var e := Extent(fs[i].start + k, fs[i].count - k);
    assert fs[..i] + ([e] + fs[i + 1..]) == fs[i := e];
  }

  // ---- return ------------------------------------------------------------

  predicate ExtentLe(a: Extent, b: Extent) {
    a.start < b.start || (a.start == b.start && a.count <= b.count)
  }

  lemma ExtentLeIsOrder()
    ensures TotalPreorder(ExtentLe)
  {
  }

  /** One step of the merge: open a new range, or stretch the last one over `c`. */
  function Absorb(merged: seq<Extent>, c: Extent): seq<Extent> {
    if merged == [] || merged[|merged| - 1].End() < c.start then merged + [c]
    else
      var last := merged[|merged| - 1];
      merged[..|merged| - 1] + [Extent(last.start, Max(last.End(), c.End()) - last.start)]
  }

  function Merge(merged: seq<Extent>, rest: seq<Extent>): seq<Extent>
    decreases |rest|
  {
    if rest == [] then merged else Merge(Absorb(merged, rest[0]), rest[1..])
  }

  lemma MergeFrom(merged: seq<Extent>, sorted: seq<Extent>, i: nat)
    requires i < |sorted|
    ensures Merge(merged, sorted[i..]) == Merge(Absorb(merged, sorted[i]), sorted[i + 1..])
  {
    assert sorted[i..][1..] == sorted[i + 1..];
  }

  function Return(fs: seq<Extent>, e: Extent): seq<Extent> {
    if e.count == 0 then fs else Merge([], SortBy(fs + [e], ExtentLe))
  }

  lemma AbsorbApart(merged: seq<Extent>, c: Extent, n: nat)
    requires Canonical(merged, n) && c.count > 0 && c.End() <= n
    requires merged == [] || merged[|merged| - 1].End() < c.start
    ensures Canonical(Absorb(merged, c), n) && Absorb(merged, c) == merged + [c]
    ensures forall p :: IsFree(Absorb(merged, c), p) <==> IsFree(merged, p) || c.Covers(p)
  {
    forall p
      ensures IsFree(merged + [c], p) <==> IsFree(merged, p) || c.Covers(p)
    {
      FreeSplit(merged, [c], p);
      assert c.Covers(p) <==> [c][0].Covers(p);
    }
  }

  lemma AbsorbTouching(merged: seq<Extent>, c: Extent, n: nat)
    requires Canonical(merged, n) && c.count > 0 && c.End() <= n
    requires merged != [] && merged[|merged| - 1].start <= c.start <= merged[|merged| - 1].End()
    ensures Canonical(Absorb(merged, c), n)
    ensures Absorb(merged, c) != [] && Absorb(merged, c)[|Absorb(merged, c)| - 1].start <= c.start
    ensures forall p :: IsFree(Absorb(merged, c), p) <==> IsFree(merged, p) || c.Covers(p)
  {
    var out := Absorb(merged, c);
    var init, last := merged[..|merged| - 1], merged[|merged| - 1];
    var wide := out[|out| - 1];
    assert out == init + [wide] && merged == init + [last];
    forall p
      ensures IsFree(out, p) <==> IsFree(merged, p) || c.Covers(p)
    {
      FreeSplit(init, [wide], p);
      FreeSplit(init, [last], p);
      assert wide.Covers(p) <==> [wide][0].Covers(p);
      assert last.Covers(p) <==> [last][0].Covers(p);
    }
  }

  lemma AbsorbStep(merged: seq<Extent>, c: Extent, n: nat)
    requires Canonical(merged, n) && c.count > 0 && c.End() <= n
    requires merged != [] ==> merged[|merged| - 1].start <= c.start
    ensures Canonical(Absorb(merged, c), n)
    ensures Absorb(merged, c) != [] && Absorb(merged, c)[|Absorb(merged, c)| - 1].start <= c.start
    ensures forall p :: IsFree(Absorb(merged, c), p) <==> IsFree(merged, p) || c.Covers(p)
  {
    hide Canonical, IsFree, Absorb;
    if merged == [] || merged[|merged| - 1].End() < c.start {
      AbsorbApart(merged, c, n);
    } else {
      AbsorbTouching(merged, c, n);
    }
  }

  lemma {:induction false} MergeCanonical(merged: seq<Extent>, rest: seq<Extent>, n: nat)
    requires Canonical(merged, n)
    requires Sorted(rest, ExtentLe)
    requires forall i | 0 <= i < |rest| :: rest[i].count > 0 && rest[i].End() <= n
    requires merged != [] && rest != [] ==> merged[|merged| - 1].start <= rest[0].start
    ensures Canonical(Merge(merged, rest), n)
    ensures forall p :: IsFree(Merge(merged, rest), p) <==> IsFree(merged, p) || IsFree(rest, p)
    decreases |rest|
  {
    if rest == [] {
      assert forall p :: !IsFree(rest, p);
    } else {
      AbsorbStep(merged, rest[0], n);
      MergeCanonical(Absorb(merged, rest[0]), rest[1..], n);
      forall p
        ensures IsFree(Merge(merged, rest), p) <==> IsFree(merged, p) || IsFree(rest, p)
      {
        FreeHead(rest, p);
      }
    }
  }

  lemma FreePermutation(xs: seq<Extent>, ys: seq<Extent>, p: int)
    requires forall x :: x in xs <==> x in ys
    ensures IsFree(xs, p) <==> IsFree(ys, p)
  {
    if IsFree(xs, p) {
      var i :| 0 <= i < |xs| && xs[i].Covers(p);
      assert xs[i] in ys;
    }
    if IsFree(ys, p) {
      var i :| 0 <= i < |ys| && ys[i].Covers(p);
      assert ys[i] in xs;
    }
  }

  /** Returning pages gives the canonical list of the old free pages plus the returned ones. */
  lemma ReturnIsCanonicalUnion(fs: seq<Extent>, e: Extent, n: nat)
    requires Canonical(fs, n) && e.End() <= n
    ensures Canonical(Return(fs, e), n)
    ensures forall p :: IsFree(Return(fs, e), p) <==> IsFree(fs, p) || e.Covers(p)
  {
    if e.count > 0 {
      var all := fs + [e];
      var sorted := SortBy(all, ExtentLe);
      ExtentLeIsOrder();
      SortIsSorted(all, ExtentLe);
      SortMembership(all, ExtentLe);
      assert forall i | 0 <= i < |sorted| :: sorted[i] in all;
      MergeCanonical([], sorted, n);
      forall p
        ensures IsFree(Return(fs, e), p) <==> IsFree(fs, p) || e.Covers(p)
      {
        assert !IsFree([], p);
        FreePermutation(sorted, all, p);
        FreeSplit(fs, [e], p);
        assert e.Covers(p) <==> [e][0].Covers(p);
      }
    }
  }

  // ---- batches -----------------------------------------------------------

  /** Reserves the requests one after the other, or fails as a whole. */
  function TakeAll(fs: seq<Extent>, ks: seq<nat>): Option<(seq<Extent>, seq<Extent>)>
    decreases |ks|
  {
    if ks == [] then Some(([], fs))
    else
      match Take(fs, ks[0])
      case None => None
      case Some((s, rest)) =>
        match TakeAll(rest, ks[1..])
        case None => None
        case Some((es, rest')) => Some(([Extent(s, ks[0])] + es, rest'))
  }

  function ReturnAll(fs: seq<Extent>, es: seq<Extent>): seq<Extent>
    decreases |es|
  {
    if es == [] then fs else ReturnAll(Return(fs, es[0]), es[1..])
  }

  lemma {:induction false} TakeAllReserves(fs: seq<Extent>, ks: seq<nat>, n: nat)
    requires Canonical(fs, n) && (forall i | 0 <= i < |ks| :: ks[i] > 0) && TakeAll(fs, ks).Some?
    ensures var (es, rest) := TakeAll(fs, ks).value;
            && |es| == |ks|
            && Canonical(rest, n)
            && (forall i | 0 <= i < |es| :: es[i].count == ks[i] && es[i].End() <= n)
            && (forall p :: IsFree(fs, p) <==> IsFree(rest, p) || IsFree(es, p))
            && (forall p :: !(IsFree(rest, p) && IsFree(es, p)))
    decreases |ks|
  {
    var (es, rest) := TakeAll(fs, ks).value;
    if ks != [] {
      TakeReserves(fs, ks[0], n);
      var (s, mid) := Take(fs, ks[0]).value;
      TakeAllReserves(mid, ks[1..], n);
      var (es', _) := TakeAll(mid, ks[1..]).value;
      forall p
        ensures IsFree(fs, p) <==> IsFree(rest, p) || IsFree(es, p)
        ensures !(IsFree(rest, p) && IsFree(es, p))
      {
        FreeHead(es, p);
        assert es[1..] == es';
        assert IsFree(fs, p) <==> IsFree(mid, p) || s <= p < s + ks[0];
        assert IsFree(mid, p) <==> IsFree(rest, p) || IsFree(es', p);
      }
    }
  }

  lemma {:induction false} ReturnAllIsCanonicalUnion(fs: seq<Extent>, es: seq<Extent>, n: nat)
    requires Canonical(fs, n) && (forall i | 0 <= i < |es| :: es[i].End() <= n)
    ensures Canonical(ReturnAll(fs, es), n)
    ensures forall p :: IsFree(ReturnAll(fs, es), p) <==> IsFree(fs, p) || IsFree(es, p)
    decreases |es|
  {
    if es == [] {
      assert forall p :: !IsFree(es, p);
    } else {
      ReturnIsCanonicalUnion(fs, es[0], n);
      ReturnAllIsCanonicalUnion(Return(fs, es[0]), es[1..], n);
      forall p
        ensures IsFree(ReturnAll(fs, es), p) <==> IsFree(fs, p) || IsFree(es, p)
      {
        FreeHead(es, p);
      }
    }
  }

  /**
   Reserving a batch and giving the ranges back, in whatever order, restores
   the very same free list.
   */
  lemma ReleaseOrderIsIrrelevant(fs: seq<Extent>, ks: seq<nat>, back: seq<Extent>, n: nat)
    requires Canonical(fs, n) && (forall i | 0 <= i < |ks| :: ks[i] > 0) && TakeAll(fs, ks).Some?
    requires multiset(back) == multiset(TakeAll(fs, ks).value.0)
    ensures ReturnAll(TakeAll(fs, ks).value.1, back) == fs
  {
    TakeAllReserves(fs, ks, n);
    var (es, rest) := TakeAll(fs, ks).value;
    forall x
      ensures x in back <==> x in es
    {
      assert x in back <==> x in multiset(back);
      assert x in es <==> x in multiset(es);
    }
    assert forall i | 0 <= i < |back| :: back[i] in es;
    ReturnAllIsCanonicalUnion(rest, back, n);
    forall p
      ensures IsFree(ReturnAll(rest, back), p) <==> IsFree(fs, p)
    {
      FreePermutation(back, es, p);
    }
    CanonicalIsUnique(ReturnAll(rest, back), fs, n);
  }

  // ---- capacity ----------------------------------------------------------

  /** How many reservations of `k` pages the free ranges hold side by side. */
  function FreeCount(fs: seq<Extent>, k: nat): nat
    requires k > 0
  {
    if fs == [] then 0 else fs[0].count / k + FreeCount(fs[1..], k)
  }

  lemma DivStep(c: nat, k: nat)
    requires 0 < k <= c
    ensures (c - k) / k == c / k - 1
    ensures c / k >= 1
  {
    DivBounds(c, k);
    DivIs(c - k, k, c / k - 1);
    DivMonotone(k, c, k);
    DivIs(k, k, 1);
  }

  lemma {:induction false} TakeDropsCountByOne(fs: seq<Extent>, k: nat)
    requires k > 0
    ensures Take(fs, k).Some? <==> FreeCount(fs, k) > 0
    ensures Take(fs, k).Some? ==> FreeCount(Take(fs, k).value.1, k) == FreeCount(fs, k) - 1
  {
    if fs != [] {
      TakeDropsCountByOne(fs[1..], k);
      if fs[0].count < k {
        DivIs(fs[0].count, k, 0);
      } else {
        DivStep(fs[0].count, k);
        if fs[0].count == k {
          assert (fs[0].count - k) / k == 0;
        }
      }
    }
  }

  /** `m` equal requests fit exactly when the advertised free count allows `m`. */
  lemma {:induction false} EqualRequestsFitIff(fs: seq<Extent>, k: nat, m: nat)
    requires k > 0
    ensures TakeAll(fs, seq(m, _ => k)).Some? <==> m <= FreeCount(fs, k)
    decreases m
  {
    TakeDropsCountByOne(fs, k);
    if m > 0 {
      var ks := seq(m, _ => k);
      assert ks[1..] == seq(m - 1, _ => k);
      if Take(fs, k).Some? {
        EqualRequestsFitIff(Take(fs, k).value.1, k, m - 1);
      }
    }
  }
}
