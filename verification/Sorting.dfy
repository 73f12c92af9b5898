/**
 Python's `sorted` and `list.sort`: a stable sort by a key order.  Every
 scheduler decision in the repository that must agree across ranks rests on
 one of these calls, so the result is characterised here once.
 */
module Sorting {

  /** A key order: any two elements compare, and comparisons chain. */
  ghost predicate TotalPreorder<T(!new)>(le: (T, T) -> bool) {
    && (forall a, b :: le(a, b) || le(b, a))
    && (forall a, b, c :: le(a, b) && le(b, c) ==> le(a, c))
  }

  /** No two different elements of `xs` share a key. */
  ghost predicate DistinctKeys<T>(xs: seq<T>, le: (T, T) -> bool) {
    forall a, b | a in xs && b in xs && le(a, b) && le(b, a) :: a == b
  }

  ghost predicate Sorted<T>(xs: seq<T>, le: (T, T) -> bool) {
    forall i, j | 0 <= i < j < |xs| :: le(xs[i], xs[j])
  }

  /** Puts `x` in front of the first element it does not come after. */
  function Insert<T>(x: T, ys: seq<T>, le: (T, T) -> bool): seq<T> {
    if ys == [] then [x]
    else if le(x, ys[0]) then [x] + ys
    else [ys[0]] + Insert(x, ys[1..], le)
  }

  function SortBy<T>(xs: seq<T>, le: (T, T) -> bool): seq<T> {
    if xs == [] then [] else Insert(xs[0], SortBy(xs[1..], le), le)
  }

  lemma {:induction false} InsertIsPermutation<T>(x: T, ys: seq<T>, le: (T, T) -> bool)
    ensures multiset(Insert(x, ys, le)) == multiset([x] + ys)
    ensures |Insert(x, ys, le)| == |ys| + 1
  {
    if ys != [] && !le(x, ys[0]) {
      InsertIsPermutation(x, ys[1..], le);
      assert ys == [ys[0]] + ys[1..];
    }
  }

  /** Sorting neither loses, invents nor duplicates an element. */
  lemma {:induction false} SortIsPermutation<T>(xs: seq<T>, le: (T, T) -> bool)
    ensures multiset(SortBy(xs, le)) == multiset(xs)
    ensures |SortBy(xs, le)| == |xs|
  {
    if xs != [] {
      SortIsPermutation(xs[1..], le);
      InsertIsPermutation(xs[0], SortBy(xs[1..], le), le);
      assert xs == [xs[0]] + xs[1..];
    }
  }

  lemma SortMembership<T>(xs: seq<T>, le: (T, T) -> bool)
    ensures forall x :: x in SortBy(xs, le) <==> x in xs
  {
    SortIsPermutation(xs, le);
    forall x
      ensures x in SortBy(xs, le) <==> x in xs
    {
      assert x in SortBy(xs, le) <==> x in multiset(SortBy(xs, le));
      assert x in xs <==> x in multiset(xs);
    }
  }

  lemma {:induction false} InsertKeepsSorted<T(!new)>(x: T, ys: seq<T>, le: (T, T) -> bool)
    requires TotalPreorder(le) && Sorted(ys, le)
    ensures Sorted(Insert(x, ys, le), le)
  {
    if ys != [] && !le(x, ys[0]) {
      InsertKeepsSorted(x, ys[1..], le);
      InsertIsPermutation(x, ys[1..], le);
      var r := Insert(x, ys[1..], le);
      forall j | 0 <= j < |r|
        ensures le(ys[0], r[j])
      {
        assert r[j] in multiset(r);
        assert r[j] == x || r[j] in ys[1..];
      }
    }
  }

  lemma {:induction false} SortIsSorted<T(!new)>(xs: seq<T>, le: (T, T) -> bool)
    requires TotalPreorder(le)
    ensures Sorted(SortBy(xs, le), le)
  {
    if xs != [] {
      SortIsSorted(xs[1..], le);
      InsertKeepsSorted(xs[0], SortBy(xs[1..], le), le);
    }
  }

  /** A collection with distinct keys has exactly one sorted arrangement. */
  lemma {:induction false} SortedIsUnique<T(!new)>(xs: seq<T>, ys: seq<T>, le: (T, T) -> bool)
    requires TotalPreorder(le)
    requires Sorted(xs, le) && Sorted(ys, le)
    requires multiset(xs) == multiset(ys)
    requires DistinctKeys(xs, le)
    ensures xs == ys
  {
    assert |xs| == |multiset(xs)| == |multiset(ys)| == |ys|;
    if xs != [] {
      HeadsAgree(xs, ys, le);
      TailsAgree(xs, ys);
      SortedIsUnique(xs[1..], ys[1..], le);
      assert xs == [xs[0]] + xs[1..] && ys == [ys[0]] + ys[1..];
    }
  }

  lemma HeadsAgree<T>(xs: seq<T>, ys: seq<T>, le: (T, T) -> bool)
    requires Sorted(xs, le) && Sorted(ys, le) && DistinctKeys(xs, le) && multiset(xs) == multiset(ys)
    requires xs != [] && ys != [] && (forall a, b | a in xs && b in xs :: le(a, b) || le(b, a))
    ensures xs[0] == ys[0]
  {
    assert xs[0] in multiset(ys) && ys[0] in multiset(xs);
  }

  lemma TailsAgree<T>(xs: seq<T>, ys: seq<T>)
    requires xs != [] && ys != [] && xs[0] == ys[0] && multiset(xs) == multiset(ys)
    ensures multiset(xs[1..]) == multiset(ys[1..])
  {
    assert xs == [xs[0]] + xs[1..] && ys == [ys[0]] + ys[1..];
    assert multiset(xs[1..]) == multiset(xs) - multiset{xs[0]};
    assert multiset(ys[1..]) == multiset(ys) - multiset{ys[0]};
  }

  /** The sorted result depends on the elements, not on the order they came in. */
  lemma SortIgnoresInputOrder<T(!new)>(xs: seq<T>, ys: seq<T>, le: (T, T) -> bool)
    requires TotalPreorder(le)
    requires multiset(xs) == multiset(ys)
    requires DistinctKeys(xs, le)
    ensures SortBy(xs, le) == SortBy(ys, le)
  {
    SortIsPermutation(xs, le);
    SortIsPermutation(ys, le);
    SortIsSorted(xs, le);
    SortIsSorted(ys, le);
    SortMembership(xs, le);
    SortedIsUnique(SortBy(xs, le), SortBy(ys, le), le);
  }

  /** With distinct keys, any sorted arrangement of the elements is the sorted result. */
  lemma SortedArrangement<T(!new)>(xs: seq<T>, arranged: seq<T>, le: (T, T) -> bool)
    requires TotalPreorder(le) && DistinctKeys(xs, le)
    requires Sorted(arranged, le) && multiset(arranged) == multiset(xs)
    ensures SortBy(xs, le) == arranged
  {
    SortIsPermutation(xs, le);
    SortIsSorted(xs, le);
    SortMembership(xs, le);
    SortedIsUnique(SortBy(xs, le), arranged, le);
  }

  /** Where `x` goes: in front of the first element it does not come after. */
  function Place<T>(x: T, ys: seq<T>, le: (T, T) -> bool): (p: nat)
    ensures p <= |ys| && (forall i | 0 <= i < p :: !le(x, ys[i])) && (p < |ys| ==> le(x, ys[p]))
  {
    if ys == [] || le(x, ys[0]) then 0 else 1 + Place(x, ys[1..], le)
  }

  lemma {:induction false} InsertAtPlace<T>(x: T, ys: seq<T>, le: (T, T) -> bool, p: nat)
    requires p <= |ys| && (forall i | 0 <= i < p :: !le(x, ys[i])) && (p < |ys| ==> le(x, ys[p]))
    ensures Insert(x, ys, le) == ys[..p] + [x] + ys[p..]
    decreases |ys|
  {
    if p == 0 {
      if ys != [] { assert ys[0..] == ys; }
    } else {
      InsertAtPlace(x, ys[1..], le, p - 1);
      assert ys[..p] == [ys[0]] + ys[1..][..p - 1] && ys[1..][p - 1..] == ys[p..];
    }
  }

  lemma SameKey<T(!new)>(a: T, b: T, c: T, le: (T, T) -> bool)
    requires TotalPreorder(le) && le(a, b) && le(b, a)
    ensures le(a, c) <==> le(b, c)
  {
  }

  /** Sorting is stable: two different elements with one key come out in the order they came in. */
  lemma TiesKeepInputOrder<T(!new)>(a: T, b: T, rest: seq<T>, le: (T, T) -> bool)
    requires TotalPreorder(le) && le(a, b) && le(b, a)
    ensures var sorted := SortBy(rest, le); var p := Place(b, sorted, le);
            SortBy([a, b] + rest, le) == sorted[..p] + [a, b] + sorted[p..]
  {
    var sorted := SortBy(rest, le);
    var p := Place(b, sorted, le);
    assert ([a, b] + rest)[1..] == [b] + rest && ([b] + rest)[1..] == rest;
    InsertAtPlace(b, sorted, le, p);
    var one := sorted[..p] + [b] + sorted[p..];
    forall i | 0 <= i < p ensures !le(a, one[i]) { SameKey(a, b, one[i], le); }
    InsertAtPlace(a, one, le, p);
    assert one[..p] + [a] + one[p..] == sorted[..p] + [a, b] + sorted[p..];
  }

  /** The sorted result is the same for every input order exactly when no two elements share a key. */
  lemma SortIgnoresInputOrderIff<T(!new)>(xs: seq<T>, le: (T, T) -> bool)
    requires TotalPreorder(le)
    ensures (forall ys | multiset(ys) == multiset(xs) :: SortBy(ys, le) == SortBy(xs, le)) <==> DistinctKeys(xs, le)
  {
    hide SortBy, DistinctKeys, TotalPreorder;
    if DistinctKeys(xs, le) {
      forall ys | multiset(ys) == multiset(xs) ensures SortBy(ys, le) == SortBy(xs, le) {
        SortIgnoresInputOrder(xs, ys, le);
      }
    } else {
      var ys, zs := TiesShow(xs, le);
    }
  }

  /** A tie gives two input orders that are sorted differently. */
  lemma TiesShow<T(!new)>(xs: seq<T>, le: (T, T) -> bool) returns (ys: seq<T>, zs: seq<T>)
    requires TotalPreorder(le) && !DistinctKeys(xs, le)
    ensures multiset(ys) == multiset(xs) == multiset(zs) && SortBy(ys, le) != SortBy(zs, le)
  {
    hide SortBy;
    var a, b :| a in xs && b in xs && le(a, b) && le(b, a) && a != b;
    var rest := SplitOff(xs, a, b);
    ys, zs := [a, b] + rest, [b, a] + rest;
    TiedSwap(a, b, rest, le);
    SwapTwo(a, b, rest);
  }

  lemma SwapTwo<T>(a: T, b: T, rest: seq<T>)
    ensures multiset([a, b] + rest) == multiset([b, a] + rest)
  {
    assert [a, b] + rest == [a] + [b] + rest && [b, a] + rest == [b] + [a] + rest;
  }

  lemma TiedSwap<T(!new)>(a: T, b: T, rest: seq<T>, le: (T, T) -> bool)
    requires TotalPreorder(le) && le(a, b) && le(b, a) && a != b
    ensures SortBy([a, b] + rest, le) != SortBy([b, a] + rest, le)
  {
    TiesKeepInputOrder(a, b, rest, le);
    TiesKeepInputOrder(b, a, rest, le);
    var sorted := SortBy(rest, le);
    var p := Place(b, sorted, le);
    TiedPlaces(a, b, sorted, le);
    assert (sorted[..p] + [a, b] + sorted[p..])[p] == a;
    assert (sorted[..p] + [b, a] + sorted[p..])[p] == b;
  }

  /** Tied elements go to one place, behind everything that comes strictly before them. */
  lemma TiedPlaces<T(!new)>(a: T, b: T, sorted: seq<T>, le: (T, T) -> bool)
    requires TotalPreorder(le) && le(a, b) && le(b, a)
    ensures Place(a, sorted, le) == Place(b, sorted, le)
    ensures a !in sorted[..Place(b, sorted, le)] && b !in sorted[..Place(b, sorted, le)]
  {
    var p, q := Place(b, sorted, le), Place(a, sorted, le);
    if p < |sorted| { SameKey(a, b, sorted[p], le); }
    if q < |sorted| { SameKey(a, b, sorted[q], le); }
  }

  /** The rest of a collection without two of its elements. */
  lemma SplitOff<T>(xs: seq<T>, a: T, b: T) returns (rest: seq<T>)
    requires a in xs && b in xs && a != b
    ensures multiset([a, b] + rest) == multiset(xs)
  {
    var others := TakeOut(xs, a);
    assert b in others by { assert b in multiset(xs); }
    rest := TakeOut(others, b);
    assert [a, b] + rest == [a] + ([b] + rest);
  }

  lemma TakeOut<T>(xs: seq<T>, a: T) returns (rest: seq<T>)
    requires a in xs
    ensures multiset(xs) == multiset([a] + rest) && multiset([a] + rest) == multiset{a} + multiset(rest)
    ensures forall b | b in multiset(xs) && b != a :: b in rest
  {
    var i :| 0 <= i < |xs| && xs[i] == a;
    rest := xs[..i] + xs[i + 1..];
    RemoveOne(xs, i);
    forall b | b in multiset(xs) && b != a ensures b in rest { assert b in multiset(rest); }
  }

  lemma RemoveOne<T>(xs: seq<T>, k: nat)
    requires k < |xs|
    ensures multiset(xs[..k] + xs[k + 1..]) == multiset(xs) - multiset{xs[k]}
  {
    assert xs == xs[..k] + [xs[k]] + xs[k + 1..];
  }

  /** Code-point order on strings, as Python compares identifiers. */
  predicate StringLe(a: string, b: string) {
    a == [] || (b != [] && (a[0] < b[0] || (a[0] == b[0] && StringLe(a[1..], b[1..]))))
  }

  /** A string comes before the ones it begins; otherwise the first character that differs decides. */
  ghost predicate Alphabetical(a: string, b: string) {
    a <= b || exists k | 0 <= k < |a| && k < |b| :: a[..k] == b[..k] && a[k] < b[k]
  }

  lemma {:induction false} StringLeIff(a: string, b: string)
    ensures StringLe(a, b) <==> Alphabetical(a, b)
  {
    if a != [] && b != [] {
      StringLeIff(a[1..], b[1..]);
      if a[0] == b[0] {
        AlphabeticalTails(a, b);
      } else {
        assert a[..0] == b[..0];
        forall k | 0 < k < |a| && k < |b| ensures a[..k] != b[..k] { assert a[..k][0] != b[..k][0]; }
      }
    }
  }

  lemma AlphabeticalTails(a: string, b: string)
    requires a != [] && b != [] && a[0] == b[0]
    ensures Alphabetical(a, b) <==> Alphabetical(a[1..], b[1..])
  {
    var x, y := a[1..], b[1..];
    assert a == [a[0]] + x && b == [a[0]] + y;
    assert a <= b <==> x <= y;
    forall k | 0 <= k < |x| && k < |y|
      ensures x[..k] == y[..k] && x[k] < y[k] <==> a[..k + 1] == b[..k + 1] && a[k + 1] < b[k + 1]
    {
      assert a[..k + 1] == [a[0]] + x[..k] && b[..k + 1] == [a[0]] + y[..k];
    }
    if exists k | 0 <= k < |a| && k < |b| :: a[..k] == b[..k] && a[k] < b[k] {
      var k :| 0 <= k < |a| && k < |b| && a[..k] == b[..k] && a[k] < b[k];
      assert x[..k - 1] == y[..k - 1] && x[k - 1] < y[k - 1];
    }
  }

  lemma {:induction false} StringLeTotal(a: string, b: string)
    ensures StringLe(a, b) || StringLe(b, a)
    ensures StringLe(a, b) && StringLe(b, a) ==> a == b
  {
    if a != [] && b != [] {
      StringLeTotal(a[1..], b[1..]);
      assert a == [a[0]] + a[1..] && b == [b[0]] + b[1..];
    }
  }

  lemma {:induction false} StringLeTransitive(a: string, b: string, c: string)
    requires StringLe(a, b) && StringLe(b, c)
    ensures StringLe(a, c)
  {
    if a != [] && a[0] == b[0] && b[0] == c[0] {
      StringLeTransitive(a[1..], b[1..], c[1..]);
    }
  }
}
