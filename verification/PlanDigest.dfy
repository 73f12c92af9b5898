/** One comparable number per rank for the map from sequences to decode groups. */
module PlanDigest {
  import opened Arith
  import opened Options
  import opened Sorting

  const MODULUS: nat := 0x1FFF_FFFF_FFFF_FFFF
  const SEED: nat := 146_527
  const FACTOR: nat := 1_000_003

  /** A sequence's global index and its group, if it has one yet. */
  type Assignment = (int, Option<int>)

  function Mix(digest: nat, value: int): nat { (digest * FACTOR + value) % MODULUS }

  /** A sequence without a group counts as group -1. */
  function GroupCode(group: Option<int>): int { if group.Some? then group.value else -1 }

  function FoldOne(digest: nat, pair: Assignment): nat {
    Mix(Mix(digest, pair.0 + 1), GroupCode(pair.1) + 2)
  }

  function Fold(pairs: seq<Assignment>): nat {
    if pairs == [] then SEED else FoldOne(Fold(pairs[..|pairs| - 1]), pairs[|pairs| - 1])
  }

  function ByIndex(): (Assignment, Assignment) -> bool { (a: Assignment, b: Assignment) => a.0 <= b.0 }

  function Digest(pairs: seq<Assignment>): nat { Fold(SortBy(pairs, ByIndex())) }

  /** No sequence is listed with two different groups. */
  ghost predicate IsMap(pairs: seq<Assignment>) {
    forall a, b | a in pairs && b in pairs && a.0 == b.0 :: a == b
  }

  /** The digest depends on the map, not on the order it was enumerated in. */
  lemma DigestIgnoresOrder(xs: seq<Assignment>, ys: seq<Assignment>)
    requires IsMap(xs) && multiset(xs) == multiset(ys)
    ensures Digest(xs) == Digest(ys)
  {
    SortIgnoresInputOrder(xs, ys, ByIndex());
  }

  // ---- one differing group shows ------------------------------------------------------------

  /** FACTOR has an inverse modulo MODULUS. */
  const INVERSE: nat := 1229363429801019168
  const QUOTIENT: nat := 533153

  lemma RemainderShift(b: int, k: int)
    ensures (b + k * MODULUS) % MODULUS == b % MODULUS
  {
    var m := MODULUS;
    var q, r := b / m, b % m;
    assert b == m * q + r;
    DivUnique(b + k * m, m, q + k, r);
  }

  lemma SameRemainder(a: int, b: int) returns (k: int)
    requires a % MODULUS == b % MODULUS
    ensures a - b == k * MODULUS
  {
    var m := MODULUS;
    assert a == m * (a / m) + a % m && b == m * (b / m) + b % m;
    k := a / m - b / m;
  }

  /** Two digests mixed with one value stay apart. */
  lemma MixIsInjective(d: nat, e: nat, value: int)
    requires d < MODULUS && e < MODULUS && Mix(d, value) == Mix(e, value)
    ensures d == e
  {
    var x := d - e;
    var k := SameRemainder(d * FACTOR + value, e * FACTOR + value);
    assert x * FACTOR == k * MODULUS;
    assert x * (FACTOR * INVERSE) == x + x * QUOTIENT * MODULUS;
    assert x == (k * INVERSE - x * QUOTIENT) * MODULUS;
    SmallMultiple(x, k * INVERSE - x * QUOTIENT);
  }

  lemma SmallMultiple(x: int, k: int)
    requires x == k * MODULUS && -(MODULUS as int) < x < MODULUS
    ensures x == 0
  {
  }

  /** Two values mixed into one digest agree exactly when they agree modulo MODULUS. */
  lemma MixSeesValue(d: nat, v: int, w: int)
    ensures Mix(d, v) == Mix(d, w) <==> v % MODULUS == w % MODULUS
  {
    if Mix(d, v) == Mix(d, w) {
      var k := SameRemainder(d * FACTOR + v, d * FACTOR + w);
      RemainderShift(w, k);
    }
    if v % MODULUS == w % MODULUS {
      var k := SameRemainder(v, w);
      RemainderShift(d * FACTOR + w, k);
    }
  }

  lemma FoldInRange(pairs: seq<Assignment>)
    ensures Fold(pairs) < MODULUS
  {
  }

  /** Replacing one group of a list shows in the fold exactly when the groups differ modulo MODULUS. */
  lemma {:induction false} FoldSeesGroup(pairs: seq<Assignment>, p: nat, group: Option<int>)
    requires p < |pairs|
    ensures Fold(pairs) == Fold(pairs[p := (pairs[p].0, group)])
            <==> GroupCode(pairs[p].1) % MODULUS == GroupCode(group) % MODULUS
    decreases |pairs|
  {
    var n, changed := |pairs| - 1, pairs[p := (pairs[p].0, group)];
    if p == n {
      assert changed[..n] == pairs[..n];
      var before := Mix(Fold(pairs[..n]), pairs[n].0 + 1);
      MixSeesValue(before, GroupCode(pairs[n].1) + 2, GroupCode(group) + 2);
      SameAfterTwo(GroupCode(pairs[n].1), GroupCode(group));
    } else {
      assert changed[..n] == pairs[..n][p := (pairs[p].0, group)] && changed[n] == pairs[n];
      FoldSeesGroup(pairs[..n], p, group);
      FoldInRange(pairs[..n]);
      FoldInRange(changed[..n]);
      FoldOneIsInjective(Fold(pairs[..n]), Fold(changed[..n]), pairs[n]);
    }
  }

  lemma SameAfterTwo(v: int, w: int)
    ensures (v + 2) % MODULUS == (w + 2) % MODULUS <==> v % MODULUS == w % MODULUS
  {
    if (v + 2) % MODULUS == (w + 2) % MODULUS {
      var k := SameRemainder(v + 2, w + 2);
      RemainderShift(w, k);
    }
    if v % MODULUS == w % MODULUS {
      var k := SameRemainder(v, w);
      RemainderShift(w + 2, k);
    }
  }

  lemma FoldOneIsInjective(d: nat, e: nat, pair: Assignment)
    requires d < MODULUS && e < MODULUS
    ensures FoldOne(d, pair) == FoldOne(e, pair) <==> d == e
  {
    if FoldOne(d, pair) == FoldOne(e, pair) {
      MixIsInjective(Mix(d, pair.0 + 1), Mix(e, pair.0 + 1), GroupCode(pair.1) + 2);
      MixIsInjective(d, e, pair.0 + 1);
    }
  }

  ghost predicate DistinctIndexes(pairs: seq<Assignment>) {
    forall i, j | 0 <= i < j < |pairs| :: pairs[i].0 != pairs[j].0
  }

  lemma ByIndexIsTotal()
    ensures TotalPreorder(ByIndex())
  {
  }

  /** Replacing a group replaces it where the sort put it. */
  lemma SortKeepsPlace(pairs: seq<Assignment>, i: nat, group: Option<int>) returns (p: nat)
    requires i < |pairs| && DistinctIndexes(pairs)
    ensures var sorted := SortBy(pairs, ByIndex());
            && p < |sorted| && sorted[p] == pairs[i]
            && SortBy(pairs[i := (pairs[i].0, group)], ByIndex()) == sorted[p := (pairs[i].0, group)]
  {
    var le, y := ByIndex(), (pairs[i].0, group);
    var sorted := SortBy(pairs, le);
    ByIndexIsTotal();
    SortIsPermutation(pairs, le);
    SortIsSorted(pairs, le);
    SortMembership(pairs, le);
    assert pairs[i] in sorted;
    p :| 0 <= p < |sorted| && sorted[p] == pairs[i];
    hide SortBy;
    StaysSorted(sorted, p, y);
    ReplaceOne(sorted, p, y);
    ReplaceOne(pairs, i, y);
    DistinctKeysOf(pairs[i := y]);
    SortedArrangement(pairs[i := y], sorted[p := y], le);
  }

  lemma StaysSorted(sorted: seq<Assignment>, p: nat, y: Assignment)
    requires Sorted(sorted, ByIndex()) && p < |sorted| && y.0 == sorted[p].0
    ensures Sorted(sorted[p := y], ByIndex())
  {
    var le, moved := ByIndex(), sorted[p := y];
    forall i, j | 0 <= i < j < |moved| ensures le(moved[i], moved[j]) { assert le(sorted[i], sorted[j]); }
  }

  lemma ReplaceOne(xs: seq<Assignment>, i: nat, y: Assignment)
    requires i < |xs|
    ensures multiset(xs[i := y]) == multiset(xs) - multiset{xs[i]} + multiset{y}
  {
  }

  lemma DistinctKeysOf(pairs: seq<Assignment>)
    requires DistinctIndexes(pairs)
    ensures DistinctKeys(pairs, ByIndex())
  {
  }

  /** Two maps that differ in one group have different digests exactly when the groups differ modulo MODULUS. */
  lemma DigestSeesGroup(pairs: seq<Assignment>, i: nat, group: Option<int>)
    requires i < |pairs| && DistinctIndexes(pairs)
    ensures Digest(pairs) == Digest(pairs[i := (pairs[i].0, group)])
            <==> GroupCode(pairs[i].1) % MODULUS == GroupCode(group) % MODULUS
  {
    var p := SortKeepsPlace(pairs, i, group);
    FoldSeesGroup(SortBy(pairs, ByIndex()), p, group);
  }

  /** The map is incomplete on one rank: an unstamped sequence shows unless its group is -1 modulo MODULUS. */
  lemma UnstampedShows(pairs: seq<Assignment>, i: nat, g: int)
    requires i < |pairs| && DistinctIndexes(pairs) && pairs[i].1 == None
    ensures Digest(pairs) == Digest(pairs[i := (pairs[i].0, Some(g))]) <==> (g + 1) % MODULUS == 0
  {
    DigestSeesGroup(pairs, i, Some(g));
    if (-1) % MODULUS == g % MODULUS {
      var k := SameRemainder(g, -1);
      RemainderShift(0, k);
    }
    if (g + 1) % MODULUS == 0 {
      var k := SameRemainder(g + 1, 0);
      RemainderShift(-1, k);
    }
  }

  // ---- the digest as one number ---------------------------------------------------------------

  /** The list as the digits of one number, never reduced: for each sequence its index and its group, none as -1. */
  function Numeral(pairs: seq<Assignment>): int {
    if pairs == [] then 146_527
    else
      var n := |pairs| - 1;
      (Numeral(pairs[..n]) * 1_000_003 + pairs[n].0 + 1) * 1_000_003
      + (match pairs[n].1 case None => -1 case Some(g) => g) + 2
  }

  lemma MixReduces(x: int, value: int)
    ensures Mix(x % MODULUS, value) == (x * FACTOR + value) % MODULUS
  {
    var k := x / MODULUS;
    assert x == (x % MODULUS) + k * MODULUS;
    var d := x % MODULUS;
    assert x * FACTOR + value == (d * FACTOR + value) + (k * FACTOR) * MODULUS;
    RemainderShift(d * FACTOR + value, k * FACTOR);
  }

  /** Reducing at every step is reducing once. */
  lemma {:induction false} FoldIsNumeral(pairs: seq<Assignment>)
    ensures Fold(pairs) == Numeral(pairs) % 2_305_843_009_213_693_951
    decreases |pairs|
  {
    if pairs != [] {
      var n := |pairs| - 1;
      FoldIsNumeral(pairs[..n]);
      var x, code := Numeral(pairs[..n]), GroupCode(pairs[n].1);
      MixReduces(x, pairs[n].0 + 1);
      MixReduces(x * FACTOR + (pairs[n].0 + 1), code + 2);
      assert Numeral(pairs) == (x * FACTOR + (pairs[n].0 + 1)) * FACTOR + (code + 2);
      hide Mix;
    }
  }

  /** The list by ascending index. */
  ghost predicate Ascending(pairs: seq<Assignment>) { forall i, j | 0 <= i < j < |pairs| :: pairs[i].0 <= pairs[j].0 }

  lemma DigestIsNumeral(pairs: seq<Assignment>)
    ensures exists sorted :: && multiset(sorted) == multiset(pairs) && Ascending(sorted)
                             && Digest(pairs) == Numeral(sorted) % 2_305_843_009_213_693_951
  {
    var sorted := SortBy(pairs, ByIndex());
    ByIndexIsTotal();
    SortIsPermutation(pairs, ByIndex());
    SortIsSorted(pairs, ByIndex());
    FoldIsNumeral(sorted);
    forall i, j | 0 <= i < j < |sorted| ensures sorted[i].0 <= sorted[j].0 { assert ByIndex()(sorted[i], sorted[j]); }
  }

  method PlanDigest(pairs: seq<Assignment>) returns (digest: nat)
    ensures digest == Digest(pairs)
    ensures exists sorted :: && multiset(sorted) == multiset(pairs) && Ascending(sorted)
                             && digest == Numeral(sorted) % 2_305_843_009_213_693_951
  {
    DigestIsNumeral(pairs);
    var sorted := SortBy(pairs, ByIndex());
    digest := SEED;
    for i := 0 to |sorted|
      invariant digest == Fold(sorted[..i])
    {
      digest := (digest * FACTOR + sorted[i].0 + 1) % MODULUS;
      digest := (digest * FACTOR + (if sorted[i].1.None? then -1 else sorted[i].1.value) + 2) % MODULUS;
      assert sorted[..i + 1][..i] == sorted[..i];
    }
    assert sorted[..|sorted|] == sorted;
  }
}
