/**
 The QueryBook without its page bytes: which slots are bound, which page
 range each one reserves, and the trajectory it holds.
 */
module TokenBook {
  import opened Options
  import opened Arith
  import opened Extents
  import opened TurnLedger

  datatype Entry = Entry(id: string, range: Extent, trajectory: Trajectory)

  datatype Book = Book(
    pageTokens: nat, pageCount: nat, free: seq<Extent>,
    entries: map<nat, Entry>, freeSlots: seq<nat>, nextSlot: nat)

  function EmptyBook(pageTokens: nat, pageCount: nat): Book
  {
    Book(pageTokens, pageCount, if pageCount == 0 then [] else [Extent(0, pageCount)], map[], [], 0)
  }

  function PagesFor(maxTokens: int, pageTokens: nat): nat
    requires pageTokens > 0 && maxTokens > 0
  {
    CeilDivLeast(maxTokens, pageTokens, 0);
    CeilDiv(maxTokens, pageTokens)
  }

  /** The fewest pages that hold the tokens. */
  lemma PagesForIff(maxTokens: int, pageTokens: nat, pages: nat)
    requires pageTokens > 0 && maxTokens > 0
    ensures pages >= PagesFor(maxTokens, pageTokens) <==> pages * pageTokens >= maxTokens
  {
    CeilDivLeast(maxTokens, pageTokens, pages);
  }

  lemma PagesForPositive(maxTokens: int, pageTokens: nat)
    requires pageTokens > 0 && maxTokens > 0
    ensures PagesFor(maxTokens, pageTokens) > 0
    ensures maxTokens <= PagesFor(maxTokens, pageTokens) * pageTokens
  {
    CeilDivLeast(maxTokens, pageTokens, 0);
    CeilDivBounds(maxTokens, pageTokens);
  }

  predicate IsBound(b: Book, id: string) {
    exists s | s in b.entries :: b.entries[s].id == id
  }

  // ---- invariant -----------------------------------------------------------

  ghost predicate EntryOk(b: Book, e: Entry)
    requires b.pageTokens > 0
  {
    && e.id != "" && e.trajectory.maxTokens > 0 && Bounded(e.trajectory)
    && e.range.count == PagesFor(e.trajectory.maxTokens, b.pageTokens)
    && e.range.End() <= b.pageCount
  }

  predicate Apart(a: Extent, b: Extent) { a.End() <= b.start || b.End() <= a.start }

  ghost predicate Reserves(b: Book, p: int) {
    exists s | s in b.entries :: b.entries[s].range.Covers(p)
  }

  /** Every page is free or reserved by one slot, never both; the free list is canonical. */
  ghost predicate PagesPartitioned(b: Book) {
    && Canonical(b.free, b.pageCount)
    && (forall s, t {:trigger Apart(b.entries[s].range, b.entries[t].range)}
          | s in b.entries && t in b.entries && s != t ::
          Apart(b.entries[s].range, b.entries[t].range))
    && (forall p :: IsFree(b.free, p) <==> 0 <= p < b.pageCount && !Reserves(b, p))
  }

  /** Slots below the high-water mark are bound or waiting for reuse, never both. */
  ghost predicate SlotsPartitioned(b: Book) {
    && (forall i, j | 0 <= i < j < |b.freeSlots| :: b.freeSlots[i] != b.freeSlots[j])
    && (forall s | s in b.freeSlots :: s < b.nextSlot && s !in b.entries)
    && (forall s | s in b.entries :: s < b.nextSlot)
    && (forall s | 0 <= s < b.nextSlot :: s in b.entries || s in b.freeSlots)
  }

  ghost predicate IdsUnique(b: Book) {
    forall s, t | s in b.entries && t in b.entries && b.entries[s].id == b.entries[t].id :: s == t
  }

  ghost predicate Inv(b: Book) {
    && b.pageTokens > 0
    && (forall s {:trigger EntryOk(b, b.entries[s])} | s in b.entries :: EntryOk(b, b.entries[s]))
    && PagesPartitioned(b) && SlotsPartitioned(b) && IdsUnique(b)
  }

  lemma EmptyInv(pageTokens: nat, pageCount: nat)
    requires pageTokens > 0
    ensures Inv(EmptyBook(pageTokens, pageCount))
  {
    var b := EmptyBook(pageTokens, pageCount);
    forall p
      ensures IsFree(b.free, p) <==> 0 <= p < b.pageCount && !Reserves(b, p)
    {
      if 0 <= p < pageCount { assert b.free[0].Covers(p); }
    }
  }

  // ---- binding ---------------------------------------------------------------

  function NextSlot(b: Book): nat {
    if b.freeSlots != [] then Last(b.freeSlots) else b.nextSlot
  }

  /** Publishes the metadata of a reserved range under the next slot. */
  function Publish(b: Book, id: string, range: Extent, maxTokens: nat): Book {
    var entries := b.entries[NextSlot(b) := Entry(id, range, Fresh(maxTokens))];
    if b.freeSlots != [] then b.(entries := entries, freeSlots := Init(b.freeSlots))
    else b.(entries := entries, nextSlot := b.nextSlot + 1)
  }

  function Bind(b: Book, id: string, maxTokens: int): Option<(Book, nat)>
    requires b.pageTokens > 0
  {
    if id == "" || IsBound(b, id) || maxTokens <= 0 then None
    else
      var pages := PagesFor(maxTokens, b.pageTokens);
      match Take(b.free, pages)
      case None => None
      case Some((start, rest)) =>
        Some((Publish(b.(free := rest), id, Extent(start, pages), maxTokens), NextSlot(b)))
  }

  lemma PublishKeepsPages(b: Book, id: string, range: Extent, maxTokens: nat, rest: seq<Extent>)
    requires Inv(b) && Reserved(b.free, range.count, range.start, rest, b.pageCount)
    requires range.count > 0
    ensures PagesPartitioned(Publish(b.(free := rest), id, range, maxTokens))
  {
    var slot, b' := NextSlot(b), Publish(b.(free := rest), id, range, maxTokens);
    assert slot !in b.entries;
    assert forall s | s in b'.entries :: b'.entries[s] == if s == slot then b'.entries[slot] else b.entries[s];
    forall s | s in b.entries
      ensures Apart(b.entries[s].range, range)
    {
      var r := b.entries[s].range;
      assert EntryOk(b, b.entries[s]);
      PagesForPositive(b.entries[s].trajectory.maxTokens, b.pageTokens);
      var p := Max(r.start, range.start);
      if range.Covers(p) { assert IsFree(b.free, p) && !Reserves(b, p); }
      assert !(r.Covers(p) && range.Covers(p));
    }
    forall p
      ensures IsFree(rest, p) <==> 0 <= p < b.pageCount && !Reserves(b', p)
    {
      if Reserves(b, p) {
        var s :| s in b.entries && b.entries[s].range.Covers(p);
        assert b'.entries[s].range.Covers(p);
      }
      assert b'.entries[slot].range == range;
      assert Reserves(b', p) <==> Reserves(b, p) || range.Covers(p);
      assert IsFree(b.free, p) <==> 0 <= p < b.pageCount && !Reserves(b, p);
      assert IsFree(b.free, p) <==> IsFree(rest, p) || range.Covers(p);
    }
  }

  lemma PublishKeepsSlots(b: Book, id: string, range: Extent, maxTokens: nat, rest: seq<Extent>)
    requires SlotsPartitioned(b)
    ensures NextSlot(b) !in b.entries
    ensures SlotsPartitioned(Publish(b.(free := rest), id, range, maxTokens))
  {
    var b' := Publish(b.(free := rest), id, range, maxTokens);
    if b.freeSlots != [] {
      assert b.freeSlots == Init(b.freeSlots) + [Last(b.freeSlots)];
      assert forall s :: s in b.freeSlots <==> s in b'.freeSlots || s == Last(b.freeSlots);
    }
  }

  /** Binding keeps the partition, recycles a released slot if there is one, and hands out a free range. */
  lemma BindKeepsInv(b: Book, id: string, maxTokens: int)
    requires Inv(b) && Bind(b, id, maxTokens).Some?
    ensures var (b', slot) := Bind(b, id, maxTokens).value;
            && Inv(b') && slot !in b.entries
            && b'.entries == b.entries[slot := b'.entries[slot]]
            && (forall p | b'.entries[slot].range.Covers(p) :: IsFree(b.free, p))
  {
    var pages := PagesFor(maxTokens, b.pageTokens);
    PagesForPositive(maxTokens, b.pageTokens);
    TakeReserves(b.free, pages, b.pageCount);
    var (start, rest) := Take(b.free, pages).value;
    var (b', slot) := Bind(b, id, maxTokens).value;
    var range := Extent(start, pages);
    PublishKeepsPages(b, id, range, maxTokens, rest);
    PublishKeepsSlots(b, id, range, maxTokens, rest);
    forall s | s in b'.entries
      ensures EntryOk(b', b'.entries[s])
    {
      if s != slot { assert EntryOk(b, b.entries[s]); }
    }
  }

  /** Admission fails only for a bad name, a bad length, or no free range long enough. */
  lemma BindSucceedsIff(b: Book, id: string, maxTokens: int)
    requires b.pageTokens > 0
    ensures Bind(b, id, maxTokens).Some? <==>
              id != "" && !IsBound(b, id) && maxTokens > 0 && Fits(b.free, PagesFor(maxTokens, b.pageTokens))
  {
    if maxTokens > 0 { TakeSucceedsIff(b.free, PagesFor(maxTokens, b.pageTokens)); }
  }

  // ---- release -----------------------------------------------------------------

  function Release(b: Book, slot: nat): Option<Book> {
    if slot !in b.entries then None
    else Some(b.(free := Return(b.free, b.entries[slot].range),
                 entries := b.entries - {slot}, freeSlots := b.freeSlots + [slot]))
  }

  lemma ReleaseKeepsInv(b: Book, slot: nat)
    requires Inv(b) && slot in b.entries
    ensures Inv(Release(b, slot).value)
  {
    var b', range := Release(b, slot).value, b.entries[slot].range;
    assert EntryOk(b, b.entries[slot]);
    ReturnIsCanonicalUnion(b.free, range, b.pageCount);
    forall p
      ensures IsFree(b'.free, p) <==> 0 <= p < b.pageCount && !Reserves(b', p)
    {
      if Reserves(b, p) && !range.Covers(p) {
        var s :| s in b.entries && b.entries[s].range.Covers(p);
        assert b'.entries[s].range.Covers(p);
      }
      if Reserves(b', p) {
        var s :| s in b'.entries && b'.entries[s].range.Covers(p);
        assert b.entries[s].range.Covers(p);
        assert Apart(b.entries[s].range, range);
      }
      assert range.Covers(p) ==> Reserves(b, p);
    }
    assert forall s | s in b'.entries :: EntryOk(b, b.entries[s]);
  }

  /** The reserved pages determine the free list: no history of binds and releases shows in it. */
  lemma FreeListIsDetermined(a: Book, b: Book)
    requires Inv(a) && Inv(b) && a.pageCount == b.pageCount
    requires forall p :: Reserves(a, p) <==> Reserves(b, p)
    ensures a.free == b.free
  {
    forall p
      ensures IsFree(a.free, p) <==> IsFree(b.free, p)
    {
      assert Reserves(a, p) <==> Reserves(b, p);
    }
    CanonicalIsUnique(a.free, b.free, a.pageCount);
  }

  // ---- batches -------------------------------------------------------------------

  function BindAll(b: Book, ids: seq<string>, maxTokens: seq<int>): Option<(Book, seq<nat>)>
    requires b.pageTokens > 0 && |ids| == |maxTokens|
    decreases |ids|
  {
    if ids == [] then Some((b, []))
    else
      match Bind(b, ids[0], maxTokens[0])
      case None => None
      case Some((b', slot)) =>
        match BindAll(b', ids[1..], maxTokens[1..])
        case None => None
        case Some((b'', slots)) => Some((b'', [slot] + slots))
  }

  predicate AllPositive(xs: seq<int>) { forall i | 0 <= i < |xs| :: xs[i] > 0 }

  function AllPages(maxTokens: seq<int>, pageTokens: nat): seq<nat>
    requires pageTokens > 0 && AllPositive(maxTokens)
  {
    seq(|maxTokens|, i requires 0 <= i < |maxTokens| => PagesFor(maxTokens[i], pageTokens))
  }

  /** Names a batch may use: non-empty, new to the book, and used once. */
  predicate NamesOk(b: Book, ids: seq<string>) {
    && (forall i | 0 <= i < |ids| :: ids[i] != "" && !IsBound(b, ids[i]))
    && (forall i, j | 0 <= i < j < |ids| :: ids[i] != ids[j])
  }

  function PublishAll(b: Book, ids: seq<string>, ranges: seq<Extent>, maxTokens: seq<int>): (Book, seq<nat>)
    requires |ids| == |ranges| == |maxTokens| && AllPositive(maxTokens)
    decreases |ids|
  {
    if ids == [] then (b, [])
    else
      var (b', slots) := PublishAll(Publish(b, ids[0], ranges[0], maxTokens[0]), ids[1..], ranges[1..], maxTokens[1..]);
      (b', [NextSlot(b)] + slots)
  }

  lemma {:induction false} TakeAllLength(fs: seq<Extent>, ks: seq<nat>)
    requires TakeAll(fs, ks).Some?
    ensures |TakeAll(fs, ks).value.0| == |ks|
    decreases |ks|
  {
    if ks != [] { TakeAllLength(Take(fs, ks[0]).value.1, ks[1..]); }
  }

  /** Validates everything, reserves every range, and only then publishes. */
  function BindBatch(b: Book, ids: seq<string>, maxTokens: seq<int>): Option<(Book, seq<nat>)>
    requires b.pageTokens > 0
  {
    if |ids| != |maxTokens| || !NamesOk(b, ids) || !AllPositive(maxTokens) then None
    else
      match TakeAll(b.free, AllPages(maxTokens, b.pageTokens))
      case None => None
      case Some((ranges, rest)) =>
        TakeAllLength(b.free, AllPages(maxTokens, b.pageTokens));
        Some(PublishAll(b.(free := rest), ids, ranges, maxTokens))
  }

  lemma PublishBinds(b: Book, id: string, range: Extent, maxTokens: nat, other: string)
    requires Inv(b)
    ensures IsBound(Publish(b, id, range, maxTokens), other) <==> other == id || IsBound(b, other)
  {
    var slot, b' := NextSlot(b), Publish(b, id, range, maxTokens);
    PublishKeepsSlots(b, id, range, maxTokens, b.free);
    assert b.(free := b.free) == b;
    assert b'.entries[slot].id == id;
    if IsBound(b, other) {
      var s :| s in b.entries && b.entries[s].id == other;
      assert b'.entries[s].id == other;
    }
  }

  lemma {:induction false} PublishIgnoresFree(b: Book, rest: seq<Extent>, id: string, range: Extent, maxTokens: nat)
    ensures Publish(b, id, range, maxTokens).(free := rest) == Publish(b.(free := rest), id, range, maxTokens)
  {
  }

  /**
   Binding a batch at once and binding its members one by one in order succeed
   together, and give the same slots, the same page ranges and the same book.
   */
  lemma {:induction false} BatchIsSequential(b: Book, ids: seq<string>, maxTokens: seq<int>)
    requires Inv(b) && |ids| == |maxTokens|
    ensures BindBatch(b, ids, maxTokens) == BindAll(b, ids, maxTokens)
    decreases |ids|
  {
    if ids == [] {
    } else if Bind(b, ids[0], maxTokens[0]).None? {
      BatchNeedsFirst(b, ids, maxTokens);
    } else {
      var (b', slot) := Bind(b, ids[0], maxTokens[0]).value;
      BindKeepsInv(b, ids[0], maxTokens[0]);
      BatchIsSequential(b', ids[1..], maxTokens[1..]);
      BatchUnfolds(b, ids, maxTokens);
    }
  }

  lemma BatchNeedsFirst(b: Book, ids: seq<string>, maxTokens: seq<int>)
    requires Inv(b) && |ids| == |maxTokens| && ids != [] && Bind(b, ids[0], maxTokens[0]).None?
    ensures BindBatch(b, ids, maxTokens).None?
  {
    if AllPositive(maxTokens) {
      assert AllPages(maxTokens, b.pageTokens)[0] == PagesFor(maxTokens[0], b.pageTokens);
    }
  }

  lemma NamesOkStep(b: Book, ids: seq<string>, maxTokens: int)
    requires Inv(b) && ids != [] && Bind(b, ids[0], maxTokens).Some?
    ensures NamesOk(b, ids) <==> NamesOk(Bind(b, ids[0], maxTokens).value.0, ids[1..])
  {
    var (b', slot) := Bind(b, ids[0], maxTokens).value;
    var pages := PagesFor(maxTokens, b.pageTokens);
    var (start, rest) := Take(b.free, pages).value;
    var published := Publish(b, ids[0], Extent(start, pages), maxTokens);
    assert published.entries == b'.entries;
    forall other
      ensures IsBound(b', other) <==> other == ids[0] || IsBound(b, other)
    {
      PublishBinds(b, ids[0], Extent(start, pages), maxTokens, other);
    }
    assert forall i | 0 < i < |ids| :: ids[i] == ids[1..][i - 1];
    assert forall i | 0 <= i < |ids[1..]| :: ids[1..][i] == ids[i + 1];
    if NamesOk(b', ids[1..]) {
      forall i | 0 <= i < |ids|
        ensures ids[i] != "" && !IsBound(b, ids[i])
      {
        if i > 0 { assert !IsBound(b', ids[1..][i - 1]); }
      }
      forall i, j | 0 <= i < j < |ids|
        ensures ids[i] != ids[j]
      {
        assert !IsBound(b', ids[1..][j - 1]);
        if i > 0 { assert ids[1..][i - 1] != ids[1..][j - 1]; }
      }
    }
  }

  lemma BatchUnfolds(b: Book, ids: seq<string>, maxTokens: seq<int>)
    requires Inv(b) && |ids| == |maxTokens| && ids != [] && Bind(b, ids[0], maxTokens[0]).Some?
    ensures var (b', slot) := Bind(b, ids[0], maxTokens[0]).value;
            var tail := BindBatch(b', ids[1..], maxTokens[1..]);
            BindBatch(b, ids, maxTokens) ==
              if tail.None? then None else Some((tail.value.0, [slot] + tail.value.1))
  {
    var (b', slot) := Bind(b, ids[0], maxTokens[0]).value;
    NamesOkStep(b, ids, maxTokens[0]);
    assert forall i | 0 < i < |maxTokens| :: maxTokens[i] == maxTokens[1..][i - 1];
    assert forall i | 0 <= i < |maxTokens[1..]| :: maxTokens[1..][i] == maxTokens[i + 1];
    if NamesOk(b, ids) && AllPositive(maxTokens) {
      assert AllPositive(maxTokens[1..]);
      var pages := AllPages(maxTokens, b.pageTokens);
      assert pages[1..] == AllPages(maxTokens[1..], b.pageTokens);
      var (start, mid) := Take(b.free, pages[0]).value;
      if TakeAll(mid, pages[1..]).Some? {
        var (ranges', rest) := TakeAll(mid, pages[1..]).value;
        var (ranges, _) := TakeAll(b.free, pages).value;
        TakeAllLength(mid, pages[1..]);
        assert ranges[1..] == ranges';
        PublishIgnoresFree(b.(free := mid), rest, ids[0], Extent(start, pages[0]), maxTokens[0]);
      }
    } else if NamesOk(b, ids) {
      assert maxTokens[0] > 0;
      assert !AllPositive(maxTokens[1..]) by {
        var i :| 0 <= i < |maxTokens| && maxTokens[i] <= 0;
        assert maxTokens[1..][i - 1] <= 0;
      }
    }
  }

  /** First fit of each length in turn: a length that is not positive raises when it is reached. */
  function Preflight(fs: seq<Extent>, maxTokens: seq<int>, pageTokens: nat): Option<bool>
    requires pageTokens > 0
    decreases |maxTokens|
  {
    if maxTokens == [] then Some(true)
    else if maxTokens[0] <= 0 then None
    else
      match Take(fs, PagesFor(maxTokens[0], pageTokens))
      case None => Some(false)
      case Some((_, rest)) => Preflight(rest, maxTokens[1..], pageTokens)
  }

  lemma {:induction false} PreflightTakesAll(fs: seq<Extent>, maxTokens: seq<int>, pageTokens: nat)
    requires pageTokens > 0
    ensures Preflight(fs, maxTokens, pageTokens) == Some(true)
            <==> AllPositive(maxTokens) && TakeAll(fs, AllPages(maxTokens, pageTokens)).Some?
    decreases |maxTokens|
  {
    if maxTokens != [] && maxTokens[0] > 0 {
      var pages := PagesFor(maxTokens[0], pageTokens);
      assert AllPositive(maxTokens) <==> AllPositive(maxTokens[1..]);
      if AllPositive(maxTokens) {
        assert AllPages(maxTokens, pageTokens)[0] == pages;
        assert AllPages(maxTokens, pageTokens)[1..] == AllPages(maxTokens[1..], pageTokens);
      }
      if Take(fs, pages).Some? { PreflightTakesAll(Take(fs, pages).value.1, maxTokens[1..], pageTokens); }
    }
  }

  /** The preflight answers yes exactly when the one-by-one binds of new names would all succeed. */
  lemma PreflightIsExact(b: Book, ids: seq<string>, maxTokens: seq<int>)
    requires Inv(b) && |ids| == |maxTokens| && NamesOk(b, ids)
    ensures BindAll(b, ids, maxTokens).Some? <==> Preflight(b.free, maxTokens, b.pageTokens) == Some(true)
  {
    BatchIsSequential(b, ids, maxTokens);
    PreflightTakesAll(b.free, maxTokens, b.pageTokens);
  }

  /** `k` equal requests under new names can be bound exactly when `k` is within the free count. */
  lemma EqualBindsFitIff(b: Book, ids: seq<string>, maxTokens: int)
    requires Inv(b) && NamesOk(b, ids) && maxTokens > 0
    ensures PagesFor(maxTokens, b.pageTokens) > 0
    ensures BindAll(b, ids, seq(|ids|, _ => maxTokens)).Some?
            <==> |ids| <= FreeCount(b.free, PagesFor(maxTokens, b.pageTokens))
  {
    var lens := seq(|ids|, _ => maxTokens);
    var pages := PagesFor(maxTokens, b.pageTokens);
    PagesForPositive(maxTokens, b.pageTokens);
    assert AllPages(lens, b.pageTokens) == seq(|ids|, _ => pages);
    PreflightIsExact(b, ids, lens);
    PreflightTakesAll(b.free, lens, b.pageTokens);
    EqualRequestsFitIff(b.free, pages, |ids|);
  }

  /** `slots` hold fresh entries for `ids`; every other entry is as it was. */
  ghost predicate Adds(b: Book, after: Book, ids: seq<string>, maxTokens: seq<int>, slots: seq<nat>) {
    && |slots| == |ids| == |maxTokens|
    && after.pageCount == b.pageCount && after.pageTokens == b.pageTokens
    && (forall s | s in b.entries :: s in after.entries && after.entries[s] == b.entries[s])
    && (forall i | 0 <= i < |slots| ::
          && slots[i] in after.entries && slots[i] !in b.entries && maxTokens[i] > 0
          && after.entries[slots[i]].id == ids[i] && after.entries[slots[i]].trajectory == Fresh(maxTokens[i]))
    && (forall s | s in after.entries :: s in b.entries || s in slots)
  }

  lemma BindAdds(b: Book, id: string, maxTokens: int)
    requires Inv(b) && Bind(b, id, maxTokens).Some?
    ensures var (after, slot) := Bind(b, id, maxTokens).value;
            Inv(after) && Adds(b, after, [id], [maxTokens], [slot])
  {
    BindKeepsInv(b, id, maxTokens);
    hide Inv;
  }

  lemma AddsCons(b: Book, mid: Book, after: Book, ids: seq<string>, maxTokens: seq<int>, slot: nat, slots: seq<nat>)
    requires |ids| == |maxTokens| && ids != []
    requires Adds(b, mid, [ids[0]], [maxTokens[0]], [slot]) && Adds(mid, after, ids[1..], maxTokens[1..], slots)
    ensures Adds(b, after, ids, maxTokens, [slot] + slots)
  {
    var all := [slot] + slots;
    assert [slot][0] == slot && all[0] == slot;
    forall i | 0 <= i < |all|
      ensures all[i] in after.entries && all[i] !in b.entries && maxTokens[i] > 0
      ensures after.entries[all[i]].id == ids[i] && after.entries[all[i]].trajectory == Fresh(maxTokens[i])
    {
      if i > 0 { assert all[i] == slots[i - 1] && ids[1..][i - 1] == ids[i] && maxTokens[1..][i - 1] == maxTokens[i]; }
    }
  }

  lemma {:induction false} BindAllKeepsInv(b: Book, ids: seq<string>, maxTokens: seq<int>)
    requires Inv(b) && |ids| == |maxTokens| && BindAll(b, ids, maxTokens).Some?
    ensures var (after, slots) := BindAll(b, ids, maxTokens).value;
            Inv(after) && Adds(b, after, ids, maxTokens, slots)
    decreases |ids|
  {
    if ids != [] {
      BindAdds(b, ids[0], maxTokens[0]);
      hide Inv, Bind, Adds;
      var (mid, slot) := Bind(b, ids[0], maxTokens[0]).value;
      BindAllKeepsInv(mid, ids[1..], maxTokens[1..]);
      var (after, slots) := BindAll(mid, ids[1..], maxTokens[1..]).value;
      AddsCons(b, mid, after, ids, maxTokens, slot, slots);
    }
  }

  // ---- slot operations ---------------------------------------------------------

  function SetTrajectory(b: Book, slot: nat, t: Trajectory): Book
    requires slot in b.entries
  {
    b.(entries := b.entries[slot := b.entries[slot].(trajectory := t)])
  }

  function OnSlot(b: Book, slot: nat, op: Op): Option<Book> {
    if slot !in b.entries then None
    else
      var t := Apply(b.entries[slot].trajectory, op);
      if t.None? then None else Some(SetTrajectory(b, slot, t.value))
  }

  lemma ApplyKeepsBounds(t: Trajectory, op: Op)
    requires Bounded(t) && Apply(t, op).Some?
    ensures Bounded(Apply(t, op).value) && Apply(t, op).value.maxTokens == t.maxTokens
  {
  }

  lemma SetTrajectoryKeepsInv(b: Book, slot: nat, t: Trajectory)
    requires Inv(b) && slot in b.entries
    requires Bounded(t) && t.maxTokens == b.entries[slot].trajectory.maxTokens
    ensures Inv(SetTrajectory(b, slot, t))
  {
    var b' := SetTrajectory(b, slot, t);
    assert forall s | s in b.entries :: b'.entries[s].range == b.entries[s].range && b'.entries[s].id == b.entries[s].id;
    forall p
      ensures Reserves(b', p) <==> Reserves(b, p)
    {
      if Reserves(b, p) {
        var s :| s in b.entries && b.entries[s].range.Covers(p);
        assert b'.entries[s].range.Covers(p);
      }
    }
    forall s | s in b'.entries
      ensures EntryOk(b', b'.entries[s])
    {
      assert EntryOk(b, b.entries[s]);
    }
  }

  /** A batch call applied as one operation per row, in order. */
  function OnEach(b: Book, slots: seq<nat>, ops: seq<Op>): Option<Book>
    requires |slots| == |ops|
    decreases |slots|
  {
    if slots == [] then Some(b)
    else
      var b' := OnEach(b, Init(slots), Init(ops));
      if b'.None? then None else OnSlot(b'.value, Last(slots), Last(ops))
  }

  predicate Accepts(b: Book, slot: nat, op: Op) {
    slot in b.entries && Apply(b.entries[slot].trajectory, op).Some?
  }

  predicate HasRoom(b: Book, slot: nat) {
    slot in b.entries && |b.entries[slot].trajectory.tokens| < b.entries[slot].trajectory.maxTokens
  }

  lemma OnSlotKeeps(b: Book, slot: nat, op: Op)
    requires Inv(b) && Accepts(b, slot, op)
    ensures OnSlot(b, slot, op).Some?
    ensures var b' := OnSlot(b, slot, op).value;
            && Inv(b') && b' == SetTrajectory(b, slot, Apply(b.entries[slot].trajectory, op).value)
            && b'.entries[slot].trajectory.maxTokens == b.entries[slot].trajectory.maxTokens
  {
    var t := b.entries[slot].trajectory;
    assert EntryOk(b, b.entries[slot]);
    ApplyKeepsBounds(t, op);
    SetTrajectoryKeepsInv(b, slot, Apply(t, op).value);
  }

  /** Rows over distinct slots that accept their operation are never refused and touch no other slot. */
  lemma {:induction false} OnEachKeeps(b: Book, slots: seq<nat>, ops: seq<Op>)
    requires Inv(b) && |slots| == |ops|
    requires forall i, j | 0 <= i < j < |slots| :: slots[i] != slots[j]
    requires forall i | 0 <= i < |slots| :: Accepts(b, slots[i], ops[i])
    ensures OnEach(b, slots, ops).Some?
    ensures var b' := OnEach(b, slots, ops).value;
            && Inv(b') && b'.entries.Keys == b.entries.Keys
            && b'.pageTokens == b.pageTokens && b'.pageCount == b.pageCount
            && (forall s | s in b.entries && s !in slots :: b'.entries[s] == b.entries[s])
    decreases |slots|
  {
    if slots != [] {
      OnEachKeeps(b, Init(slots), Init(ops));
      var mid, slot, op := OnEach(b, Init(slots), Init(ops)).value, Last(slots), Last(ops);
      assert Accepts(b, slots[|slots| - 1], ops[|slots| - 1]);
      assert slot !in Init(slots);
      assert mid.entries[slot] == b.entries[slot];
      OnSlotKeeps(mid, slot, op);
      assert forall s | s !in slots :: s !in Init(slots) && s != slot;
    }
  }

  /** The row a batch reaches next has not been touched by the rows before it. */
  lemma OnEachStep(b: Book, slots: seq<nat>, ops: seq<Op>, n: nat)
    requires Inv(b) && |slots| == |ops| && n < |slots|
    requires forall i, j | 0 <= i < j < |slots| :: slots[i] != slots[j]
    requires forall i | 0 <= i < |slots| :: Accepts(b, slots[i], ops[i])
    ensures OnEach(b, slots[..n], ops[..n]).Some?
    ensures var mid := OnEach(b, slots[..n], ops[..n]).value;
            && Inv(mid) && slots[n] in mid.entries && slots[n] in b.entries
            && mid.entries[slots[n]] == b.entries[slots[n]] && mid.pageTokens == b.pageTokens
            && OnEach(b, slots[..n + 1], ops[..n + 1]) == OnSlot(mid, slots[n], ops[n])
  {
    OnEachKeeps(b, slots[..n], ops[..n]);
    assert Accepts(b, slots[n], ops[n]);
    assert slots[n] !in slots[..n];
    assert Init(slots[..n + 1]) == slots[..n] && Init(ops[..n + 1]) == ops[..n];
  }

  /** After a batch each of its slots is where its own operation leads. */
  lemma {:induction false} OnEachAt(b: Book, slots: seq<nat>, ops: seq<Op>, i: nat)
    requires Inv(b) && |slots| == |ops| && i < |slots|
    requires forall i, j | 0 <= i < j < |slots| :: slots[i] != slots[j]
    requires forall i | 0 <= i < |slots| :: Accepts(b, slots[i], ops[i])
    ensures OnEach(b, slots, ops).Some? && slots[i] in OnEach(b, slots, ops).value.entries && Accepts(b, slots[i], ops[i])
    ensures OnEach(b, slots, ops).value.entries[slots[i]].trajectory == Apply(b.entries[slots[i]].trajectory, ops[i]).value
    decreases |slots|
  {
    hide Inv, Apply;
    var n := |slots| - 1;
    OnEachStep(b, slots, ops, n);
    assert slots[..n + 1] == slots && ops[..n + 1] == ops && slots[..n] == Init(slots) && ops[..n] == Init(ops);
    assert Accepts(b, slots[n], ops[n]) && Accepts(b, slots[i], ops[i]);
    if i < n {
      OnEachAt(b, Init(slots), Init(ops), i);
      assert slots[i] != slots[n];
    }
  }

  // ---- where a slot lives in the flat page storage ---------------------------------

  function Base(b: Book, slot: nat): nat
    requires slot in b.entries
  {
    b.entries[slot].range.start * b.pageTokens
  }

  function MaxTokens(b: Book, slot: nat): nat
    requires slot in b.entries
  {
    b.entries[slot].trajectory.maxTokens
  }

  lemma EntryFits(b: Book, e: Entry)
    requires b.pageTokens > 0 && EntryOk(b, e)
    ensures e.trajectory.maxTokens <= e.range.count * b.pageTokens
    ensures e.range.start * b.pageTokens + e.range.count * b.pageTokens <= b.pageCount * b.pageTokens
  {
    PagesForPositive(e.trajectory.maxTokens, b.pageTokens);
    SpanBefore(e.range.start, e.range.count, b.pageCount, b.pageTokens);
  }

  /** Reservations of different slots do not share a position. */
  lemma RangesApart(b: Book, s: nat, t: nat)
    requires Inv(b) && s in b.entries && t in b.entries && s != t
    ensures Base(b, s) + MaxTokens(b, s) <= Base(b, t) || Base(b, t) + MaxTokens(b, t) <= Base(b, s)
  {
    assert EntryOk(b, b.entries[s]) && EntryOk(b, b.entries[t]);
    assert Apart(b.entries[s].range, b.entries[t].range);
    EntriesApart(b, b.entries[s], b.entries[t]);
  }

  lemma EntriesApart(b: Book, e: Entry, f: Entry)
    requires b.pageTokens > 0 && EntryOk(b, e) && EntryOk(b, f) && Apart(e.range, f.range)
    ensures var k := b.pageTokens;
            || e.range.start * k + e.trajectory.maxTokens <= f.range.start * k
            || f.range.start * k + f.trajectory.maxTokens <= e.range.start * k
  {
    EntryFits(b, e);
    EntryFits(b, f);
    if e.range.End() <= f.range.start {
      SpanBefore(e.range.start, e.range.count, f.range.start, b.pageTokens);
    } else {
      SpanBefore(f.range.start, f.range.count, e.range.start, b.pageTokens);
    }
  }

  /** The cached tail: the page and offset the next token goes to, or the full last page. */
  function Tail(range: Extent, pageTokens: nat, length: nat): (nat, nat)
    requires pageTokens > 0 && range.count > 0
  {
    if length / pageTokens >= range.count then (range.start + range.count - 1, pageTokens)
    else (range.start + length / pageTokens, length % pageTokens)
  }

  /** It names the flat position right after the trajectory, even when the chain is full. */
  lemma TailIsFlat(range: Extent, pageTokens: nat, length: nat)
    requires pageTokens > 0 && range.count > 0 && length <= range.count * pageTokens
    ensures var (page, offset) := Tail(range, pageTokens, length);
            && page * pageTokens + offset == range.start * pageTokens + length
            && range.start <= page < range.End() && offset <= pageTokens
            && (offset == pageTokens <==> length == range.count * pageTokens)
  {
    hide Tail;
    var q, r := TailParts(range, pageTokens, length);
    TailAt(range.start, range.count, pageTokens, length, q, r);
  }

  lemma TailParts(range: Extent, pageTokens: nat, length: nat) returns (q: nat, r: nat)
    requires pageTokens > 0 && range.count > 0
    ensures r < pageTokens && length == q * pageTokens + r
    ensures Tail(range, pageTokens, length) ==
            if q >= range.count then (range.start + range.count - 1, pageTokens) else (range.start + q, r)
  {
    DivBounds(length, pageTokens);
    q, r := length / pageTokens, length % pageTokens;
  }

  lemma TailAt(start: nat, count: nat, k: nat, length: nat, q: int, r: int)
    requires count > 0 && 0 <= r < k && length == q * k + r && length <= count * k
    ensures q >= count ==> (start + count - 1) * k + k == start * k + length && length == count * k
    ensures q < count ==> (start + q) * k + r == start * k + length && length < count * k
  {
    if q >= count {
      MulMonotone(count, q, k);
      FullTail(start, count, k);
    } else {
      MulStrict(q, count, k);
      Distribute(start, q, k);
    }
  }

  lemma FullTail(start: nat, count: nat, k: nat)
    requires count > 0
    ensures (start + count - 1) * k + k == start * k + count * k
  {
    Distribute(start, count, k);
    Distribute(start + count - 1, 1, k);
  }

  // ---- whole runs ------------------------------------------------------------------

  /** Operations of a run; `sampled` is what a migrated sequence sampled so far, known to its observer only. */
  datatype BookOp =
    | BindOp(id: string, maxTokens: int)
    | BindBatchOp(ids: seq<string>, lengths: seq<int>)
    | ReleaseOp(slot: nat)
    | SlotOp(slot: nat, op: Op)
    | RestoreOp(slot: nat, tokens: seq<Token>, promptLength: int, decodedLength: int, turns: Option<seq<Turn>>,
                sampled: seq<Token>)
    | SyncOp(slot: nat, promptLength: int, shared: seq<Token>, decodedLength: int)

  /** What a restore or a synchronisation would make of a slot's trajectory. */
  function Imported(t: Trajectory, op: BookOp): Option<Trajectory>
    requires op.RestoreOp? || op.SyncOp?
  {
    if op.RestoreOp? then RestoreOf(t, op.tokens, op.promptLength, op.decodedLength, op.turns)
    else SynchronizeOf(t, op.promptLength, op.shared, op.decodedLength)
  }

  function Import(b: Book, op: BookOp): Option<Book>
    requires op.RestoreOp? || op.SyncOp?
  {
    if op.slot !in b.entries then None
    else
      var t := Imported(b.entries[op.slot].trajectory, op);
      if t.None? then None else Some(SetTrajectory(b, op.slot, t.value))
  }

  function Step(b: Book, op: BookOp): Option<Book>
    requires b.pageTokens > 0
  {
    match op
    case BindOp(id, n) => (var r := Bind(b, id, n); if r.None? then None else Some(r.value.0))
    case BindBatchOp(ids, ns) => (var r := BindBatch(b, ids, ns); if r.None? then None else Some(r.value.0))
    case ReleaseOp(s) => Release(b, s)
    case SlotOp(s, o) => OnSlot(b, s, o)
    case _ => Import(b, op)
  }

  /** The tokens a ledger marks as sampled; none if it marks positions that do not exist. */
  function Marked(tokens: seq<Token>, turns: seq<Turn>): seq<Token> {
    if SpansWithin(turns, |tokens|) then Generated(tokens, turns) else []
  }

  /** Where the tokens begin that the owner sampled since the slot was last brought up to date. */
  function NewFrom(t: Trajectory, promptLength: int): int {
    if t.turns == [] then promptLength else |t.tokens|
  }

  /** The log after an import: a restore continues the migrated log, a synchronisation adds what the owner sampled. */
  function ImportLog(t: Trajectory, log: seq<Token>, op: BookOp): seq<Token>
    requires op.RestoreOp? || op.SyncOp?
  {
    if op.RestoreOp? then op.sampled
    else
      var from := NewFrom(t, op.promptLength);
      if 0 <= from <= |op.shared| then log + op.shared[from..] else log
  }

  /** The observer's log of sampled tokens per bound slot. */
  function StepLog(b: Book, log: map<nat, seq<Token>>, op: BookOp): map<nat, seq<Token>>
    requires b.pageTokens > 0
  {
    var after := Step(b, op);
    if after.None? then log
    else
      match op
      case BindOp(_, _) => map s | s in after.value.entries :: if s in log then log[s] else []
      case BindBatchOp(_, _) => map s | s in after.value.entries :: if s in log then log[s] else []
      case ReleaseOp(s) => log - {s}
      case SlotOp(s, o) => if s in log then log[s := NextLog(log[s], o)] else log
      case _ =>
        if op.slot in log then log[op.slot := ImportLog(b.entries[op.slot].trajectory, log[op.slot], op)] else log
  }

  /**
   An import that tells the truth.  A restored ledger marks the tokens that were
   sampled and runs to the last token.  A synchronisation moves both lengths
   forward alike, over pages that still hold what the slot marked before.
   */
  predicate Faithful(b: Book, op: BookOp) {
    match op
    case RestoreOp(_, tokens, promptLength, _, None, sampled) =>
      0 <= promptLength <= |tokens| && sampled == tokens[promptLength..]
    case RestoreOp(_, tokens, _, _, Some(turns), sampled) =>
      && (turns != [] ==> Last(turns).GeneratedEnd() == |tokens|)
      && sampled == Marked(tokens, turns)
    case SyncOp(s, _, shared, decoded) =>
      s in b.entries && b.entries[s].trajectory.turns != [] ==>
        var t := b.entries[s].trajectory;
        && 0 <= |shared| - |t.tokens| == decoded - t.decodedLength
        && Marked(shared, t.turns) == Marked(t.tokens, t.turns)
    case _ => true
  }

  lemma StepKeepsPageTokens(b: Book, op: BookOp)
    requires Inv(b) && Step(b, op).Some?
    ensures Inv(Step(b, op).value)
    ensures Step(b, op).value.pageTokens == b.pageTokens && Step(b, op).value.pageCount == b.pageCount
  {
    match op
    case BindOp(id, n) => BindKeepsInv(b, id, n);
    case BindBatchOp(ids, ns) =>
      BatchIsSequential(b, ids, ns);
      BindAllKeepsInv(b, ids, ns);
    case ReleaseOp(s) => ReleaseKeepsInv(b, s);
    case SlotOp(s, o) => OnSlotKeeps(b, s, o);
    case _ => ImportKeepsInv(b, op);
  }

  lemma ImportKeepsInv(b: Book, op: BookOp)
    requires Inv(b) && (op.RestoreOp? || op.SyncOp?) && Import(b, op).Some?
    ensures Inv(Import(b, op).value)
  {
    hide Inv;
    SetTrajectoryKeepsInv(b, op.slot, Imported(b.entries[op.slot].trajectory, op).value);
  }

  /** An aligned ledger through which exactly `log` is read. */
  ghost predicate ReadsBack(t: Trajectory, log: seq<Token>) {
    Aligned(t) && SpansWithin(t.turns, |t.tokens|) && Generated(t.tokens, t.turns) == log
  }

  /** Each bound slot's ledger is aligned and reads back its own log. */
  ghost predicate LogsAgree(b: Book, log: map<nat, seq<Token>>) {
    && log.Keys == b.entries.Keys
    && (forall s | s in b.entries :: ReadsBack(b.entries[s].trajectory, log[s]))
  }

  lemma FreshAgrees(maxTokens: nat)
    ensures ReadsBack(Fresh(maxTokens), [])
  {
  }

  lemma OpLogs(t: Trajectory, log: seq<Token>, op: Op)
    requires ReadsBack(t, log) && Apply(t, op).Some?
    ensures ReadsBack(Apply(t, op).value, NextLog(log, op))
  {
    match op
    case AppendToken(x) => AppendTokenKeeps(t, x);
    case WritePrompt(p) => WritePromptKeeps(t, p);
    case AppendPrompt(_) => PromptOpKeeps(t, op);
    case BeginReentry(_) => PromptOpKeeps(t, op);
    case SetPromptLength(_) => PromptOpKeeps(t, op);
  }

  lemma SlotStepLogs(b: Book, log: map<nat, seq<Token>>, s: nat, op: Op)
    requires Inv(b) && LogsAgree(b, log) && OnSlot(b, s, op).Some?
    ensures LogsAgree(OnSlot(b, s, op).value, StepLog(b, log, SlotOp(s, op)))
  {
    OpLogs(b.entries[s].trajectory, log[s], op);
  }

  /** New slots start with an empty log, the others keep theirs. */
  lemma NewSlotsLog(b: Book, after: Book, log: map<nat, seq<Token>>)
    requires LogsAgree(b, log)
    requires forall s | s in b.entries :: s in after.entries && after.entries[s] == b.entries[s]
    requires forall s | s in after.entries && s !in b.entries :: ReadsBack(after.entries[s].trajectory, [])
    ensures LogsAgree(after, map s | s in after.entries :: if s in log then log[s] else [])
  {
    hide ReadsBack;
  }

  lemma BindLogs(b: Book, log: map<nat, seq<Token>>, id: string, n: int)
    requires Inv(b) && LogsAgree(b, log) && Bind(b, id, n).Some?
    ensures LogsAgree(Bind(b, id, n).value.0, StepLog(b, log, BindOp(id, n)))
  {
    BindKeepsInv(b, id, n);
    FreshAgrees(n);
    hide Inv, ReadsBack;
    NewSlotsLog(b, Bind(b, id, n).value.0, log);
  }

  lemma BatchLogs(b: Book, log: map<nat, seq<Token>>, ids: seq<string>, ns: seq<int>)
    requires Inv(b) && LogsAgree(b, log) && BindBatch(b, ids, ns).Some?
    ensures LogsAgree(BindBatch(b, ids, ns).value.0, StepLog(b, log, BindBatchOp(ids, ns)))
  {
    BatchIsSequential(b, ids, ns);
    BindAllKeepsInv(b, ids, ns);
    hide Inv, ReadsBack;
    var after, slots := BindBatch(b, ids, ns).value.0, BindAll(b, ids, ns).value.1;
    forall s | s in after.entries && s !in b.entries
      ensures ReadsBack(after.entries[s].trajectory, [])
    {
      assert s in slots;
      var i :| 0 <= i < |slots| && slots[i] == s;
      FreshAgrees(ns[i]);
    }
    NewSlotsLog(b, after, log);
  }

  /** A restored slot reads back the migrated log exactly when the restore is faithful. */
  lemma RestoreReadsBackIff(b: Book, op: BookOp)
    requires op.RestoreOp? && op.slot in b.entries && Imported(b.entries[op.slot].trajectory, op).Some?
    ensures ReadsBack(Imported(b.entries[op.slot].trajectory, op).value, op.sampled) <==> Faithful(b, op)
  {
    var t := b.entries[op.slot].trajectory;
    var t' := Imported(t, op).value;
    RestoreAlignsIff(t, op.tokens, op.promptLength, op.decodedLength, op.turns);
    if Aligned(t') { ValidSpans(t'.turns, |t'.tokens|, t'.decodedLength); }
    if op.turns.None? {
      var turn := Turn(0, 0, op.promptLength, op.promptLength, |op.tokens| - op.promptLength);
      OneTurn(turn);
      assert t'.turns == [turn];
      assert Generated(op.tokens, []) + op.tokens[op.promptLength..|op.tokens|] == op.tokens[op.promptLength..];
    }
    hide Aligned, RestoreOf;
  }

  /** A synchronised slot reads back its log and the owner's new tokens exactly when the call is faithful. */
  lemma SyncReadsBackIff(b: Book, log: seq<Token>, op: BookOp)
    requires op.SyncOp? && op.slot in b.entries && ReadsBack(b.entries[op.slot].trajectory, log)
    requires Imported(b.entries[op.slot].trajectory, op).Some?
    ensures var t := b.entries[op.slot].trajectory;
            ReadsBack(Imported(t, op).value, ImportLog(t, log, op)) <==> Faithful(b, op)
  {
    var t := b.entries[op.slot].trajectory;
    var t' := Imported(t, op).value;
    SynchronizeAlignsIff(t, op.promptLength, op.shared, op.decodedLength);
    if Aligned(t') {
      ValidSpans(t'.turns, |t'.tokens|, t'.decodedLength);
      if t.turns == [] {
        SyncedFromNothing(t, log, op);
      } else {
        SyncedLog(t, log, op);
      }
    }
    hide Aligned, SynchronizeOf;
  }

  lemma SyncedFromNothing(t: Trajectory, log: seq<Token>, op: BookOp)
    requires op.SyncOp? && ReadsBack(t, log) && t.turns == [] && Imported(t, op).Some?
    ensures var t' := Imported(t, op).value;
            SpansWithin(t'.turns, |t'.tokens|) && Generated(t'.tokens, t'.turns) == ImportLog(t, log, op)
  {
    var turn := Turn(0, 0, op.promptLength, op.promptLength, op.decodedLength);
    OneTurn(turn);
    if op.shared != [] {
      assert Imported(t, op).value.turns == [turn];
      assert [] + op.shared[op.promptLength..|op.shared|] == [] + op.shared[op.promptLength..];
    }
  }

  lemma SyncedLog(t: Trajectory, log: seq<Token>, op: BookOp)
    requires op.SyncOp? && ReadsBack(t, log) && t.turns != [] && Imported(t, op).Some?
    requires Aligned(Imported(t, op).value) && SpansWithin(Imported(t, op).value.turns, |op.shared|)
    requires |op.shared| - |t.tokens| == op.decodedLength - t.decodedLength
    ensures Generated(op.shared, Imported(t, op).value.turns) == ImportLog(t, log, op)
            <==> |t.tokens| <= |op.shared| && Marked(op.shared, t.turns) == log
  {
    var t' := Imported(t, op).value;
    GeneratedLength(op.shared, t'.turns);
    GeneratedLength(t.tokens, t.turns);
    if |t.tokens| <= |op.shared| {
      SynchronizedReads(t, op.promptLength, op.shared, op.decodedLength);
      hide Aligned, SynchronizeOf, Generated;
      SameFront(Generated(op.shared, t.turns), log, op.shared[|t.tokens|..]);
    }
  }

  lemma SameFront<T>(xs: seq<T>, ys: seq<T>, end: seq<T>)
    ensures xs + end == ys + end <==> xs == ys
  {
    if xs + end == ys + end {
      assert |xs| == |xs + end| - |end| == |ys|;
      assert xs == (xs + end)[..|xs|] && ys == (ys + end)[..|ys|];
    }
  }

  lemma ImportLogsIff(b: Book, log: map<nat, seq<Token>>, op: BookOp)
    requires LogsAgree(b, log) && b.pageTokens > 0 && (op.RestoreOp? || op.SyncOp?) && Import(b, op).Some?
    ensures LogsAgree(Import(b, op).value, StepLog(b, log, op)) <==> Faithful(b, op)
  {
    var t := b.entries[op.slot].trajectory;
    if op.RestoreOp? { RestoreReadsBackIff(b, op); } else { SyncReadsBackIff(b, log[op.slot], op); }
    hide ReadsBack, Faithful, Imported;
    OneSlotLogsIff(b, log, op.slot, Imported(t, op).value, ImportLog(t, log[op.slot], op));
    hide LogsAgree, ImportLog;
  }

  lemma OneSlotLogsIff(b: Book, log: map<nat, seq<Token>>, s: nat, t: Trajectory, tokens: seq<Token>)
    requires LogsAgree(b, log) && s in b.entries
    ensures LogsAgree(SetTrajectory(b, s, t), log[s := tokens]) <==> ReadsBack(t, tokens)
  {
    hide ReadsBack;
    var after := SetTrajectory(b, s, t);
    assert after.entries[s].trajectory == t;
    assert forall k | k in b.entries && k != s :: after.entries[k] == b.entries[k];
  }

  /** Every accepted operation moves slots and logs alike, an import exactly when it is faithful. */
  lemma StepLogsIff(b: Book, log: map<nat, seq<Token>>, op: BookOp)
    requires Inv(b) && LogsAgree(b, log) && Step(b, op).Some?
    ensures LogsAgree(Step(b, op).value, StepLog(b, log, op)) <==> Faithful(b, op)
  {
    assert b.pageTokens > 0;
    hide ReadsBack, Inv, Bind, BindBatch, OnSlot, Import;
    match op
    case BindOp(id, n) => BindLogs(b, log, id, n);
    case BindBatchOp(ids, ns) => BatchLogs(b, log, ids, ns);
    case ReleaseOp(s) =>
    case SlotOp(s, o) => SlotStepLogs(b, log, s, o);
    case RestoreOp(_, _, _, _, _, _) => ImportLogsIff(b, log, op);
    case SyncOp(_, _, _, _) => ImportLogsIff(b, log, op);
  }

  /** A refused operation leaves the book as it was. */
  function RunBook(b: Book, ops: seq<BookOp>): Book
    requires Inv(b)
    ensures Inv(RunBook(b, ops))
    decreases |ops|
  {
    if ops == [] then b
    else
      var before := RunBook(b, Init(ops));
      var after := Step(before, Last(ops));
      if after.None? then before else (StepKeepsPageTokens(before, Last(ops)); after.value)
  }

  function RunLog(b: Book, log: map<nat, seq<Token>>, ops: seq<BookOp>): map<nat, seq<Token>>
    requires Inv(b)
    decreases |ops|
  {
    if ops == [] then log else StepLog(RunBook(b, Init(ops)), RunLog(b, log, Init(ops)), Last(ops))
  }

  /** Every import the run accepts is faithful when it is made. */
  predicate FaithfulRun(b: Book, ops: seq<BookOp>)
    requires Inv(b)
    decreases |ops|
  {
    || ops == []
    || (&& FaithfulRun(b, Init(ops))
        && var before := RunBook(b, Init(ops));
           Step(before, Last(ops)).Some? ==> Faithful(before, Last(ops)))
  }

  /**
   Over every run of binds, batch binds, releases, slot operations, restores and
   synchronisations from an empty book, with slots recycled in between: the
   pages stay partitioned, and if the imports were faithful each bound slot's
   generated tokens are exactly the observer's log: what was sampled for it
   here, by its owner, or before it migrated, since its prompt was written.
   */
  lemma {:induction false} EveryRunLogs(pageTokens: nat, pageCount: nat, ops: seq<BookOp>)
    requires pageTokens > 0
    ensures Inv(EmptyBook(pageTokens, pageCount))
    ensures var start := EmptyBook(pageTokens, pageCount);
            && Inv(RunBook(start, ops))
            && (FaithfulRun(start, ops) ==> LogsAgree(RunBook(start, ops), RunLog(start, map[], ops)))
    decreases |ops|
  {
    var start := EmptyBook(pageTokens, pageCount);
    EmptyInv(pageTokens, pageCount);
    if ops != [] && FaithfulRun(start, ops) {
      EveryRunLogs(pageTokens, pageCount, Init(ops));
      var before, log := RunBook(start, Init(ops)), RunLog(start, map[], Init(ops));
      if Step(before, Last(ops)).Some? { StepLogsIff(before, log, Last(ops)); }
    }
  }

  /** A migrated slot: its payload is accepted by any slot with room, and restoring it is faithful to its log. */
  lemma MigrationIsFaithful(source: Trajectory, log: seq<Token>, b: Book, slot: nat)
    requires ReadsBack(source, log) && slot in b.entries
    requires |source.tokens| <= b.entries[slot].trajectory.maxTokens
    ensures var op := RestoreOp(slot, source.tokens, source.promptLength, source.decodedLength,
                                DecodeTurns(EncodeTurns(source.turns)), log);
            Import(b, op).Some? && Faithful(b, op)
  {
    MigrationRoundTrip(source, log, [], b.entries[slot].trajectory);
  }

  /** A mirror that takes over an owner's lengths after any decode phase does so faithfully. */
  lemma HandoverIsFaithful(b: Book, log: seq<Token>, slot: nat, ops: seq<Op>)
    requires slot in b.entries && ReadsBack(b.entries[slot].trajectory, log) && b.entries[slot].trajectory.turns != []
    requires forall i | 0 <= i < |ops| :: DecodeOp(ops[i])
    ensures var t := b.entries[slot].trajectory;
            var owner := RunOps(t, ops);
            var op := SyncOp(slot, owner.promptLength, owner.tokens, owner.decodedLength);
            Import(b, op).Some? && Faithful(b, op) && ImportLog(t, log, op) == Log(t, log, ops)
  {
    var t := b.entries[slot].trajectory;
    var owner := RunOps(t, ops);
    var op := SyncOp(slot, owner.promptLength, owner.tokens, owner.decodedLength);
    MirrorCatchesUp(t, ops);
    LedgerIsLog(t, log, ops);
    DecodingAppends(t, log, ops);
    SyncReadsBackIff(b, log, op);
  }

  lemma {:induction false} DecodingAppends(t: Trajectory, log: seq<Token>, ops: seq<Op>)
    requires Aligned(t) && t.turns != [] && forall i | 0 <= i < |ops| :: DecodeOp(ops[i])
    ensures t.tokens <= RunOps(t, ops).tokens && Log(t, log, ops) == log + RunOps(t, ops).tokens[|t.tokens|..]
    decreases |ops|
  {
    if ops != [] {
      assert DecodeOp(Last(ops));
      DecodingAppends(t, log, Init(ops));
    }
  }

  // ---- what every run's slots hold ------------------------------------------------

  /** All that was said to a slot, in order, and the last prompt boundary announced for it. */
  datatype Script = Script(tokens: seq<Token>, boundary: int)

  function NextScript(c: Script, op: Op): Script {
    match op
    case WritePrompt(p) => Script(p, |p|)
    case AppendPrompt(p) => Script(c.tokens + p, |c.tokens| + |p|)
    case AppendToken(x) => c.(tokens := c.tokens + [x])
    case BeginReentry(n) => c.(boundary := n)
    case SetPromptLength(n) => c.(boundary := n)
  }

  /** Whether a slot with this much room takes an operation; only lengths matter. */
  predicate RoomFor(c: Script, room: nat, op: Op) {
    match op
    case WritePrompt(p) => |p| <= room
    case AppendPrompt(p) => |c.tokens| + |p| <= room
    case AppendToken(_) => |c.tokens| < room
    case BeginReentry(n) => 0 <= n <= |c.tokens|
    case SetPromptLength(n) => 0 <= n <= |c.tokens|
  }

  function StepScript(b: Book, scripts: map<nat, Script>, op: BookOp): map<nat, Script>
    requires b.pageTokens > 0
  {
    var after := Step(b, op);
    if after.None? then scripts
    else
      match op
      case BindOp(_, _) => map s | s in after.value.entries :: if s in scripts then scripts[s] else Script([], 0)
      case BindBatchOp(_, _) => map s | s in after.value.entries :: if s in scripts then scripts[s] else Script([], 0)
      case ReleaseOp(s) => scripts - {s}
      case SlotOp(s, o) => if s in scripts then scripts[s := NextScript(scripts[s], o)] else scripts
      case RestoreOp(s, tokens, n, _, _, _) => scripts[s := Script(tokens, n)]
      case SyncOp(s, n, shared, _) => scripts[s := Script(shared, n)]
  }

  ghost predicate Holds(t: Trajectory, c: Script) { t.tokens == c.tokens && t.promptLength == c.boundary }

  ghost predicate ScriptsHeld(b: Book, scripts: map<nat, Script>) {
    scripts.Keys == b.entries.Keys && forall s | s in b.entries :: Holds(b.entries[s].trajectory, scripts[s])
  }

  /** A slot takes an operation exactly when the lengths allow it, and then holds what was said. */
  lemma SlotHolds(t: Trajectory, c: Script, op: Op)
    requires Holds(t, c)
    ensures Apply(t, op).Some? <==> RoomFor(c, t.maxTokens, op)
    ensures Apply(t, op).Some? ==> Holds(Apply(t, op).value, NextScript(c, op))
  {
  }

  lemma SlotOpAcceptedIff(b: Book, scripts: map<nat, Script>, s: nat, op: Op)
    requires b.pageTokens > 0 && ScriptsHeld(b, scripts)
    ensures Step(b, SlotOp(s, op)).Some? <==> s in scripts && RoomFor(scripts[s], MaxTokens(b, s), op)
  {
    hide Apply, RoomFor;
    if s in scripts { SlotHolds(b.entries[s].trajectory, scripts[s], op); }
  }

  lemma NewSlotsHold(b: Book, after: Book, scripts: map<nat, Script>)
    requires ScriptsHeld(b, scripts)
    requires forall s | s in b.entries :: s in after.entries && after.entries[s] == b.entries[s]
    requires forall s | s in after.entries && s !in b.entries :: Holds(after.entries[s].trajectory, Script([], 0))
    ensures ScriptsHeld(after, map s | s in after.entries :: if s in scripts then scripts[s] else Script([], 0))
  {
    hide Holds;
  }

  lemma BatchHolds(b: Book, scripts: map<nat, Script>, ids: seq<string>, ns: seq<int>)
    requires Inv(b) && ScriptsHeld(b, scripts) && BindBatch(b, ids, ns).Some?
    ensures ScriptsHeld(BindBatch(b, ids, ns).value.0, StepScript(b, scripts, BindBatchOp(ids, ns)))
  {
    BatchIsSequential(b, ids, ns);
    BindAllKeepsInv(b, ids, ns);
    hide Inv;
    var after, slots := BindBatch(b, ids, ns).value.0, BindAll(b, ids, ns).value.1;
    forall s | s in after.entries && s !in b.entries
      ensures Holds(after.entries[s].trajectory, Script([], 0))
    {
      assert s in slots;
      var i :| 0 <= i < |slots| && slots[i] == s;
    }
    NewSlotsHold(b, after, scripts);
  }

  lemma OneSlotHolds(b: Book, scripts: map<nat, Script>, s: nat, t: Trajectory, c: Script)
    requires ScriptsHeld(b, scripts) && s in b.entries && Holds(t, c)
    ensures ScriptsHeld(SetTrajectory(b, s, t), scripts[s := c])
  {
    hide Holds;
    var after := SetTrajectory(b, s, t);
    assert after.entries[s].trajectory == t;
    assert forall k | k in b.entries && k != s :: after.entries[k] == b.entries[k];
  }

  lemma StepHolds(b: Book, scripts: map<nat, Script>, op: BookOp)
    requires Inv(b) && ScriptsHeld(b, scripts) && Step(b, op).Some?
    ensures ScriptsHeld(Step(b, op).value, StepScript(b, scripts, op))
  {
    assert b.pageTokens > 0;
    match op {
      case BindOp(id, n) =>
        BindKeepsInv(b, id, n);
        hide Inv;
        NewSlotsHold(b, Bind(b, id, n).value.0, scripts);
      case BindBatchOp(ids, ns) => BatchHolds(b, scripts, ids, ns);
      case ReleaseOp(_) => hide Inv;
      case SlotOp(s, o) =>
        SlotHolds(b.entries[s].trajectory, scripts[s], o);
        OneSlotHolds(b, scripts, s, Apply(b.entries[s].trajectory, o).value, NextScript(scripts[s], o));
        hide Inv, ScriptsHeld, Holds, Apply;
      case RestoreOp(s, tokens, n, _, _, _) =>
        OneSlotHolds(b, scripts, s, Imported(b.entries[s].trajectory, op).value, Script(tokens, n));
        hide Inv, ScriptsHeld, Holds;
      case SyncOp(s, n, shared, _) =>
        OneSlotHolds(b, scripts, s, Imported(b.entries[s].trajectory, op).value, Script(shared, n));
        hide Inv, ScriptsHeld, Holds;
    }
  }

  function RunScripts(b: Book, scripts: map<nat, Script>, ops: seq<BookOp>): map<nat, Script>
    requires Inv(b)
    decreases |ops|
  {
    if ops == [] then scripts else StepScript(RunBook(b, Init(ops)), RunScripts(b, scripts, Init(ops)), Last(ops))
  }

  /**
   Over every run from an empty book, imports faithful or not: each bound slot
   holds exactly what was said to it since it was bound, its prompt written or
   its trajectory imported, and the last prompt boundary announced.
   */
  lemma {:induction false} EveryRunHolds(pageTokens: nat, pageCount: nat, ops: seq<BookOp>)
    requires pageTokens > 0
    ensures Inv(EmptyBook(pageTokens, pageCount))
    ensures var start := EmptyBook(pageTokens, pageCount);
            ScriptsHeld(RunBook(start, ops), RunScripts(start, map[], ops))
    decreases |ops|
  {
    var start := EmptyBook(pageTokens, pageCount);
    EmptyInv(pageTokens, pageCount);
    if ops != [] {
      EveryRunHolds(pageTokens, pageCount, Init(ops));
      hide Inv, ScriptsHeld, Step, StepScript;
      var before, scripts := RunBook(start, Init(ops)), RunScripts(start, map[], Init(ops));
      if Step(before, Last(ops)).Some? {
        StepHolds(before, scripts, Last(ops));
      } else {
        RefusedScript(before, scripts, Last(ops));
      }
    }
  }

  lemma RefusedScript(b: Book, scripts: map<nat, Script>, op: BookOp)
    requires b.pageTokens > 0 && Step(b, op).None?
    ensures StepScript(b, scripts, op) == scripts
  {
  }

  // ---- what every run's ledgers keep, faithful imports or not ---------------------

  ghost predicate AllForward(b: Book) {
    forall s | s in b.entries :: SpansForward(b.entries[s].trajectory.turns)
  }

  lemma SlotStepKeepsForward(t: Trajectory, op: Op)
    requires SpansForward(t.turns) && Apply(t, op).Some?
    ensures SpansForward(Apply(t, op).value.turns)
  {
  }

  lemma ImportIsForward(t: Trajectory, op: BookOp)
    requires SpansForward(t.turns) && (op.RestoreOp? || op.SyncOp?) && Imported(t, op).Some?
    ensures SpansForward(Imported(t, op).value.turns)
  {
    if op.RestoreOp? && op.turns.Some? {
      forall i | 0 <= i < |op.turns.value|
        ensures 0 <= op.turns.value[i].generatedStart && 0 <= op.turns.value[i].generatedLength
      {
        assert TurnOk(op.turns.value, i, |op.tokens|);
      }
    }
  }

  lemma BatchStartsFresh(b: Book, ids: seq<string>, ns: seq<int>)
    requires Inv(b) && AllForward(b) && BindBatch(b, ids, ns).Some?
    ensures AllForward(BindBatch(b, ids, ns).value.0)
  {
    BatchIsSequential(b, ids, ns);
    BindAllKeepsInv(b, ids, ns);
    hide Inv;
    var after, slots := BindBatch(b, ids, ns).value.0, BindAll(b, ids, ns).value.1;
    forall s | s in after.entries
      ensures SpansForward(after.entries[s].trajectory.turns)
    {
      if s !in b.entries {
        assert s in slots;
        var i :| 0 <= i < |slots| && slots[i] == s;
      }
    }
  }

  lemma StepKeepsForward(b: Book, op: BookOp)
    requires Inv(b) && AllForward(b) && Step(b, op).Some?
    ensures AllForward(Step(b, op).value)
  {
    hide Inv;
    match op {
      case BindOp(_, _) =>
      case BindBatchOp(ids, ns) => BatchStartsFresh(b, ids, ns);
      case ReleaseOp(_) =>
      case SlotOp(s, o) => SlotStepKeepsForward(b.entries[s].trajectory, o);
      case _ => ImportIsForward(b.entries[op.slot].trajectory, op);
    }
  }

  /** So a ledger of a live book can always be read: its spans never run backwards. */
  lemma {:induction false} EveryRunIsForward(pageTokens: nat, pageCount: nat, ops: seq<BookOp>)
    requires pageTokens > 0
    ensures Inv(EmptyBook(pageTokens, pageCount))
    ensures AllForward(RunBook(EmptyBook(pageTokens, pageCount), ops))
    decreases |ops|
  {
    var start := EmptyBook(pageTokens, pageCount);
    EmptyInv(pageTokens, pageCount);
    if ops != [] {
      EveryRunIsForward(pageTokens, pageCount, Init(ops));
      var before := RunBook(start, Init(ops));
      if Step(before, Last(ops)).Some? { StepKeepsForward(before, Last(ops)); }
    }
  }

  /** Once every slot is released again, the free list is the one extent it started as. */
  lemma DrainedBookIsWhole(pageTokens: nat, pageCount: nat, ops: seq<BookOp>)
    requires pageTokens > 0
    requires Inv(EmptyBook(pageTokens, pageCount))
    requires RunBook(EmptyBook(pageTokens, pageCount), ops).entries == map[]
    ensures RunBook(EmptyBook(pageTokens, pageCount), ops).free == EmptyBook(pageTokens, pageCount).free
  {
    var start := EmptyBook(pageTokens, pageCount);
    RunKeepsGeometry(start, ops);
    FreeListIsDetermined(RunBook(start, ops), start);
  }

  lemma {:induction false} RunKeepsGeometry(b: Book, ops: seq<BookOp>)
    requires Inv(b)
    ensures RunBook(b, ops).pageCount == b.pageCount && RunBook(b, ops).pageTokens == b.pageTokens
    decreases |ops|
  {
    if ops != [] {
      RunKeepsGeometry(b, Init(ops));
      var before := RunBook(b, Init(ops));
      if Step(before, Last(ops)).Some? { StepKeepsPageTokens(before, Last(ops)); }
    }
  }
}
