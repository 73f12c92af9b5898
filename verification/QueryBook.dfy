/**
 The QueryBook itself: one flat page storage, an extent allocator and the
 per-slot metadata dictionaries, kept in agreement with the abstract book.
 */
module QueryBooks {
  import opened Options
  import opened Arith
  import opened Sorting
  import opened Extents
  import opened TurnLedger
  import opened TokenBook
  import opened BookTables

  const TOKEN_BYTES := 4

  class QueryBook {
    const pageTokens: nat
    const pageCount: nat
    const storage: array<Token>
    var freeExtents: seq<Extent>
    var records: map<nat, SlotRecord>
    var turns: map<nat, seq<Turn>>
    var pageRanges: map<nat, Extent>
    var tailPages: map<nat, nat>
    var tailOffsets: map<nat, nat>
    var seqToSlot: map<string, nat>
    var slotToSeq: map<nat, string>
    var freeSlots: seq<nat>
    var nextSlot: nat
    ghost var book: Book

    ghost function Dictionaries(): Tables
      reads this
    {
      Tables(records, turns, pageRanges, tailPages, tailOffsets, seqToSlot, slotToSeq, freeSlots, nextSlot)
    }

    ghost predicate Geometry()
      reads this
    {
      && pageTokens > 0 && storage.Length == pageCount * pageTokens
      && book.pageTokens == pageTokens && book.pageCount == pageCount
    }

    /** The dictionaries and the page bytes describe the abstract book. */
    ghost predicate Described()
      reads this, storage
    {
      Geometry() && Agrees(Dictionaries(), storage[..], book)
    }

    ghost predicate Valid()
      reads this, storage
    {
      Described() && freeExtents == book.free && Inv(book)
    }

    constructor (capacityBytes: nat, pageTokens: nat, storage: array<Token>)
      requires pageTokens > 0 && capacityBytes >= pageTokens * TOKEN_BYTES
      requires storage.Length == capacityBytes / (pageTokens * TOKEN_BYTES) * pageTokens
      ensures Valid()
      ensures this.pageTokens == pageTokens && this.storage == storage
      ensures book == EmptyBook(pageTokens, capacityBytes / (pageTokens * TOKEN_BYTES))
    {
      var count := capacityBytes / (pageTokens * TOKEN_BYTES);
      DivMonotone(pageTokens * TOKEN_BYTES, capacityBytes, pageTokens * TOKEN_BYTES);
      DivIs(pageTokens * TOKEN_BYTES, pageTokens * TOKEN_BYTES, 1);
      this.pageTokens := pageTokens;
      this.pageCount := count;
      this.storage := storage;
      freeExtents := [Extent(0, count)];
      records, turns, pageRanges, tailPages, tailOffsets := map[], map[], map[], map[], map[];
      seqToSlot, slotToSeq := map[], map[];
      freeSlots, nextSlot := [], 0;
      book := EmptyBook(pageTokens, count);
      EmptyInv(pageTokens, count);
    }

    // ---- allocator ---------------------------------------------------------------

    method TakeExtent(pages: nat) returns (start: Option<nat>)
      modifies this`freeExtents
      ensures match Take(old(freeExtents), pages)
              case None => start == None && freeExtents == old(freeExtents)
              case Some((s, rest)) => start == Some(s) && freeExtents == rest
    {
      TakeSucceedsIff(freeExtents, pages);
      for i := 0 to |freeExtents|
        invariant freeExtents == old(freeExtents)
        invariant forall k | 0 <= k < i :: freeExtents[k].count < pages
      {
        var e := freeExtents[i];
        if e.count >= pages {
          TakeAt(freeExtents, pages, i);
          if e.count == pages {
            freeExtents := freeExtents[..i] + freeExtents[i + 1..];
          } else {
            freeExtents := freeExtents[i := Extent(e.start + pages, e.count - pages)];
          }
          return Some(e.start);
        }
      }
      return None;
    }

    method ReturnExtent(start: nat, count: nat)
      modifies this`freeExtents
      ensures freeExtents == Return(old(freeExtents), Extent(start, count))
    {
      if count == 0 {
        return;
      }
      var sorted := SortBy(freeExtents + [Extent(start, count)], ExtentLe);
      var merged: seq<Extent> := [];
      for i := 0 to |sorted|
        invariant Merge(merged, sorted[i..]) == Merge([], sorted)
      {
        MergeFrom(merged, sorted, i);
        hide Merge, SortBy, Absorb;
        merged := Coalesce(merged, sorted[i]);
      }
      freeExtents := merged;
    }

    /** Joins an extent to the last one if they touch, or starts a new one. */
    method Coalesce(merged: seq<Extent>, current: Extent) returns (joined: seq<Extent>)
      ensures joined == Absorb(merged, current)
    {
      if merged == [] || Last(merged).End() < current.start {
        joined := merged + [current];
      } else {
        var previous := Last(merged);
        joined := merged[|merged| - 1 :=
          Extent(previous.start, Max(previous.End(), current.End()) - previous.start)];
      }
    }

    method LargestFreeExtent() returns (largest: nat)
      ensures forall pages: nat | pages > 0 :: pages <= largest <==> Fits(freeExtents, pages)
    {
      largest := 0;
      for i := 0 to |freeExtents|
        invariant forall k | 0 <= k < i :: freeExtents[k].count <= largest
        invariant largest == 0 || exists k | 0 <= k < i :: freeExtents[k].count == largest
      {
        largest := if freeExtents[i].count > largest then freeExtents[i].count else largest;
      }
    }

    method ReservationFreeCount(maxTokens: int) returns (count: Option<nat>)
      requires pageTokens > 0
      ensures maxTokens <= 0 ==> count == None
      ensures maxTokens > 0 ==> PagesFor(maxTokens, pageTokens) > 0
                                && count == Some(FreeCount(freeExtents, PagesFor(maxTokens, pageTokens)))
    {
      if maxTokens <= 0 {
        return None;
      }
      var pages := PagesFor(maxTokens, pageTokens);
      PagesForPositive(maxTokens, pageTokens);
      var sum := 0;
      for i := 0 to |freeExtents|
        invariant sum + FreeCount(freeExtents[i..], pages) == FreeCount(freeExtents, pages)
      {
        assert freeExtents[i..][1..] == freeExtents[i + 1..];
        sum := sum + freeExtents[i].count / pages;
      }
      count := Some(sum);
    }

    /** Replays first fit on a copy of the free list. */
    method CanReserveBatch(maxTokens: seq<int>) returns (r: Option<bool>)
      requires pageTokens > 0
      ensures r == Preflight(freeExtents, maxTokens, pageTokens)
    {
      var extents := freeExtents;
      for n := 0 to |maxTokens|
        invariant Preflight(extents, maxTokens[n..], pageTokens) == Preflight(freeExtents, maxTokens, pageTokens)
      {
        assert maxTokens[n..][1..] == maxTokens[n + 1..];
        if maxTokens[n] <= 0 {
          return None;
        }
        var rest := FirstFit(extents, PagesFor(maxTokens[n], pageTokens));
        if rest.None? {
          return Some(false);
        }
        extents := rest.value;
      }
      r := Some(true);
    }

    /** Cuts the pages from the first extent with room. */
    method FirstFit(fs: seq<Extent>, pages: nat) returns (rest: Option<seq<Extent>>)
      ensures rest == match Take(fs, pages) case None => None case Some((_, fs')) => Some(fs')
    {
      for i := 0 to |fs|
        invariant forall k | 0 <= k < i :: fs[k].count < pages
      {
        if fs[i].count >= pages {
          TakeAt(fs, pages, i);
          return Some(if fs[i].count == pages then fs[..i] + fs[i + 1..]
                      else fs[i := Extent(fs[i].start + pages, fs[i].count - pages)]);
        }
      }
      TakeSucceedsIff(fs, pages);
      rest := None;
    }

    // ---- binding and release -----------------------------------------------------

    /** Writes the metadata of a new slot, recycling a released number first. */
    method InstallSlot(id: string, range: Extent, maxTokens: nat) returns (slot: nat)
      modifies this
      ensures slot == if old(freeSlots) != [] then Last(old(freeSlots)) else old(nextSlot)
      ensures Dictionaries() == PublishTables(old(Dictionaries()), slot, id, range, maxTokens)
      ensures book == old(book) && freeExtents == old(freeExtents)
    {
      slot := NextFreeSlot();
      seqToSlot := seqToSlot[id := slot];
      slotToSeq := slotToSeq[slot := id];
      pageRanges := pageRanges[slot := range];
      tailPages := tailPages[slot := range.start];
      tailOffsets := tailOffsets[slot := 0];
      records := records[slot := SlotRecord(slot, 0, 0, 0, maxTokens)];
      turns := turns[slot := []];
    }

    /** The slot released last, or a new one. */
    method NextFreeSlot() returns (slot: nat)
      modifies this`freeSlots, this`nextSlot
      ensures slot == if old(freeSlots) != [] then Last(old(freeSlots)) else old(nextSlot)
      ensures freeSlots == if old(freeSlots) != [] then Init(old(freeSlots)) else old(freeSlots)
      ensures nextSlot == if old(freeSlots) != [] then old(nextSlot) else old(nextSlot) + 1
    {
      if freeSlots != [] {
        slot := Last(freeSlots);
        freeSlots := Init(freeSlots);
      } else {
        slot := nextSlot;
        nextSlot := nextSlot + 1;
      }
    }

    method PublishSlot(id: string, range: Extent, maxTokens: nat) returns (slot: nat)
      requires Described() && NextSlot(book) !in book.entries
      requires id !in seqToSlot && range.count > 0 && range.End() <= pageCount
      modifies this
      ensures Described() && freeExtents == old(freeExtents)
      ensures book == Publish(old(book), id, range, maxTokens) && slot == NextSlot(old(book))
      ensures seqToSlot == old(seqToSlot)[id := slot]
    {
      hide Inv, Agrees;
      ActiveSlots(Dictionaries(), storage[..], book);
      SpanBefore(range.start, 0, pageCount, pageTokens);
      PublishAgrees(Dictionaries(), storage[..], book, id, range, maxTokens);
      slot := InstallSlot(id, range, maxTokens);
      book := Publish(book, id, range, maxTokens);
    }

    /** Reserves the whole page chain of one sequence, or changes nothing. */
    method Bind(id: string, maxTokens: int) returns (slot: Option<nat>)
      requires Valid()
      modifies this
      ensures Valid()
      ensures match TokenBook.Bind(old(book), id, maxTokens)
              case None => slot == None && unchanged(this)
              case Some((b, s)) => slot == Some(s) && book == b
    {
      hide Inv, Agrees;
      ActiveSlots(Dictionaries(), storage[..], book);
      BindFacts(book);
      BoundIffKnown(Dictionaries(), storage[..], book, id);
      if id == "" || id in seqToSlot || maxTokens <= 0 {
        return None;
      }
      var pages := PagesFor(maxTokens, pageTokens);
      PagesForPositive(maxTokens, pageTokens);
      var largest := LargestFreeExtent();
      TakeSucceedsIff(freeExtents, pages);
      if pages > largest {
        return None;
      }
      BindKeepsInv(book, id, maxTokens);
      TakeReserves(freeExtents, pages, pageCount);
      var start := TakeExtent(pages);
      var s := PublishSlot(id, Extent(start.value, pages), maxTokens);
      PublishIgnoresFree(old(book), freeExtents, id, Extent(start.value, pages), maxTokens);
      FreeIsNotDescribed(Dictionaries(), storage[..], book, freeExtents);
      book := book.(free := freeExtents);
      slot := Some(s);
    }

    method DropSlot(slot: nat)
      requires slot in slotToSeq && slot in pageRanges
      modifies this
      ensures Dictionaries() == DropTables(old(Dictionaries()), slot, old(slotToSeq[slot]))
      ensures freeExtents == Return(old(freeExtents), old(pageRanges[slot]))
      ensures book == old(book)
    {
      var id := slotToSeq[slot];
      slotToSeq := slotToSeq - {slot};
      seqToSlot := seqToSlot - {id};
      var range := pageRanges[slot];
      pageRanges := pageRanges - {slot};
      ReturnExtent(range.start, range.count);
      tailPages := tailPages - {slot};
      tailOffsets := tailOffsets - {slot};
      records := records - {slot};
      turns := turns - {slot};
      freeSlots := freeSlots + [slot];
    }

    /** Returns a slot's pages to the pool and its number to the recycling stack. */
    method Release(slot: nat) returns (ok: bool)
      requires Valid()
      modifies this
      ensures Valid()
      ensures match TokenBook.Release(old(book), slot)
              case None => !ok && unchanged(this)
              case Some(b) => ok && book == b
    {
      hide Inv, Agrees;
      ActiveSlots(Dictionaries(), storage[..], book);
      if slot !in records {
        return false;
      }
      ReleaseIsDescribed(Dictionaries(), storage[..], book, slot);
      DropSlot(slot);
      book := TokenBook.Release(book, slot).value;
      ok := true;
    }

    /** Admits a whole candidate batch or nothing of it. */
    method BindBatch(ids: seq<string>, maxTokens: seq<int>) returns (slots: Option<seq<nat>>)
      requires Valid()
      modifies this
      ensures Valid()
      ensures match TokenBook.BindBatch(old(book), ids, maxTokens)
              case None => slots == None && unchanged(this)
              case Some((b, ss)) => slots == Some(ss) && book == b
    {
      if |ids| != |maxTokens| {
        return None;
      }
      var named := NamesAreNew(ids);
      if !named || exists i | 0 <= i < |maxTokens| :: maxTokens[i] <= 0 {
        return None;
      }
      var fits := CanReserveBatch(maxTokens);
      PreflightTakesAll(freeExtents, maxTokens, pageTokens);
      if fits != Some(true) {
        return None;
      }
      BatchIsSequential(book, ids, maxTokens);
      BindAllKeepsInv(book, ids, maxTokens);
      var published := BindChecked(ids, maxTokens);
      slots := Some(published);
    }

    method NamesAreNew(ids: seq<string>) returns (ok: bool)
      requires Valid()
      ensures ok <==> NamesOk(book, ids)
      ensures ok ==> forall i | 0 <= i < |ids| :: ids[i] !in seqToSlot
    {
      var dup := HasDuplicates(ids);
      if dup {
        return false;
      }
      for i := 0 to |ids|
        invariant forall k | 0 <= k < i :: ids[k] != "" && ids[k] !in seqToSlot && !IsBound(book, ids[k])
      {
        BoundIffKnown(Dictionaries(), storage[..], book, ids[i]);
        if ids[i] == "" || ids[i] in seqToSlot {
          return false;
        }
      }
      return true;
    }

    /** Every extent is found before anything is published; publishing cannot fail. */
    method BindChecked(ids: seq<string>, maxTokens: seq<int>) returns (slots: seq<nat>)
      requires Described() && freeExtents == book.free && Canonical(book.free, pageCount)
      requires SlotsPartitioned(book)
      requires |ids| == |maxTokens| && AllPositive(maxTokens) && NamesOk(book, ids)
      requires forall i | 0 <= i < |ids| :: ids[i] !in seqToSlot
      requires TakeAll(book.free, AllPages(maxTokens, pageTokens)).Some?
      modifies this
      ensures Described() && freeExtents == book.free
      ensures TokenBook.BindBatch(old(book), ids, maxTokens) == Some((book, slots))
    {
      ghost var pages := AllPages(maxTokens, pageTokens);
      TakeAllLength(book.free, pages);
      forall i | 0 <= i < |pages| ensures pages[i] > 0 { PagesForPositive(maxTokens[i], pageTokens); }
      TakeAllReserves(book.free, pages, pageCount);
      var ranges := ReserveEach(maxTokens);
      FreeIsNotDescribed(Dictionaries(), storage[..], book, freeExtents);
      book := book.(free := freeExtents);
      slots := PublishEach(ids, ranges, maxTokens);
    }

    method ReserveEach(maxTokens: seq<int>) returns (ranges: seq<Extent>)
      requires pageTokens > 0 && AllPositive(maxTokens)
      requires TakeAll(freeExtents, AllPages(maxTokens, pageTokens)).Some?
      modifies this`freeExtents
      ensures (ranges, freeExtents) == TakeAll(old(freeExtents), AllPages(maxTokens, pageTokens)).value
    {
      ghost var pages := AllPages(maxTokens, pageTokens);
      ghost var goal := TakeAll(freeExtents, pages).value;
      ranges := [];
      for n := 0 to |maxTokens|
        invariant TakeAll(freeExtents, pages[n..]).Some?
        invariant ranges + TakeAll(freeExtents, pages[n..]).value.0 == goal.0
        invariant TakeAll(freeExtents, pages[n..]).value.1 == goal.1
      {
        var need := PagesFor(maxTokens[n], pageTokens);
        assert pages[n..][0] == need && pages[n..][1..] == pages[n + 1..];
        ghost var left := TakeAll(freeExtents, pages[n..]).value.0;
        var start := TakeExtent(need);
        ranges := ranges + [Extent(start.value, need)];
        assert left == [Extent(start.value, need)] + TakeAll(freeExtents, pages[n + 1..]).value.0;
      }
      assert pages[|maxTokens|..] == [] && ranges + [] == ranges;
    }

    method PublishEach(ids: seq<string>, ranges: seq<Extent>, maxTokens: seq<int>) returns (slots: seq<nat>)
      requires Described() && SlotsPartitioned(book)
      requires |ids| == |ranges| == |maxTokens| && AllPositive(maxTokens)
      requires forall i | 0 <= i < |ids| :: ids[i] !in seqToSlot
      requires forall i, j | 0 <= i < j < |ids| :: ids[i] != ids[j]
      requires forall i | 0 <= i < |ranges| :: ranges[i].count > 0 && ranges[i].End() <= pageCount
      modifies this
      ensures Described() && freeExtents == old(freeExtents) && book.free == old(book).free
      ensures (book, slots) == PublishAll(old(book), ids, ranges, maxTokens)
    {
      hide Inv, Agrees;
      ghost var goal := PublishAll(book, ids, ranges, maxTokens);
      slots := [];
      assert maxTokens[0..] == maxTokens && ids[0..] == ids && ranges[0..] == ranges;
      for n := 0 to |ids|
        invariant Described() && SlotsPartitioned(book)
        invariant freeExtents == old(freeExtents) && book.free == old(book).free
        invariant forall i | n <= i < |ids| :: ids[i] !in seqToSlot
        invariant AllPositive(maxTokens[n..])
        invariant PublishAll(book, ids[n..], ranges[n..], maxTokens[n..]).0 == goal.0
        invariant slots + PublishAll(book, ids[n..], ranges[n..], maxTokens[n..]).1 == goal.1
      {
        PublishKeepsSlots(book, ids[n], ranges[n], maxTokens[n], book.free);
        assert book.(free := book.free) == book;
        PublishAllUnfolds(book, ids, ranges, maxTokens, n);
        var slot := PublishSlot(ids[n], ranges[n], maxTokens[n]);
        ghost var tail := PublishAll(book, ids[n + 1..], ranges[n + 1..], maxTokens[n + 1..]).1;
        assert (slots + [slot]) + tail == slots + ([slot] + tail);
        slots := slots + [slot];
      }
      assert ids[|ids|..] == [] && slots + [] == slots;
    }

    // ---- page bytes -----------------------------------------------------------------

    /** Copies a span page by page into a reserved chain. */
    method WriteSpan(slot: nat, start: nat, tokens: seq<Token>)
      requires slot in pageRanges && pageTokens > 0
      requires start + |tokens| <= pageRanges[slot].count * pageTokens
      requires pageRanges[slot].start * pageTokens + pageRanges[slot].count * pageTokens <= storage.Length
      modifies storage
      ensures var at := pageRanges[slot].start * pageTokens + start;
              forall k | 0 <= k < storage.Length ::
                storage[k] == if at <= k < at + |tokens| then tokens[k - at] else old(storage[k])
    {
      ghost var base := pageRanges[slot].start * pageTokens;
      var remaining, sourceOffset, logical := |tokens|, 0, start;
      while remaining > 0
        invariant 0 <= remaining && sourceOffset + remaining == |tokens| && logical == start + sourceOffset
        invariant forall k | 0 <= k < storage.Length ::
                    storage[k] == if base + start <= k < base + logical then tokens[k - base - start]
                                  else old(storage[k])
      {
        var pageIndex, pageOffset := logical / pageTokens, logical % pageTokens;
        var count := Min(remaining, pageTokens - pageOffset);
        var page := (pageRanges[slot].start + pageIndex) * pageTokens;
        PagePosition(pageRanges[slot].start, logical, pageTokens);
        assert page + pageOffset == base + logical;
        forall i | 0 <= i < count {
          storage[page + pageOffset + i] := tokens[sourceOffset + i];
        }
        logical := logical + count;
        sourceOffset := sourceOffset + count;
        remaining := remaining - count;
      }
    }

    /** Reads a span page by page out of a reserved chain. */
    method CopySpan(slot: nat, start: nat, length: nat) returns (output: seq<Token>)
      requires slot in pageRanges && pageTokens > 0
      requires pageRanges[slot].start * pageTokens + start + length <= storage.Length
      ensures var at := pageRanges[slot].start * pageTokens + start;
              output == storage[at..at + length]
    {
      ghost var base := pageRanges[slot].start * pageTokens;
      output := [];
      var remaining, logical := length, start;
      while remaining > 0
        invariant 0 <= remaining && logical + remaining == start + length
        invariant output == storage[base + start..base + logical]
      {
        var pageIndex, pageOffset := logical / pageTokens, logical % pageTokens;
        var count := Min(remaining, pageTokens - pageOffset);
        var page := (pageRanges[slot].start + pageIndex) * pageTokens;
        PagePosition(pageRanges[slot].start, logical, pageTokens);
        output := output + storage[page + pageOffset..page + pageOffset + count];
        logical := logical + count;
        remaining := remaining - count;
      }
    }

    method UpdateTail(slot: nat, length: nat)
      requires slot in pageRanges && pageRanges[slot].count > 0 && pageTokens > 0
      modifies this`tailPages, this`tailOffsets
      ensures var (page, offset) := Tail(pageRanges[slot], pageTokens, length);
              && tailPages == old(tailPages)[slot := page]
              && tailOffsets == old(tailOffsets)[slot := offset]
    {
      var pageIndex, offset := length / pageTokens, length % pageTokens;
      DivBounds(length, pageTokens);
      var range := pageRanges[slot];
      if pageIndex >= range.count {
        pageIndex := range.count - 1;
        offset := pageTokens;
      }
      tailPages := tailPages[slot := range.start + pageIndex];
      tailOffsets := tailOffsets[slot := offset];
    }

    // ---- committing a slot ------------------------------------------------------------

    /** Publishes new lengths, tail and ledger once the bytes are in place. */
    method Commit(slot: nat, record: SlotRecord, ledger: seq<Turn>, ghost t: Trajectory)
      requires Geometry() && freeExtents == book.free
      requires slot in book.entries && slot in pageRanges && pageRanges[slot] == book.entries[slot].range
      requires pageRanges[slot].count > 0
      requires Agrees(SlotTables(Dictionaries(), slot, t, pageRanges[slot], pageTokens), storage[..],
                      SetTrajectory(book, slot, t))
      requires Inv(SetTrajectory(book, slot, t))
      requires record == RecordOf(slot, t) && ledger == t.turns
      modifies this
      ensures Valid() && book == SetTrajectory(old(book), slot, t)
    {
      hide Inv, Agrees;
      SetSlot(slot, record, ledger, t);
      book := SetTrajectory(book, slot, t);
    }

    method SetSlot(slot: nat, record: SlotRecord, ledger: seq<Turn>, ghost t: Trajectory)
      requires slot in pageRanges && pageRanges[slot].count > 0 && pageTokens > 0
      requires record == RecordOf(slot, t) && ledger == t.turns
      modifies this`records, this`tailPages, this`tailOffsets, this`turns
      ensures Dictionaries() == SlotTables(old(Dictionaries()), slot, t, pageRanges[slot], pageTokens)
    {
      records := records[slot := record];
      UpdateTail(slot, record.tokenLength);
      turns := turns[slot := ledger];
    }

    /** Writes `tokens` at `start` and moves the slot to `t`, whose first `start` tokens it already held. */
    method Rewrite(slot: nat, start: nat, tokens: seq<Token>, record: SlotRecord, ledger: seq<Turn>,
                   ghost t: Trajectory)
      requires Valid() && slot in book.entries
      requires t.maxTokens == MaxTokens(book, slot) && Bounded(t)
      requires start <= |book.entries[slot].trajectory.tokens|
      requires t.tokens == book.entries[slot].trajectory.tokens[..start] + tokens
      requires record == RecordOf(slot, t) && ledger == t.turns
      modifies this, storage
      ensures Valid() && book == SetTrajectory(old(book), slot, t)
    {
      hide Inv, Agrees;
      ghost var bytes := storage[..];
      SlotFacts(Dictionaries(), bytes, book, slot);
      WriteSpan(slot, start, tokens);
      WrittenSpan(bytes, storage[..], Base(book, slot), book.entries[slot].trajectory, start, tokens, t);
      UpdateIsDescribed(Dictionaries(), bytes, storage[..], book, slot, t);
      Commit(slot, record, ledger, t);
    }

    // ---- prompts --------------------------------------------------------------------------

    method WritePrompt(slot: nat, prompt: seq<Token>) returns (ok: bool)
      requires Valid()
      modifies this, storage
      ensures Valid()
      ensures match OnSlot(old(book), slot, Op.WritePrompt(prompt))
              case None => !ok && unchanged(this) && unchanged(storage)
              case Some(b) => ok && book == b
      ensures ok <==> slot in old(book).entries && |prompt| <= MaxTokens(old(book), slot)
      ensures ok ==> slot in book.entries && Holds(book.entries[slot].trajectory, Script(prompt, |prompt|))
    {
      hide Inv, Agrees;
      ActiveSlots(Dictionaries(), storage[..], book);
      if slot !in records {
        return false;
      }
      SlotFacts(Dictionaries(), storage[..], book, slot);
      var record, n := records[slot], |prompt|;
      if n > record.maxTokens {
        return false;
      }
      ghost var t := WritePromptOf(book.entries[slot].trajectory, prompt).value;
      Rewrite(slot, 0, prompt, SlotRecord(slot, n, n, 0, record.maxTokens), [Turn(0, 0, n, n, 0)], t);
      ok := true;
    }

    method AppendPrompt(slot: nat, prompt: seq<Token>) returns (turn: Option<Turn>)
      requires Valid()
      modifies this, storage
      ensures Valid()
      ensures match OnSlot(old(book), slot, Op.AppendPrompt(prompt))
              case None => turn == None && unchanged(this) && unchanged(storage)
              case Some(b) => book == b && slot in turns && turns[slot] != [] && turn == Some(Last(turns[slot]))
      ensures turn.Some? <==> && slot in old(book).entries
                              && |old(book).entries[slot].trajectory.tokens| + |prompt| <= MaxTokens(old(book), slot)
      ensures turn.Some? ==> var all := old(book).entries[slot].trajectory.tokens + prompt;
                             slot in book.entries && Holds(book.entries[slot].trajectory, Script(all, |all|))
    {
      hide Inv, Agrees;
      ActiveSlots(Dictionaries(), storage[..], book);
      if slot !in records {
        return None;
      }
      SlotFacts(Dictionaries(), storage[..], book, slot);
      var record := records[slot];
      var promptStart := record.tokenLength;
      var length := promptStart + |prompt|;
      if length > record.maxTokens {
        return None;
      }
      ghost var before := book.entries[slot].trajectory;
      assert before.tokens[..promptStart] == before.tokens;
      var added := Turn(|turns[slot]|, promptStart, |prompt|, length, 0);
      Rewrite(slot, promptStart, prompt,
              SlotRecord(slot, length, length, record.decodedLength, record.maxTokens),
              turns[slot] + [added], AppendPromptOf(before, prompt).value);
      SlotFacts(Dictionaries(), storage[..], book, slot);
      turn := Some(added);
    }

    /** Reinstalls a migrated trajectory after checking its ledger. */
    method Restore(slot: nat, tokens: seq<Token>, promptLength: int, decodedLength: int,
                   ledger: Option<seq<Turn>>) returns (ok: bool)
      requires Valid()
      modifies this, storage
      ensures Valid()
      ensures ok <==> slot in old(book).entries
                      && RestoreOf(old(book).entries[slot].trajectory, tokens, promptLength, decodedLength, ledger).Some?
      ensures !ok ==> unchanged(this) && unchanged(storage)
      ensures ok ==>
                book == SetTrajectory(old(book), slot,
                  RestoreOf(old(book).entries[slot].trajectory, tokens, promptLength, decodedLength, ledger).value)
    {
      hide Inv, Agrees;
      ActiveSlots(Dictionaries(), storage[..], book);
      if slot !in records {
        return false;
      }
      SlotFacts(Dictionaries(), storage[..], book, slot);
      var record := records[slot];
      if promptLength < 0 || decodedLength < 0 || promptLength > |tokens| || |tokens| > record.maxTokens {
        return false;
      }
      var installed: seq<Turn>;
      if ledger.None? {
        if |tokens| - promptLength != decodedLength {
          return false;
        }
        installed := [Turn(0, 0, promptLength, promptLength, |tokens| - promptLength)];
      } else {
        var valid := ValidateTurns(ledger.value, |tokens|, decodedLength);
        if !valid {
          return false;
        }
        installed := ledger.value;
      }
      ghost var t := Trajectory(tokens, promptLength, decodedLength, record.maxTokens, installed);
      Rewrite(slot, 0, tokens, SlotRecord(slot, promptLength, |tokens|, decodedLength, record.maxTokens), installed, t);
      ok := true;
    }

    // ---- boundaries that move no token ----------------------------------------------------

    method SetLedger(slot: nat, record: SlotRecord, ledger: seq<Turn>, ghost t: Trajectory)
      requires Valid() && slot in book.entries && Bounded(t)
      requires t.maxTokens == MaxTokens(book, slot) && t.tokens == book.entries[slot].trajectory.tokens
      requires record == RecordOf(slot, t) && ledger == t.turns
      modifies this`records, this`turns, this`book
      ensures Valid() && book == SetTrajectory(old(book), slot, t)
    {
      hide Inv, Agrees;
      ghost var bytes := storage[..];
      SlotFacts(Dictionaries(), bytes, book, slot);
      UpdateIsDescribed(Dictionaries(), bytes, bytes, book, slot, t);
      SameTail(Dictionaries(), bytes, book, slot, t);
      records := records[slot := record];
      turns := turns[slot := ledger];
      book := SetTrajectory(book, slot, t);
    }

    /** Records a re-entry over an existing prefix; repeating it before the next token adds no turn. */
    method BeginReentryTurn(slot: nat, promptLength: int) returns (turn: Option<Turn>)
      requires Valid()
      modifies this
      ensures Valid()
      ensures match OnSlot(old(book), slot, BeginReentry(promptLength))
              case None => turn == None && unchanged(this)
              case Some(b) => book == b && slot in turns && turns[slot] != [] && turn == Some(Last(turns[slot]))
    {
      hide Inv, Agrees;
      ActiveSlots(Dictionaries(), storage[..], book);
      if slot !in records {
        return None;
      }
      SlotFacts(Dictionaries(), storage[..], book, slot);
      var record, ledger := records[slot], turns[slot];
      if promptLength < 0 || promptLength > record.tokenLength {
        return None;
      }
      ghost var t := BeginReentryOf(book.entries[slot].trajectory, promptLength).value;
      var record' := SlotRecord(slot, promptLength, record.tokenLength, record.decodedLength, record.maxTokens);
      var added: Turn;
      if ledger != [] && Last(ledger).generatedLength == 0 && Last(ledger).generatedStart == record.tokenLength {
        added := Turn(Last(ledger).turnId, 0, promptLength, record.tokenLength, 0);
        ledger := ledger[|ledger| - 1 := added];
      } else {
        added := Turn(|ledger|, 0, promptLength, record.tokenLength, 0);
        ledger := ledger + [added];
      }
      assert ledger == t.turns;
      SetLedger(slot, record', ledger, t);
      SlotFacts(Dictionaries(), storage[..], book, slot);
      turn := Some(added);
    }

    method SetPromptLength(slot: nat, promptLength: int) returns (ok: bool)
      requires Valid()
      modifies this
      ensures Valid()
      ensures match OnSlot(old(book), slot, Op.SetPromptLength(promptLength))
              case None => !ok && unchanged(this)
              case Some(b) => ok && book == b
    {
      hide Inv, Agrees;
      ActiveSlots(Dictionaries(), storage[..], book);
      if slot !in records {
        return false;
      }
      SlotFacts(Dictionaries(), storage[..], book, slot);
      var record := records[slot];
      if promptLength < 0 || promptLength > record.tokenLength {
        return false;
      }
      ghost var t := SetPromptLengthOf(book.entries[slot].trajectory, promptLength).value;
      SetLedger(slot, SlotRecord(slot, promptLength, record.tokenLength, record.decodedLength, record.maxTokens),
                turns[slot], t);
      ok := true;
    }

    // ---- mirrors --------------------------------------------------------------------------

    /** The bytes of a slot's chain that another rank may have written. */
    ghost function Shared(slot: nat, length: nat): seq<Token>
      requires slot in book.entries && Base(book, slot) + length <= storage.Length
      reads this, storage
    {
      storage[Base(book, slot)..Base(book, slot) + length]
    }

    method SynchronizeMetadata(slot: nat, promptLength: int, tokenLength: int, decodedLength: int)
      returns (ok: bool)
      requires Valid()
      modifies this
      ensures Valid()
      ensures !ok ==> unchanged(this)
      ensures slot in old(book).entries && 0 <= tokenLength <= MaxTokens(old(book), slot) ==>
                Base(old(book), slot) + tokenLength <= storage.Length
      ensures if slot in old(book).entries && 0 <= tokenLength <= MaxTokens(old(book), slot)
              then var t := SynchronizeOf(old(book).entries[slot].trajectory, promptLength,
                                          old(Shared(slot, tokenLength)), decodedLength);
                   ok == t.Some? && (ok ==> book == SetTrajectory(old(book), slot, t.value))
              else !ok
    {
      hide Inv, Agrees;
      ActiveSlots(Dictionaries(), storage[..], book);
      if slot !in records {
        return false;
      }
      SlotFacts(Dictionaries(), storage[..], book, slot);
      if promptLength < 0 || tokenLength < 0 || decodedLength < 0 || promptLength > tokenLength
         || tokenLength > records[slot].maxTokens {
        return false;
      }
      var record := records[slot];
      var ledger := SyncLedger(turns[slot], promptLength, tokenLength, decodedLength);
      if ledger.None? {
        return false;
      }
      ghost var t := Trajectory(Shared(slot, tokenLength), promptLength, decodedLength, record.maxTokens, ledger.value);
      UpdateIsDescribed(Dictionaries(), storage[..], storage[..], book, slot, t);
      Commit(slot, SlotRecord(slot, promptLength, tokenLength, decodedLength, record.maxTokens), ledger.value, t);
      ok := true;
    }

    /** Charges what the owner decoded to the last turn, or opens the first turn of a slot never decoded here. */
    method SyncLedger(ledger: seq<Turn>, promptLength: nat, tokenLength: nat, decodedLength: nat)
      returns (r: Option<seq<Turn>>)
      ensures r == SyncedTurns(ledger, promptLength, tokenLength, decodedLength)
    {
      if ledger != [] {
        var before := SumGenerated(Init(ledger));
        if decodedLength - before < 0 {
          return None;
        }
        r := Some(ledger[|ledger| - 1 := Last(ledger).(generatedLength := decodedLength - before)]);
        assert r.value == Init(ledger) + [Last(r.value)];
      } else if tokenLength != 0 || decodedLength != 0 {
        if tokenLength - promptLength != decodedLength {
          return None;
        }
        r := Some([Turn(0, 0, promptLength, promptLength, tokenLength - promptLength)]);
      } else {
        r := Some([]);
      }
    }

    method SumGenerated(ledger: seq<Turn>) returns (sum: int)
      ensures sum == GeneratedTotal(ledger)
    {
      sum := 0;
      for i := 0 to |ledger|
        invariant sum == GeneratedTotal(ledger[..i])
      {
        assert Init(ledger[..i + 1]) == ledger[..i];
        sum := sum + ledger[i].generatedLength;
      }
      assert ledger[..|ledger|] == ledger;
    }

    // ---- sampled tokens -------------------------------------------------------------------

    /** Counts a token that is already stored at the slot's tail. */
    method Advance(slot: nat, ghost token: Token)
      requires Valid() && HasRoom(book, slot)
      requires var at := Base(book, slot) + |book.entries[slot].trajectory.tokens|;
               at < storage.Length && storage[at] == token
      modifies this
      ensures Valid() && OnSlot(old(book), slot, Op.AppendToken(token)) == Some(book)
    {
      hide Inv, Agrees;
      ActiveSlots(Dictionaries(), storage[..], book);
      SlotFacts(Dictionaries(), storage[..], book, slot);
      var record := records[slot];
      var index := record.tokenLength;
      ghost var t := AppendTokenOf(book.entries[slot].trajectory, token).value;
      var record' := SlotRecord(slot, record.promptLength, index + 1, record.decodedLength + 1, record.maxTokens);
      var ledger := turns[slot];
      if ledger == [] {
        ledger := [Turn(0, 0, record.promptLength, index, 0)];
      }
      ledger := ledger[|ledger| - 1 := Last(ledger).(generatedLength := Last(ledger).generatedLength + 1)];
      assert ledger == t.turns;
      OneMore(storage[..], Base(book, slot), book.entries[slot].trajectory.tokens, token);
      UpdateIsDescribed(Dictionaries(), storage[..], storage[..], book, slot, t);
      Commit(slot, record', ledger, t);
    }

    method AppendToken(slot: nat, token: Token) returns (index: Option<nat>)
      requires Valid()
      modifies this, storage
      ensures Valid()
      ensures match OnSlot(old(book), slot, Op.AppendToken(token))
              case None => index == None && unchanged(this) && unchanged(storage)
              case Some(b) =>
                && book == b && slot in old(book).entries
                && index == Some(|old(book).entries[slot].trajectory.tokens|)
                && forall k | 0 <= k < storage.Length ::
                     storage[k] == if k == Base(old(book), slot) + index.value then token else old(storage[k])
    {
      hide Inv, Agrees;
      ActiveSlots(Dictionaries(), storage[..], book);
      if slot !in records {
        return None;
      }
      ghost var bytes := storage[..];
      SlotFacts(Dictionaries(), bytes, book, slot);
      var at := records[slot].tokenLength;
      if at + 1 > records[slot].maxTokens {
        return None;
      }
      var position := tailPages[slot] * pageTokens + tailOffsets[slot];
      TailIsSpare(book, slot);
      storage[position] := token;
      SpareBytes(Dictionaries(), bytes, storage[..], book);
      Advance(slot, token);
      index := Some(at);
    }

    /**
     One decode microbatch: every row is validated, all tokens go out in one
     vectorised write through the cached tails, then the rows are counted.
     */
    method AppendTokens(slots: seq<nat>, tokens: seq<Token>) returns (ok: bool)
      requires Valid()
      modifies this, storage
      ensures Valid()
      ensures ok <==> && |slots| == |tokens| && (forall i, j | 0 <= i < j < |slots| :: slots[i] != slots[j])
                      && (forall i | 0 <= i < |slots| :: HasRoom(old(book), slots[i]))
      ensures !ok ==> unchanged(this) && unchanged(storage)
      ensures ok ==> OnEach(old(book), slots, AppendOps(tokens)) == Some(book)
      ensures forall k | 0 <= k < storage.Length && !AtSomeTail(old(book), slots, k) :: storage[k] == old(storage[k])
    {
      hide Inv, Agrees;
      if |slots| != |tokens| {
        return false;
      }
      var dup := HasDuplicates(slots);
      if dup {
        return false;
      }
      if slots == [] {
        return true;
      }
      var positions := TailPositions(slots);
      if positions.None? {
        return false;
      }
      WriteTails(slots, tokens, positions.value);
      CountEach(slots, tokens, positions.value);
      ok := true;
    }

    method TailPositions(slots: seq<nat>) returns (positions: Option<seq<nat>>)
      requires Valid()
      ensures positions.Some? <==> forall i | 0 <= i < |slots| :: HasRoom(book, slots[i])
      ensures positions.Some? ==> AtTails(book, slots, positions.value, storage.Length)
    {
      hide Inv, Agrees;
      ActiveSlots(Dictionaries(), storage[..], book);
      var found: seq<nat> := [];
      for i := 0 to |slots|
        invariant forall k | 0 <= k < i :: HasRoom(book, slots[k])
        invariant AtTails(book, slots[..i], found, storage.Length)
      {
        var slot := slots[i];
        if slot !in records {
          return None;
        }
        SlotFacts(Dictionaries(), storage[..], book, slot);
        if records[slot].tokenLength + 1 > records[slot].maxTokens {
          return None;
        }
        found := found + [tailPages[slot] * pageTokens + tailOffsets[slot]];
      }
      assert slots[..|slots|] == slots;
      positions := Some(found);
    }

    method WriteTails(slots: seq<nat>, tokens: seq<Token>, positions: seq<nat>)
      requires Valid() && |slots| == |tokens|
      requires AtTails(book, slots, positions, storage.Length)
      requires forall i, j | 0 <= i < j < |slots| :: slots[i] != slots[j]
      modifies storage
      ensures Valid()
      ensures forall i | 0 <= i < |slots| :: storage[positions[i]] == tokens[i]
      ensures forall k | 0 <= k < storage.Length && !AtSomeTail(book, slots, k) :: storage[k] == old(storage[k])
    {
      hide Inv, Agrees;
      ghost var bytes := storage[..];
      TailsDistinct(book, slots, positions, storage.Length);
      forall i | 0 <= i < |positions| {
        storage[positions[i]] := tokens[i];
      }
      SpareBytes(Dictionaries(), bytes, storage[..], book);
    }

    method CountEach(slots: seq<nat>, ghost tokens: seq<Token>, ghost positions: seq<nat>)
      requires Valid() && |slots| == |tokens|
      requires AtTails(book, slots, positions, storage.Length)
      requires forall i, j | 0 <= i < j < |slots| :: slots[i] != slots[j]
      requires forall i | 0 <= i < |slots| :: storage[positions[i]] == tokens[i]
      modifies this
      ensures Valid() && OnEach(old(book), slots, AppendOps(tokens)) == Some(book)
    {
      hide Inv, Agrees;
      ghost var ops, start := AppendOps(tokens), book;
      for n := 0 to |slots|
        invariant Valid() && OnEach(start, slots[..n], ops[..n]) == Some(book)
      {
        CountStep(start, book, slots, tokens, positions, storage.Length, n);
        Advance(slots[n], tokens[n]);
      }
      assert slots[..|slots|] == slots && ops[..|slots|] == ops;
    }

    /** Writes a batch of prompts after every row has been checked. */
    method WritePrompts(slots: seq<nat>, prompts: seq<seq<Token>>) returns (ok: bool)
      requires Valid()
      modifies this, storage
      ensures Valid()
      ensures ok <==> && |slots| == |prompts| && (forall i, j | 0 <= i < j < |slots| :: slots[i] != slots[j])
                      && (forall i | 0 <= i < |slots| ::
                            slots[i] in old(book).entries && |prompts[i]| <= MaxTokens(old(book), slots[i]))
      ensures !ok ==> unchanged(this) && unchanged(storage)
      ensures ok ==> OnEach(old(book), slots, PromptOps(prompts)) == Some(book)
      ensures ok ==> forall i | 0 <= i < |slots| ::
                       && slots[i] in book.entries
                       && Holds(book.entries[slots[i]].trajectory, Script(prompts[i], |prompts[i]|))
    {
      hide Inv, Agrees;
      if |slots| != |prompts| {
        return false;
      }
      var dup := HasDuplicates(slots);
      if dup {
        return false;
      }
      var fit := PromptsFit(slots, prompts);
      if !fit {
        return false;
      }
      PromptsHeld(book, slots, prompts);
      WriteEach(slots, prompts);
      ok := true;
    }

    method PromptsFit(slots: seq<nat>, prompts: seq<seq<Token>>) returns (ok: bool)
      requires Valid() && |slots| == |prompts|
      ensures ok <==> forall i | 0 <= i < |slots| :: Accepts(book, slots[i], Op.WritePrompt(prompts[i]))
      ensures ok <==> forall i | 0 <= i < |slots| ::
                        slots[i] in book.entries && |prompts[i]| <= MaxTokens(book, slots[i])
    {
      hide Inv, Agrees;
      ActiveSlots(Dictionaries(), storage[..], book);
      for i := 0 to |slots|
        invariant forall k | 0 <= k < i :: Accepts(book, slots[k], Op.WritePrompt(prompts[k]))
      {
        if slots[i] !in records {
          return false;
        }
        SlotFacts(Dictionaries(), storage[..], book, slots[i]);
        if |prompts[i]| > records[slots[i]].maxTokens {
          return false;
        }
      }
      ok := true;
    }

    method WriteEach(slots: seq<nat>, prompts: seq<seq<Token>>)
      requires Valid() && |slots| == |prompts|
      requires forall i, j | 0 <= i < j < |slots| :: slots[i] != slots[j]
      requires forall i | 0 <= i < |slots| :: Accepts(book, slots[i], Op.WritePrompt(prompts[i]))
      modifies this, storage
      ensures Valid() && OnEach(old(book), slots, PromptOps(prompts)) == Some(book)
    {
      hide Inv, Agrees;
      ghost var ops := PromptOps(prompts);
      forall i | 0 <= i < |slots|
        ensures Accepts(book, slots[i], ops[i])
      {
        assert Accepts(book, slots[i], Op.WritePrompt(prompts[i]));
      }
      for n := 0 to |slots|
        invariant Valid() && OnEach(old(book), slots[..n], ops[..n]) == Some(book)
      {
        OnEachStep(old(book), slots, ops, n);
        assert Accepts(old(book), slots[n], ops[n]);
        var done := WritePrompt(slots[n], prompts[n]);
      }
      assert slots[..|slots|] == slots && ops[..|slots|] == ops;
    }

    // ---- reading -------------------------------------------------------------------------

    /** Materialises a prefix of a slot's trajectory. */
    method Tokens(slot: nat, length: Option<int>) returns (r: Option<seq<Token>>)
      requires Valid()
      ensures r == if slot !in book.entries then None
                   else
                     var tokens := book.entries[slot].trajectory.tokens;
                     if length.None? then Some(tokens)
                     else if 0 <= length.value <= |tokens| then Some(tokens[..length.value]) else None
    {
      hide Inv, Agrees;
      ActiveSlots(Dictionaries(), storage[..], book);
      if slot !in records {
        return None;
      }
      SlotFacts(Dictionaries(), storage[..], book, slot);
      var valid := records[slot].tokenLength;
      var n := if length.None? then valid else length.value;
      if n < 0 || n > valid {
        return None;
      }
      var output := CopySpan(slot, 0, n);
      SubSlice(storage[..], Base(book, slot), book.entries[slot].trajectory.tokens, 0, n);
      r := Some(output);
    }

    /** Materialises the generated spans of the ledger, leaving later prompts out. */
    method GeneratedTokens(slot: nat) returns (r: Option<seq<Token>>)
      requires Valid() && (slot in book.entries ==> SpansForward(book.entries[slot].trajectory.turns))
      ensures slot !in book.entries ==> r == None
      ensures slot in book.entries ==>
                var t := book.entries[slot].trajectory;
                && r == ReadSpans(storage[..], Base(book, slot), t.turns)
                && (SpansWithin(t.turns, |t.tokens|) ==> r == Some(Generated(t.tokens, t.turns)))
    {
      hide Inv, Agrees;
      ActiveSlots(Dictionaries(), storage[..], book);
      if slot !in records {
        return None;
      }
      SlotFacts(Dictionaries(), storage[..], book, slot);
      ghost var bytes, base, t := storage[..], Base(book, slot), book.entries[slot].trajectory;
      if SpansWithin(t.turns, |t.tokens|) { ReadSpansIsGenerated(bytes, base, t.tokens, t.turns); }
      r := ReadLedger(slot, turns[slot]);
    }

    /** Copies the spans one after another. */
    method ReadLedger(slot: nat, ledger: seq<Turn>) returns (r: Option<seq<Token>>)
      requires slot in pageRanges && pageTokens > 0 && SpansForward(ledger)
      ensures r == ReadSpans(storage[..], pageRanges[slot].start * pageTokens, ledger)
    {
      ghost var bytes := storage[..];
      var base := pageRanges[slot].start * pageTokens;
      r := Some([]);
      for i := 0 to |ledger|
        invariant r == ReadSpans(bytes, base, ledger[..i])
      {
        assert Init(ledger[..i + 1]) == ledger[..i] && Last(ledger[..i + 1]) == ledger[i];
        var turn := ledger[i];
        if turn.generatedLength != 0 && r.Some? {
          if base + turn.GeneratedEnd() > storage.Length {
            r := None;
          } else {
            var span := CopySpan(slot, turn.generatedStart, turn.generatedLength);
            r := Some(r.value + span);
          }
        }
      }
      assert ledger[..|ledger|] == ledger;
    }

    /** The token the next decode step is fed with, found through the ledger. */
    method LastGeneratedToken(slot: nat) returns (r: Option<Token>)
      requires Valid() && (slot in book.entries ==> SpansForward(book.entries[slot].trajectory.turns))
      ensures slot !in book.entries ==> r == None
      ensures slot in book.entries ==>
                var t := book.entries[slot].trajectory;
                && t.promptLength <= |t.tokens|
                && r == ReadLast(storage[..], Base(book, slot), t.turns, t.promptLength)
                && (SpansWithin(t.turns, |t.tokens|) ==> r == LastGenerated(t, |t.turns|))
    {
      hide Inv, Agrees;
      ActiveSlots(Dictionaries(), storage[..], book);
      if slot !in records {
        return None;
      }
      SlotFacts(Dictionaries(), storage[..], book, slot);
      ghost var bytes, base, t := storage[..], Base(book, slot), book.entries[slot].trajectory;
      assert t.turns[..|t.turns|] == t.turns;
      if SpansWithin(t.turns, |t.tokens|) { ReadLastIsLastGenerated(bytes, base, t, |t.turns|); }
      r := ReadBackwards(slot, turns[slot], records[slot].promptLength);
    }

    method ReadBackwards(slot: nat, ledger: seq<Turn>, promptLength: nat) returns (r: Option<Token>)
      requires slot in pageRanges && pageTokens > 0 && SpansForward(ledger)
      ensures r == ReadLast(storage[..], pageRanges[slot].start * pageTokens, ledger, promptLength)
    {
      ghost var bytes := storage[..];
      var base, k, at := pageRanges[slot].start * pageTokens, |ledger|, promptLength;
      assert ledger[..k] == ledger;
      while k > 0
        invariant 0 <= k <= |ledger| && at == promptLength
        invariant ReadLast(bytes, base, ledger[..k], promptLength) == ReadLast(bytes, base, ledger, promptLength)
      {
        assert Init(ledger[..k]) == ledger[..k - 1] && Last(ledger[..k]) == ledger[k - 1];
        if ledger[k - 1].generatedLength != 0 {
          at := ledger[k - 1].GeneratedEnd();
          break;
        }
        k := k - 1;
      }
      if at == 0 || base + at > storage.Length {
        return None;
      }
      var span := CopySpan(slot, at - 1, 1);
      r := Some(span[0]);
    }
  }

  /** Two prompts written to a slot are what is read back, whatever it held before. */
  method PromptsReadBack(qb: QueryBook, slot: nat, first: seq<Token>, second: seq<Token>) returns (r: Option<seq<Token>>)
    requires qb.Valid()
    modifies qb, qb.storage
    ensures qb.Valid()
    ensures slot in old(qb.book).entries && |first| + |second| <= MaxTokens(old(qb.book), slot) ==>
              && r == Some(first + second)
              && slot in qb.records && qb.records[slot].promptLength == qb.records[slot].tokenLength == |first| + |second|
    ensures slot in old(qb.book).entries && |first| <= MaxTokens(old(qb.book), slot) < |first| + |second| ==> r == Some(first)
    ensures slot !in old(qb.book).entries ==> r == None
  {
    hide Inv, Agrees;
    var ok := qb.WritePrompt(slot, first);
    var turn := qb.AppendPrompt(slot, second);
    r := qb.Tokens(slot, None);
    if slot in qb.book.entries { SlotFacts(qb.Dictionaries(), qb.storage[..], qb.book, slot); }
  }

  /** Opening a book: the arguments the constructor takes are the ones not refused here. */
  predicate Openable(capacityBytes: int, pageTokens: int, storage: Option<nat>) {
    && capacityBytes > 0 && pageTokens > 0
    && capacityBytes >= pageTokens * TOKEN_BYTES
    && (storage.Some? ==> storage.value == capacityBytes / (pageTokens * TOKEN_BYTES) * pageTokens)
  }

  method Open(capacityBytes: int, pageTokens: int, storage: Option<array<Token>>) returns (r: Option<QueryBook>)
    ensures r.Some? <==> Openable(capacityBytes, pageTokens, if storage.Some? then Some(storage.value.Length) else None)
    ensures r.Some? ==>
              && fresh(r.value) && r.value.Valid()
              && (if storage.Some? then r.value.storage == storage.value else fresh(r.value.storage))
              && r.value.book == EmptyBook(pageTokens, capacityBytes / (pageTokens * TOKEN_BYTES))
  {
    if capacityBytes <= 0 || pageTokens <= 0 || capacityBytes < pageTokens * TOKEN_BYTES {
      return None;
    }
    var tokens := capacityBytes / (pageTokens * TOKEN_BYTES) * pageTokens;
    var pages: array<Token>;
    if storage.Some? {
      if storage.value.Length != tokens {
        return None;
      }
      pages := storage.value;
    } else {
      pages := new Token[tokens];
    }
    var book := new QueryBook(capacityBytes, pageTokens, pages);
    r := Some(book);
  }

  method HasDuplicates<T(==)>(xs: seq<T>) returns (dup: bool)
    ensures dup <==> exists i, j | 0 <= i < j < |xs| :: xs[i] == xs[j]
  {
    var seen: set<T> := {};
    for n := 0 to |xs|
      invariant forall x :: x in seen <==> x in xs[..n]
      invariant forall i, j | 0 <= i < j < n :: xs[i] != xs[j]
    {
      if xs[n] in seen {
        assert xs[n] in xs[..n];
        return true;
      }
      seen := seen + {xs[n]};
    }
    return false;
  }

  function AppendOps(tokens: seq<Token>): seq<Op> {
    seq(|tokens|, i requires 0 <= i < |tokens| => Op.AppendToken(tokens[i]))
  }

  function PromptOps(prompts: seq<seq<Token>>): seq<Op> {
    seq(|prompts|, i requires 0 <= i < |prompts| => Op.WritePrompt(prompts[i]))
  }

  lemma PromptsHeld(b: Book, slots: seq<nat>, prompts: seq<seq<Token>>)
    requires Inv(b) && |slots| == |prompts|
    requires forall i, j | 0 <= i < j < |slots| :: slots[i] != slots[j]
    requires forall i | 0 <= i < |slots| :: Accepts(b, slots[i], Op.WritePrompt(prompts[i]))
    ensures OnEach(b, slots, PromptOps(prompts)).Some?
    ensures forall i | 0 <= i < |slots| ::
              && slots[i] in OnEach(b, slots, PromptOps(prompts)).value.entries
              && Holds(OnEach(b, slots, PromptOps(prompts)).value.entries[slots[i]].trajectory, Script(prompts[i], |prompts[i]|))
  {
    hide Inv, OnEach;
    var ops := PromptOps(prompts);
    forall i | 0 <= i < |slots| ensures Accepts(b, slots[i], ops[i]) {
      assert Accepts(b, slots[i], Op.WritePrompt(prompts[i]));
    }
    OnEachKeeps(b, slots, ops);
    forall i | 0 <= i < |slots|
      ensures slots[i] in OnEach(b, slots, ops).value.entries
              && Holds(OnEach(b, slots, ops).value.entries[slots[i]].trajectory, Script(prompts[i], |prompts[i]|))
    {
      OnEachAt(b, slots, ops, i);
    }
  }

  /** Each position is where its slot's next token goes. */
  ghost predicate AtTails(b: Book, slots: seq<nat>, positions: seq<nat>, size: nat) {
    && |slots| == |positions|
    && (forall i | 0 <= i < |slots| ::
          && HasRoom(b, slots[i]) && positions[i] < size
          && positions[i] == Base(b, slots[i]) + |b.entries[slots[i]].trajectory.tokens|)
  }

  /** The position the next token of one of these slots goes to. */
  ghost predicate AtSomeTail(b: Book, slots: seq<nat>, k: int) {
    exists i | 0 <= i < |slots| :: slots[i] in b.entries && k == Base(b, slots[i]) + |b.entries[slots[i]].trajectory.tokens|
  }

  /** Different slots append to different positions, and to no position in use. */
  lemma TailsDistinct(b: Book, slots: seq<nat>, positions: seq<nat>, size: nat)
    requires Inv(b) && AtTails(b, slots, positions, size)
    requires forall i, j | 0 <= i < j < |slots| :: slots[i] != slots[j]
    ensures forall i, j | 0 <= i < j < |slots| :: positions[i] != positions[j]
    ensures forall i | 0 <= i < |slots| :: !InUse(b, positions[i])
  {
    forall i | 0 <= i < |slots|
      ensures !InUse(b, positions[i])
    {
      TailIsSpare(b, slots[i]);
    }
    forall i, j | 0 <= i < j < |slots|
      ensures positions[i] != positions[j]
    {
      assert slots[i] != slots[j];
      assert EntryOk(b, b.entries[slots[i]]) && EntryOk(b, b.entries[slots[j]]);
      RangesApart(b, slots[i], slots[j]);
    }
  }

  lemma CountStep(start: Book, mid: Book, slots: seq<nat>, tokens: seq<Token>, positions: seq<nat>, size: nat, n: nat)
    requires Inv(start) && AtTails(start, slots, positions, size) && |slots| == |tokens| && n < |slots|
    requires forall i, j | 0 <= i < j < |slots| :: slots[i] != slots[j]
    requires OnEach(start, slots[..n], AppendOps(tokens)[..n]) == Some(mid)
    ensures HasRoom(mid, slots[n])
    ensures Base(mid, slots[n]) + |mid.entries[slots[n]].trajectory.tokens| == positions[n] < size
    ensures OnEach(start, slots[..n + 1], AppendOps(tokens)[..n + 1]) == OnSlot(mid, slots[n], Op.AppendToken(tokens[n]))
  {
    var ops := AppendOps(tokens);
    forall i | 0 <= i < |slots|
      ensures Accepts(start, slots[i], ops[i])
    {
      assert HasRoom(start, slots[i]);
    }
    OnEachStep(start, slots, ops, n);
    assert HasRoom(start, slots[n]);
  }

  lemma OneMore(bytes: seq<Token>, base: nat, tokens: seq<Token>, token: Token)
    requires HoldsAt(bytes, base, tokens) && base + |tokens| < |bytes| && bytes[base + |tokens|] == token
    ensures HoldsAt(bytes, base, tokens + [token])
  {
  }

  lemma WrittenSpan(bytes: seq<Token>, bytes': seq<Token>, base: nat, before: Trajectory, start: nat,
                    tokens: seq<Token>, t: Trajectory)
    requires HoldsAt(bytes, base, before.tokens) && start <= |before.tokens|
    requires t.tokens == before.tokens[..start] + tokens && |t.tokens| <= t.maxTokens
    requires |bytes'| == |bytes| && base + t.maxTokens <= |bytes|
    requires forall k | 0 <= k < |bytes| ::
               bytes'[k] == if base + start <= k < base + start + |tokens| then tokens[k - base - start] else bytes[k]
    ensures OnlyWithin(bytes, bytes', base, t.maxTokens) && HoldsAt(bytes', base, t.tokens)
  {
    forall k | 0 <= k < |t.tokens|
      ensures bytes'[base..base + |t.tokens|][k] == t.tokens[k]
    {
      if k < start { assert bytes[base..base + |before.tokens|][k] == before.tokens[k]; }
    }
  }

  /** Page index and offset of a logical position, as a flat storage position. */
  lemma PagePosition(first: nat, logical: nat, k: nat)
    requires k > 0
    ensures (first + logical / k) * k + logical % k == first * k + logical
    ensures 0 <= logical % k < k
  {
    DivBounds(logical, k);
    assert (first + logical / k) * k == first * k + (logical / k) * k;
  }

  lemma FreeIsNotDescribed(d: Tables, bytes: seq<Token>, b: Book, free: seq<Extent>)
    requires Agrees(d, bytes, b)
    ensures Agrees(d, bytes, b.(free := free))
  {
    var b' := b.(free := free);
    forall s | s in b'.entries
      ensures SlotAgrees(d, bytes, s, b'.entries[s], b'.pageTokens)
    {
      assert SlotAgrees(d, bytes, s, b.entries[s], b.pageTokens);
    }
  }

  lemma PublishAllUnfolds(b: Book, ids: seq<string>, ranges: seq<Extent>, maxTokens: seq<int>, n: nat)
    requires |ids| == |ranges| == |maxTokens| && AllPositive(maxTokens) && n < |ids|
    requires AllPositive(maxTokens[n..])
    ensures AllPositive(maxTokens[n + 1..])
    ensures var (b', slots) := PublishAll(Publish(b, ids[n], ranges[n], maxTokens[n]),
                                          ids[n + 1..], ranges[n + 1..], maxTokens[n + 1..]);
            PublishAll(b, ids[n..], ranges[n..], maxTokens[n..]) == (b', [NextSlot(b)] + slots)
  {
    assert ids[n..][1..] == ids[n + 1..] && ranges[n..][1..] == ranges[n + 1..];
    assert maxTokens[n..][1..] == maxTokens[n + 1..];
  }
}
