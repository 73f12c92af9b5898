/**
 The QueryBook's dictionaries and page bytes as values, and what it means for
 them to describe an abstract book.
 */
module BookTables {
  import opened Options
  import opened Arith
  import opened Extents
  import opened TurnLedger
  import opened TokenBook

  datatype SlotRecord = SlotRecord(
    slot: nat, promptLength: nat, tokenLength: nat, decodedLength: nat, maxTokens: nat)

  datatype Tables = Tables(
    records: map<nat, SlotRecord>, turns: map<nat, seq<Turn>>, pageRanges: map<nat, Extent>,
    tailPages: map<nat, nat>, tailOffsets: map<nat, nat>,
    seqToSlot: map<string, nat>, slotToSeq: map<nat, string>, freeSlots: seq<nat>, nextSlot: nat)

  function RecordOf(slot: nat, t: Trajectory): SlotRecord {
    SlotRecord(slot, t.promptLength, |t.tokens|, t.decodedLength, t.maxTokens)
  }

  ghost predicate HoldsAt(bytes: seq<Token>, base: nat, tokens: seq<Token>) {
    base + |tokens| <= |bytes| && bytes[base..base + |tokens|] == tokens
  }

  /** A slot's dictionary entries, cached tail and page bytes describe its abstract entry. */
  ghost predicate SlotAgrees(d: Tables, bytes: seq<Token>, slot: nat, e: Entry, pageTokens: nat) {
    && pageTokens > 0 && e.range.count > 0
    && slot in d.records && d.records[slot] == RecordOf(slot, e.trajectory)
    && slot in d.turns && d.turns[slot] == e.trajectory.turns
    && slot in d.pageRanges && d.pageRanges[slot] == e.range
    && slot in d.slotToSeq && d.slotToSeq[slot] == e.id
    && e.id in d.seqToSlot && d.seqToSlot[e.id] == slot
    && slot in d.tailPages && slot in d.tailOffsets
    && (d.tailPages[slot], d.tailOffsets[slot]) == Tail(e.range, pageTokens, |e.trajectory.tokens|)
    && HoldsAt(bytes, e.range.start * pageTokens, e.trajectory.tokens)
  }

  ghost predicate KeysAgree(d: Tables, b: Book) {
    && d.freeSlots == b.freeSlots && d.nextSlot == b.nextSlot
    && SlotKeys(d, b.entries.Keys)
    && IdsKnown(d.seqToSlot, b.entries)
  }

  /** Every dictionary by slot has exactly these slots. */
  ghost predicate SlotKeys(d: Tables, slots: set<nat>) {
    && d.records.Keys == slots && d.turns.Keys == slots
    && d.pageRanges.Keys == slots && d.slotToSeq.Keys == slots
    && d.tailPages.Keys == slots && d.tailOffsets.Keys == slots
  }

  ghost predicate IdsKnown(seqToSlot: map<string, nat>, entries: map<nat, Entry>) {
    forall id | id in seqToSlot :: seqToSlot[id] in entries && entries[seqToSlot[id]].id == id
  }

  ghost predicate Agrees(d: Tables, bytes: seq<Token>, b: Book) {
    && KeysAgree(d, b)
    && (forall s {:trigger SlotAgrees(d, bytes, s, b.entries[s], b.pageTokens)} | s in b.entries ::
          SlotAgrees(d, bytes, s, b.entries[s], b.pageTokens))
  }

  lemma BoundIffKnown(d: Tables, bytes: seq<Token>, b: Book, id: string)
    requires Agrees(d, bytes, b)
    ensures IsBound(b, id) <==> id in d.seqToSlot
  {
    if IsBound(b, id) {
      var s :| s in b.entries && b.entries[s].id == id;
      assert SlotAgrees(d, bytes, s, b.entries[s], b.pageTokens);
    }
  }

  // ---- reading a ledger's spans ------------------------------------------------

  /** The stored tokens under a ledger's spans; a span that leaves the buffer raises. */
  function ReadSpans(bytes: seq<Token>, base: nat, turns: seq<Turn>): Option<seq<Token>>
    requires SpansForward(turns)
  {
    if turns == [] then Some([])
    else
      var last, before := Last(turns), ReadSpans(bytes, base, Init(turns));
      if last.generatedLength == 0 || before.None? then before
      else if base + last.GeneratedEnd() > |bytes| then None
      else Some(before.value + bytes[base + last.generatedStart..base + last.GeneratedEnd()])
  }

  /** The token before the end of the last span that is not empty, or the last prompt token. */
  function ReadLast(bytes: seq<Token>, base: nat, turns: seq<Turn>, promptLength: nat): Option<Token>
    requires SpansForward(turns)
  {
    var at := if turns == [] then promptLength else Last(turns).GeneratedEnd();
    if turns != [] && Last(turns).generatedLength == 0 then ReadLast(bytes, base, Init(turns), promptLength)
    else if at == 0 || base + at > |bytes| then None
    else Some(bytes[base + at - 1])
  }

  /** A ledger inside its trajectory reads exactly the generated tokens. */
  lemma {:induction false} ReadSpansIsGenerated(bytes: seq<Token>, base: nat, tokens: seq<Token>, turns: seq<Turn>)
    requires HoldsAt(bytes, base, tokens) && SpansWithin(turns, |tokens|)
    ensures ReadSpans(bytes, base, turns) == Some(Generated(tokens, turns))
    decreases |turns|
  {
    if turns != [] {
      var last := Last(turns);
      ReadSpansIsGenerated(bytes, base, tokens, Init(turns));
      SubSlice(bytes, base, tokens, last.generatedStart, last.GeneratedEnd());
      var before := Generated(tokens, Init(turns));
      assert last.generatedLength == 0 ==> before + tokens[last.generatedStart..last.GeneratedEnd()] == before;
    }
  }

  lemma {:induction false} ReadLastIsLastGenerated(bytes: seq<Token>, base: nat, t: Trajectory, k: nat)
    requires HoldsAt(bytes, base, t.tokens) && SpansWithin(t.turns, |t.tokens|)
    requires k <= |t.turns| && t.promptLength <= |t.tokens|
    ensures ReadLast(bytes, base, t.turns[..k], t.promptLength) == LastGenerated(t, k)
  {
    var some := t.turns[..k];
    if k > 0 {
      assert Init(some) == t.turns[..k - 1] && Last(some) == t.turns[k - 1];
      ReadLastIsLastGenerated(bytes, base, t, k - 1);
    }
    var at := if k == 0 then t.promptLength else Last(some).GeneratedEnd();
    if at > 0 { assert bytes[base..base + |t.tokens|][at - 1] == t.tokens[at - 1]; }
  }

  lemma SubSlice(bytes: seq<Token>, base: nat, tokens: seq<Token>, lo: nat, hi: nat)
    requires HoldsAt(bytes, base, tokens) && lo <= hi <= |tokens|
    ensures bytes[base + lo..base + hi] == tokens[lo..hi]
  {
    forall k | lo <= k < hi
      ensures bytes[base + k] == tokens[k]
    {
      assert bytes[base..base + |tokens|][k] == tokens[k];
    }
  }

  // ---- publishing and dropping a slot -----------------------------------------

  function PublishTables(d: Tables, slot: nat, id: string, range: Extent, maxTokens: nat): Tables {
    Tables(d.records[slot := SlotRecord(slot, 0, 0, 0, maxTokens)], d.turns[slot := []],
           d.pageRanges[slot := range], d.tailPages[slot := range.start], d.tailOffsets[slot := 0],
           d.seqToSlot[id := slot], d.slotToSeq[slot := id],
           if d.freeSlots != [] then Init(d.freeSlots) else d.freeSlots,
           if d.freeSlots != [] then d.nextSlot else d.nextSlot + 1)
  }

  lemma PublishOther(d: Tables, bytes: seq<Token>, s: nat, e: Entry, k: nat, slot: nat, id: string,
                     range: Extent, maxTokens: nat)
    requires SlotAgrees(d, bytes, s, e, k) && s != slot && e.id != id
    ensures SlotAgrees(PublishTables(d, slot, id, range, maxTokens), bytes, s, e, k)
  {
  }

  lemma PublishNew(d: Tables, bytes: seq<Token>, k: nat, slot: nat, id: string, range: Extent, maxTokens: nat)
    requires k > 0 && range.count > 0 && range.start * k <= |bytes|
    ensures SlotAgrees(PublishTables(d, slot, id, range, maxTokens), bytes, slot,
                       Entry(id, range, Fresh(maxTokens)), k)
  {
    DivUnique(0, k, 0, 0);
  }

  lemma PublishKeys(d: Tables, b: Book, id: string, range: Extent, maxTokens: nat)
    requires KeysAgree(d, b) && NextSlot(b) !in b.entries && id !in d.seqToSlot
    ensures KeysAgree(PublishTables(d, NextSlot(b), id, range, maxTokens), Publish(b, id, range, maxTokens))
  {
    var slot, e := NextSlot(b), Entry(id, range, Fresh(maxTokens));
    PublishIds(d.seqToSlot, b.entries, slot, e);
    PublishSlotKeys(d, b.entries.Keys, slot, id, range, maxTokens);
    hide SlotKeys, IdsKnown, Fresh, Init, Last;
    assert b.entries[slot := e].Keys == b.entries.Keys + {slot};
  }

  lemma PublishSlotKeys(d: Tables, slots: set<nat>, slot: nat, id: string, range: Extent, maxTokens: nat)
    requires SlotKeys(d, slots)
    ensures SlotKeys(PublishTables(d, slot, id, range, maxTokens), slots + {slot})
  {
  }

  lemma PublishIds(seqToSlot: map<string, nat>, entries: map<nat, Entry>, slot: nat, e: Entry)
    requires slot !in entries && e.id !in seqToSlot && IdsKnown(seqToSlot, entries)
    ensures IdsKnown(seqToSlot[e.id := slot], entries[slot := e])
  {
  }

  lemma PublishAgrees(d: Tables, bytes: seq<Token>, b: Book, id: string, range: Extent, maxTokens: nat)
    requires Agrees(d, bytes, b) && NextSlot(b) !in b.entries && b.pageTokens > 0
    requires id !in d.seqToSlot && range.count > 0 && range.start * b.pageTokens <= |bytes|
    ensures Agrees(PublishTables(d, NextSlot(b), id, range, maxTokens), bytes, Publish(b, id, range, maxTokens))
  {
    var slot := NextSlot(b);
    var d', b' := PublishTables(d, slot, id, range, maxTokens), Publish(b, id, range, maxTokens);
    PublishKeys(d, b, id, range, maxTokens);
    PublishNew(d, bytes, b.pageTokens, slot, id, range, maxTokens);
    forall s | s in b'.entries
      ensures SlotAgrees(d', bytes, s, b'.entries[s], b'.pageTokens)
    {
      if s != slot { PublishOther(d, bytes, s, b.entries[s], b.pageTokens, slot, id, range, maxTokens); }
    }
  }

  function DropTables(d: Tables, slot: nat, id: string): Tables {
    Tables(d.records - {slot}, d.turns - {slot}, d.pageRanges - {slot}, d.tailPages - {slot},
           d.tailOffsets - {slot}, d.seqToSlot - {id}, d.slotToSeq - {slot},
           d.freeSlots + [slot], d.nextSlot)
  }

  lemma DropOther(d: Tables, bytes: seq<Token>, s: nat, e: Entry, k: nat, slot: nat, id: string)
    requires SlotAgrees(d, bytes, s, e, k) && s != slot && e.id != id
    ensures SlotAgrees(DropTables(d, slot, id), bytes, s, e, k)
  {
  }

  lemma DropKeys(d: Tables, b: Book, slot: nat)
    requires KeysAgree(d, b) && slot in b.entries
    requires forall s | s in b.entries && s != slot :: b.entries[s].id != b.entries[slot].id
    requires b.entries[slot].id in d.seqToSlot && d.seqToSlot[b.entries[slot].id] == slot
    ensures KeysAgree(DropTables(d, slot, b.entries[slot].id), Release(b, slot).value)
  {
  }

  lemma DropAgrees(d: Tables, bytes: seq<Token>, b: Book, slot: nat)
    requires Agrees(d, bytes, b) && IdsUnique(b) && slot in b.entries
    ensures Agrees(DropTables(d, slot, b.entries[slot].id), bytes, Release(b, slot).value)
  {
    var b', d' := Release(b, slot).value, DropTables(d, slot, b.entries[slot].id);
    assert SlotAgrees(d, bytes, slot, b.entries[slot], b.pageTokens);
    DropKeys(d, b, slot);
    forall s | s in b'.entries
      ensures SlotAgrees(d', bytes, s, b'.entries[s], b'.pageTokens)
    {
      DropOther(d, bytes, s, b.entries[s], b.pageTokens, slot, b.entries[slot].id);
    }
  }

  // ---- updating one slot ------------------------------------------------------------

  function SlotTables(d: Tables, slot: nat, t: Trajectory, range: Extent, pageTokens: nat): Tables
    requires pageTokens > 0 && range.count > 0
  {
    var (page, offset) := Tail(range, pageTokens, |t.tokens|);
    d.(records := d.records[slot := RecordOf(slot, t)], turns := d.turns[slot := t.turns],
       tailPages := d.tailPages[slot := page], tailOffsets := d.tailOffsets[slot := offset])
  }

  /** Bytes outside a slot's reservation are left alone. */
  ghost predicate OnlyWithin(bytes: seq<Token>, bytes': seq<Token>, base: nat, size: nat) {
    && |bytes'| == |bytes|
    && (forall k | 0 <= k < |bytes| && !(base <= k < base + size) :: bytes'[k] == bytes[k])
  }

  lemma UpdateOther(d: Tables, bytes: seq<Token>, bytes': seq<Token>, s: nat, e: Entry, k: nat,
                    slot: nat, t: Trajectory, range: Extent, size: nat)
    requires SlotAgrees(d, bytes, s, e, k) && s != slot && range.count > 0 && k > 0
    requires OnlyWithin(bytes, bytes', range.start * k, size)
    requires || e.range.start * k + |e.trajectory.tokens| <= range.start * k
             || range.start * k + size <= e.range.start * k
    ensures SlotAgrees(SlotTables(d, slot, t, range, k), bytes', s, e, k)
  {
    SameSlice(bytes, bytes', e.range.start * k, |e.trajectory.tokens|, range.start * k, size);
  }

  lemma UpdateSelf(d: Tables, bytes: seq<Token>, bytes': seq<Token>, slot: nat, e: Entry, k: nat, t: Trajectory)
    requires SlotAgrees(d, bytes, slot, e, k)
    requires HoldsAt(bytes', e.range.start * k, t.tokens)
    ensures SlotAgrees(SlotTables(d, slot, t, e.range, k), bytes', slot, e.(trajectory := t), k)
  {
  }

  lemma UpdateKeys(d: Tables, b: Book, slot: nat, t: Trajectory)
    requires KeysAgree(d, b) && slot in b.entries && b.entries[slot].range.count > 0 && b.pageTokens > 0
    ensures KeysAgree(SlotTables(d, slot, t, b.entries[slot].range, b.pageTokens), SetTrajectory(b, slot, t))
  {
  }

  ghost predicate ApartFrom(b: Book, s: nat, slot: nat)
    requires s in b.entries && slot in b.entries
  {
    || Base(b, s) + |b.entries[s].trajectory.tokens| <= Base(b, slot)
    || Base(b, slot) + MaxTokens(b, slot) <= Base(b, s)
  }

  lemma SlotsLiveApart(b: Book, slot: nat)
    requires Inv(b) && slot in b.entries
    ensures forall s | s in b.entries && s != slot :: ApartFrom(b, s, slot)
  {
    forall s | s in b.entries && s != slot
      ensures ApartFrom(b, s, slot)
    {
      assert EntryOk(b, b.entries[s]);
      RangesApart(b, s, slot);
    }
  }

  /**
   A slot whose bytes and metadata move to a new trajectory keeps the whole
   book described: no other slot's tokens are touched.
   */
  lemma UpdateAgrees(d: Tables, bytes: seq<Token>, bytes': seq<Token>, b: Book, slot: nat, t: Trajectory)
    requires Agrees(d, bytes, b) && slot in b.entries && b.pageTokens > 0
    requires b.entries[slot].range.count > 0
    requires forall s | s in b.entries && s != slot :: ApartFrom(b, s, slot)
    requires OnlyWithin(bytes, bytes', Base(b, slot), MaxTokens(b, slot))
    requires HoldsAt(bytes', Base(b, slot), t.tokens)
    ensures Agrees(SlotTables(d, slot, t, b.entries[slot].range, b.pageTokens), bytes', SetTrajectory(b, slot, t))
  {
    var range := b.entries[slot].range;
    var d', b' := SlotTables(d, slot, t, range, b.pageTokens), SetTrajectory(b, slot, t);
    UpdateKeys(d, b, slot, t);
    UpdateSelf(d, bytes, bytes', slot, b.entries[slot], b.pageTokens, t);
    forall s | s in b'.entries
      ensures SlotAgrees(d', bytes', s, b'.entries[s], b'.pageTokens)
    {
      if s != slot {
        assert ApartFrom(b, s, slot);
        UpdateOther(d, bytes, bytes', s, b.entries[s], b.pageTokens, slot, t, range, MaxTokens(b, slot));
      }
    }
  }

  lemma SameSlice(bytes: seq<Token>, bytes': seq<Token>, base: nat, n: nat, other: nat, size: nat)
    requires OnlyWithin(bytes, bytes', other, size)
    requires base + n <= other || other + size <= base
    requires base + n <= |bytes|
    ensures bytes'[base..base + n] == bytes[base..base + n]
  {
  }

  /** Position `k` lies inside some slot's trajectory. */
  ghost predicate InUse(b: Book, k: int) {
    exists s | s in b.entries :: Base(b, s) <= k < Base(b, s) + |b.entries[s].trajectory.tokens|
  }

  /** Bytes no trajectory reaches may change freely. */
  lemma SpareBytes(d: Tables, bytes: seq<Token>, bytes': seq<Token>, b: Book)
    requires Agrees(d, bytes, b) && |bytes'| == |bytes|
    requires forall k | 0 <= k < |bytes| && InUse(b, k) :: bytes'[k] == bytes[k]
    ensures Agrees(d, bytes', b)
  {
    forall s | s in b.entries
      ensures SlotAgrees(d, bytes', s, b.entries[s], b.pageTokens)
    {
      var e := b.entries[s];
      assert SlotAgrees(d, bytes, s, e, b.pageTokens);
      var base, n := Base(b, s), |e.trajectory.tokens|;
      forall k | base <= k < base + n
        ensures bytes'[k] == bytes[k]
      {
        assert Base(b, s) <= k < Base(b, s) + |b.entries[s].trajectory.tokens|;
        assert InUse(b, k);
      }
      assert bytes'[base..base + n] == bytes[base..base + n];
    }
  }

  /** The position after a trajectory with room belongs to nobody yet. */
  lemma TailIsSpare(b: Book, slot: nat)
    requires Inv(b) && HasRoom(b, slot)
    ensures !InUse(b, Base(b, slot) + |b.entries[slot].trajectory.tokens|)
  {
    var at := Base(b, slot) + |b.entries[slot].trajectory.tokens|;
    forall s | s in b.entries
      ensures !(Base(b, s) <= at < Base(b, s) + |b.entries[s].trajectory.tokens|)
    {
      if s != slot {
        assert EntryOk(b, b.entries[s]);
        RangesApart(b, s, slot);
      }
    }
  }

  // ---- the three ways the class changes a valid book -------------------------------

  lemma ReleaseIsDescribed(d: Tables, bytes: seq<Token>, b: Book, slot: nat)
    requires Agrees(d, bytes, b) && Inv(b) && slot in b.entries
    ensures slot in d.slotToSeq && d.slotToSeq[slot] == b.entries[slot].id
    ensures slot in d.pageRanges && d.pageRanges[slot] == b.entries[slot].range
    ensures Inv(Release(b, slot).value)
    ensures Agrees(DropTables(d, slot, b.entries[slot].id), bytes, Release(b, slot).value)
  {
    assert SlotAgrees(d, bytes, slot, b.entries[slot], b.pageTokens);
    DropAgrees(d, bytes, b, slot);
    ReleaseKeepsInv(b, slot);
  }

  lemma UpdateIsDescribed(d: Tables, bytes: seq<Token>, bytes': seq<Token>, b: Book, slot: nat, t: Trajectory)
    requires Agrees(d, bytes, b) && Inv(b) && slot in b.entries
    requires t.maxTokens == MaxTokens(b, slot) && Bounded(t)
    requires OnlyWithin(bytes, bytes', Base(b, slot), MaxTokens(b, slot))
    requires HoldsAt(bytes', Base(b, slot), t.tokens)
    ensures b.entries[slot].range.count > 0
    ensures Inv(SetTrajectory(b, slot, t))
    ensures Agrees(SlotTables(d, slot, t, b.entries[slot].range, b.pageTokens), bytes', SetTrajectory(b, slot, t))
  {
    assert SlotAgrees(d, bytes, slot, b.entries[slot], b.pageTokens);
    SetTrajectoryKeepsInv(b, slot, t);
    SlotsLiveApart(b, slot);
    UpdateAgrees(d, bytes, bytes', b, slot, t);
  }

  lemma BindFacts(b: Book)
    requires Inv(b)
    ensures Canonical(b.free, b.pageCount) && NextSlot(b) !in b.entries
  {
    assert b.freeSlots != [] ==> Last(b.freeSlots) in b.freeSlots;
  }

  lemma ActiveSlots(d: Tables, bytes: seq<Token>, b: Book)
    requires Agrees(d, bytes, b)
    ensures d.records.Keys == b.entries.Keys
    ensures d.freeSlots == b.freeSlots && d.nextSlot == b.nextSlot
  {
  }

  /** What a method reads from the dictionaries of an active slot. */
  lemma SlotFacts(d: Tables, bytes: seq<Token>, b: Book, slot: nat)
    requires Agrees(d, bytes, b) && Inv(b) && slot in b.entries && |bytes| == b.pageCount * b.pageTokens
    ensures var e := b.entries[slot];
            && slot in d.records && d.records[slot] == RecordOf(slot, e.trajectory)
            && slot in d.turns && d.turns[slot] == e.trajectory.turns
            && slot in d.pageRanges && d.pageRanges[slot] == e.range && e.range.count > 0
            && HoldsAt(bytes, Base(b, slot), e.trajectory.tokens) && Bounded(e.trajectory)
            && e.trajectory.maxTokens <= e.range.count * b.pageTokens
            && Base(b, slot) + e.range.count * b.pageTokens <= |bytes|
            && slot in d.tailPages && slot in d.tailOffsets
            && d.tailPages[slot] * b.pageTokens + d.tailOffsets[slot] == Base(b, slot) + |e.trajectory.tokens|
  {
    var e := b.entries[slot];
    assert EntryOk(b, e);
    EntryFits(b, e);
    assert SlotAgrees(d, bytes, slot, e, b.pageTokens);
    TailIsFlat(e.range, b.pageTokens, |e.trajectory.tokens|);
  }

  /** Rewriting a tail for an unchanged length changes nothing. */
  lemma SameTail(d: Tables, bytes: seq<Token>, b: Book, slot: nat, t: Trajectory)
    requires Agrees(d, bytes, b) && slot in b.entries && |t.tokens| == |b.entries[slot].trajectory.tokens|
    ensures b.entries[slot].range.count > 0 && b.pageTokens > 0
    ensures SlotTables(d, slot, t, b.entries[slot].range, b.pageTokens)
         == d.(records := d.records[slot := RecordOf(slot, t)], turns := d.turns[slot := t.turns])
  {
    assert SlotAgrees(d, bytes, slot, b.entries[slot], b.pageTokens);
    var d' := SlotTables(d, slot, t, b.entries[slot].range, b.pageTokens);
    assert d'.tailPages == d.tailPages && d'.tailOffsets == d.tailOffsets;
  }
}
