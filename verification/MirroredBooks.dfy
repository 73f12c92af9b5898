/**
 Two ranks of one node: each process keeps its own QueryBook metadata over the
 same token pages.  Each rank runs the decode steps of the slots it owns; at the
 next boundary it takes over the other rank's lengths for the slots it does not.
 */
module MirroredBooks {
  import opened Options
  import opened TurnLedger
  import opened TokenBook
  import opened BookTables
  import opened QueryBooks

  // ---- books that drift apart ------------------------------------------------------------

  ghost predicate OnlyDecodes(ops: seq<Op>) {
    forall i | 0 <= i < |ops| :: DecodeOp(ops[i])
  }

  /** `o` is `m` after some decode operations. */
  ghost predicate Decoded(m: Trajectory, o: Trajectory) {
    exists ops: seq<Op> :: OnlyDecodes(ops) && RunOps(m, ops) == o
  }

  lemma DecodedItself(t: Trajectory)
    ensures Decoded(t, t)
  {
    assert OnlyDecodes([]) && RunOps(t, []) == t;
  }

  lemma DecodedFurther(m: Trajectory, o: Trajectory, op: Op)
    requires Decoded(m, o) && DecodeOp(op)
    ensures Decoded(m, After(o, op))
  {
    var ops: seq<Op> :| OnlyDecodes(ops) && RunOps(m, ops) == o;
    assert Init(ops + [op]) == ops && Last(ops + [op]) == op;
    assert OnlyDecodes(ops + [op]) && RunOps(m, ops + [op]) == After(o, op);
  }

  lemma {:induction false} RunGrows(t: Trajectory, ops: seq<Op>)
    requires OnlyDecodes(ops)
    ensures t.tokens <= RunOps(t, ops).tokens && RunOps(t, ops).maxTokens == t.maxTokens
    decreases |ops|
  {
    if ops != [] {
      assert OnlyDecodes(Init(ops)) && DecodeOp(Last(ops));
      RunGrows(t, Init(ops));
    }
  }

  lemma DecodedGrows(m: Trajectory, o: Trajectory)
    requires Decoded(m, o)
    ensures m.tokens <= o.tokens && o.maxTokens == m.maxTokens
  {
    var ops: seq<Op> :| OnlyDecodes(ops) && RunOps(m, ops) == o;
    RunGrows(m, ops);
  }

  /** Books that differ at most in the trajectories of their slots. */
  ghost predicate SameFrame(a: Book, b: Book) {
    && b == a.(entries := b.entries) && b.entries.Keys == a.entries.Keys
    && forall s | s in a.entries :: b.entries[s] == a.entries[s].(trajectory := b.entries[s].trajectory)
  }

  /** `b` is `start` with the slots it owns decoded further. */
  ghost predicate Advanced(start: Book, b: Book, own: seq<nat>) {
    && SameFrame(start, b)
    && forall s | s in start.entries ::
         if s in own then Decoded(start.entries[s].trajectory, b.entries[s].trajectory)
         else b.entries[s] == start.entries[s]
  }

  lemma AdvancedNowhere(start: Book, own: seq<nat>)
    ensures Advanced(start, start, own)
  {
    hide Decoded;
    forall s | s in start.entries ensures Decoded(start.entries[s].trajectory, start.entries[s].trajectory) {
      DecodedItself(start.entries[s].trajectory);
    }
  }

  ghost predicate Disjoint(a: seq<nat>, b: seq<nat>) { forall s | s in a :: s !in b }

  // ---- one decode step ------------------------------------------------------------------------

  /** A token for each of several slots. */
  datatype Microbatch = Microbatch(slots: seq<nat>, tokens: seq<Token>)

  ghost predicate Runs(b: Book, batch: Microbatch) {
    && |batch.slots| == |batch.tokens|
    && (forall i, j | 0 <= i < j < |batch.slots| :: batch.slots[i] != batch.slots[j])
    && (forall i | 0 <= i < |batch.slots| :: HasRoom(b, batch.slots[i]))
  }

  /** A refused step raises and changes nothing. */
  ghost function AfterStep(b: Book, batch: Microbatch): Book {
    if !Runs(b, batch) then b
    else
      var r := OnEach(b, batch.slots, AppendOps(batch.tokens));
      if r.None? then b else r.value
  }

  ghost predicate Within(batch: Microbatch, slots: seq<nat>) {
    forall i | 0 <= i < |batch.slots| :: batch.slots[i] in slots
  }

  /** What a batch brings one slot. */
  function TokenFor(slots: seq<nat>, tokens: seq<Token>, s: nat): (r: Option<Token>)
    requires |slots| == |tokens|
    ensures r.Some? <==> s in slots
    decreases |slots|
  {
    if slots == [] then None
    else if Last(slots) == s then Some(Last(tokens))
    else assert slots == Init(slots) + [Last(slots)]; TokenFor(Init(slots), Init(tokens), s)
  }

  function Fed(e: Entry, token: Option<Token>): Entry {
    if token.None? then e else e.(trajectory := After(e.trajectory, AppendToken(token.value)))
  }

  lemma EachAccepts(b: Book, slots: seq<nat>, tokens: seq<Token>)
    requires Inv(b) && Runs(b, Microbatch(slots, tokens))
    ensures forall i | 0 <= i < |slots| :: Accepts(b, slots[i], AppendOps(tokens)[i])
    ensures OnEach(b, slots, AppendOps(tokens)).Some? && Inv(OnEach(b, slots, AppendOps(tokens)).value)
  {
    hide Inv;
    var ops := AppendOps(tokens);
    forall i | 0 <= i < |slots| ensures Accepts(b, slots[i], ops[i]) { assert HasRoom(b, slots[i]); }
    OnEachKeeps(b, slots, ops);
  }

  /** A batch that runs changes each slot by its own token only. */
  lemma {:induction false} EachSlotByItself(b: Book, slots: seq<nat>, tokens: seq<Token>, s: nat)
    requires Inv(b) && Runs(b, Microbatch(slots, tokens)) && s in b.entries
    ensures OnEach(b, slots, AppendOps(tokens)).Some? && s in OnEach(b, slots, AppendOps(tokens)).value.entries
    ensures OnEach(b, slots, AppendOps(tokens)).value.entries[s] == Fed(b.entries[s], TokenFor(slots, tokens, s))
    decreases |slots|
  {
    hide Inv, Runs, Apply, OnSlot, Accepts;
    EachAccepts(b, slots, tokens);
    if slots != [] {
      var ops, n := AppendOps(tokens), |slots| - 1;
      RunsInit(b, slots, tokens);
      EachSlotByItself(b, Init(slots), Init(tokens), s);
      hide OnEach, Fed;
      OnEachStep(b, slots, ops, n);
      assert slots[..n] == Init(slots) && ops[..n] == Init(ops) && slots[..n + 1] == slots && ops[..n + 1] == ops;
      FedOnce(b, OnEach(b, Init(slots), Init(ops)).value, slots, tokens, s);
    }
  }

  lemma RunsInit(b: Book, slots: seq<nat>, tokens: seq<Token>)
    requires Runs(b, Microbatch(slots, tokens)) && slots != []
    ensures Runs(b, Microbatch(Init(slots), Init(tokens))) && Init(AppendOps(tokens)) == AppendOps(Init(tokens))
    ensures |slots| == |tokens| && forall i, j | 0 <= i < j < |slots| :: slots[i] != slots[j]
  {
  }

  lemma FedOnce(b: Book, mid: Book, slots: seq<nat>, tokens: seq<Token>, s: nat)
    requires |slots| == |tokens| > 0 && s in b.entries && s in mid.entries
    requires Last(slots) in b.entries && Last(slots) in mid.entries && mid.entries[Last(slots)] == b.entries[Last(slots)]
    requires mid.entries[s] == Fed(b.entries[s], TokenFor(Init(slots), Init(tokens), s))
    requires OnSlot(mid, Last(slots), AppendToken(Last(tokens))).Some?
    ensures var after := OnSlot(mid, Last(slots), AppendToken(Last(tokens))).value;
            s in after.entries && after.entries[s] == Fed(b.entries[s], TokenFor(slots, tokens, s))
  {
    hide Apply;
  }

  lemma StepAt(b: Book, batch: Microbatch, s: nat)
    requires Inv(b) && s in b.entries
    ensures s in AfterStep(b, batch).entries
    ensures AfterStep(b, batch).entries[s] ==
            if Runs(b, batch) then Fed(b.entries[s], TokenFor(batch.slots, batch.tokens, s)) else b.entries[s]
  {
    hide Inv;
    if Runs(b, batch) { EachSlotByItself(b, batch.slots, batch.tokens, s); }
  }

  lemma StepKeepsInv(b: Book, batch: Microbatch)
    requires Inv(b)
    ensures Inv(AfterStep(b, batch)) && SameFrame(b, AfterStep(b, batch))
  {
    hide Inv;
    if Runs(b, batch) {
      EachAccepts(b, batch.slots, batch.tokens);
      FrameOfEach(b, batch.slots, AppendOps(batch.tokens));
    }
  }

  lemma {:induction false} FrameOfEach(b: Book, slots: seq<nat>, ops: seq<Op>)
    requires |slots| == |ops| && OnEach(b, slots, ops).Some?
    ensures SameFrame(b, OnEach(b, slots, ops).value)
    decreases |slots|
  {
    if slots != [] { FrameOfEach(b, Init(slots), Init(ops)); }
  }

  /** A step on own slots advances them. */
  lemma StepAdvances(start: Book, b: Book, own: seq<nat>, batch: Microbatch)
    requires Inv(b) && Advanced(start, b, own) && Within(batch, own)
    ensures Inv(AfterStep(b, batch)) && Advanced(start, AfterStep(b, batch), own)
  {
    hide Inv, AfterStep, Decoded;
    StepKeepsInv(b, batch);
    forall s | s in start.entries
      ensures if s in own then Decoded(start.entries[s].trajectory, AfterStep(b, batch).entries[s].trajectory)
              else AfterStep(b, batch).entries[s] == start.entries[s]
    {
      StepAt(b, batch, s);
      if Runs(b, batch) && s in batch.slots {
        var token := TokenFor(batch.slots, batch.tokens, s).value;
        DecodedFurther(start.entries[s].trajectory, b.entries[s].trajectory, AppendToken(token));
      }
    }
  }

  // ---- the other rank's view ------------------------------------------------------------------

  ghost predicate Paired(left: QueryBook, right: QueryBook)
    reads left, right, left.storage, right.storage
  {
    left != right && left.storage == right.storage && left.Valid() && right.Valid()
  }

  /** The position a rank appends to holds no token of the other rank's slots. */
  lemma TailIsNotTheirs(start: Book, mine: Book, theirs: Book, own: seq<nat>, others: seq<nat>, slot: nat)
    requires Inv(mine) && Inv(theirs) && Advanced(start, mine, own) && Advanced(start, theirs, others)
    requires slot in own && slot !in others && HasRoom(mine, slot)
    ensures !InUse(theirs, Base(mine, slot) + |mine.entries[slot].trajectory.tokens|)
  {
    var at := Base(mine, slot) + |mine.entries[slot].trajectory.tokens|;
    hide Decoded;
    forall s | s in theirs.entries
      ensures !(Base(theirs, s) <= at < Base(theirs, s) + |theirs.entries[s].trajectory.tokens|)
    {
      SameBases(start, mine, theirs, own, others, s);
      SameBases(start, mine, theirs, own, others, slot);
      hide Base, Advanced;
      if s == slot {
        OwnIsLonger(start, mine, theirs, own, others, s);
      } else {
        RangesApart(theirs, s, slot);
        SlotBounded(theirs, s);
      }
    }
    hide Inv, Advanced;
  }

  lemma SameBases(start: Book, mine: Book, theirs: Book, own: seq<nat>, others: seq<nat>, s: nat)
    requires Advanced(start, mine, own) && Advanced(start, theirs, others) && (s in mine.entries || s in theirs.entries)
    ensures s in start.entries && s in mine.entries && s in theirs.entries && Base(mine, s) == Base(theirs, s)
    ensures MaxTokens(mine, s) == MaxTokens(theirs, s)
  {
    GrownAt(start, mine, own, s);
    GrownAt(start, theirs, others, s);
  }

  lemma GrownAt(start: Book, b: Book, own: seq<nat>, s: nat)
    requires Advanced(start, b, own) && s in start.entries
    ensures s in b.entries && start.entries[s].trajectory.tokens <= b.entries[s].trajectory.tokens
    ensures MaxTokens(b, s) == MaxTokens(start, s)
  {
    hide Decoded;
    if s in own { DecodedGrows(start.entries[s].trajectory, b.entries[s].trajectory); }
  }

  lemma OwnIsLonger(start: Book, mine: Book, theirs: Book, own: seq<nat>, others: seq<nat>, s: nat)
    requires Advanced(start, mine, own) && Advanced(start, theirs, others) && s in start.entries && s !in others
    ensures s in mine.entries && s in theirs.entries
    ensures |theirs.entries[s].trajectory.tokens| <= |mine.entries[s].trajectory.tokens|
  {
    hide Decoded;
    GrownAt(start, mine, own, s);
  }

  lemma SlotBounded(b: Book, s: nat)
    requires Inv(b) && s in b.entries
    ensures |b.entries[s].trajectory.tokens| <= MaxTokens(b, s)
  {
    assert EntryOk(b, b.entries[s]);
  }

  /** A decode step of one rank leaves the other rank's view of the shared pages intact, whatever slots it appends to. */
  method OwnerAppends(owner: QueryBook, other: QueryBook, batch: Microbatch, ghost start: Book,
                      ghost own: seq<nat>, ghost others: seq<nat>)
    requires Paired(owner, other) && Within(batch, own) && Disjoint(own, others)
    requires Advanced(start, owner.book, own) && Advanced(start, other.book, others)
    modifies owner, owner.storage
    ensures Paired(owner, other) && other.book == old(other.book)
    ensures owner.book == AfterStep(old(owner.book), batch) && Advanced(start, owner.book, own)
  {
    hide Inv, Agrees, Advanced, InUse, Base;
    ghost var bytes, o := owner.storage[..], owner.book;
    StepAdvances(start, o, own, batch);
    var ok := owner.AppendTokens(batch.slots, batch.tokens);
    assert owner.book == AfterStep(o, batch);
    if ok {
      forall k | 0 <= k < |bytes| && InUse(other.book, k)
        ensures owner.storage[..][k] == bytes[k]
      {
        if AtSomeTail(o, batch.slots, k) { TailsAreNotTheirs(start, o, other.book, own, others, batch, k); }
      }
    }
    SpareBytes(other.Dictionaries(), bytes, owner.storage[..], other.book);
  }

  lemma TailsAreNotTheirs(start: Book, mine: Book, theirs: Book, own: seq<nat>, others: seq<nat>, batch: Microbatch, k: int)
    requires Inv(mine) && Inv(theirs) && Advanced(start, mine, own) && Advanced(start, theirs, others)
    requires Within(batch, own) && Disjoint(own, others) && Runs(mine, batch) && AtSomeTail(mine, batch.slots, k)
    ensures !InUse(theirs, k)
  {
    hide Inv, Advanced, InUse, Base;
    var i :| 0 <= i < |batch.slots| && batch.slots[i] in mine.entries
             && k == Base(mine, batch.slots[i]) + |mine.entries[batch.slots[i]].trajectory.tokens|;
    TailIsNotTheirs(start, mine, theirs, own, others, batch.slots[i]);
  }

  // ---- the book of one rank that did everything ----------------------------------------------------

  /** `m` with these slots' trajectories taken from `o`. */
  ghost function TakeOver(m: Book, o: Book, slots: seq<nat>): Book {
    m.(entries := map s | s in m.entries ::
         if s in slots && s in o.entries then m.entries[s].(trajectory := o.entries[s].trajectory) else m.entries[s])
  }

  /** Either rank taking over the other's slots gives the same book. */
  lemma TakeOverMeets(start: Book, l: Book, r: Book, own: seq<nat>, others: seq<nat>)
    requires Advanced(start, l, own) && Advanced(start, r, others) && Disjoint(own, others)
    ensures TakeOver(l, r, others) == TakeOver(r, l, own)
  {
    hide Decoded;
    var a, b := TakeOver(l, r, others), TakeOver(r, l, own);
    forall s | s in start.entries ensures a.entries[s] == b.entries[s] {
      assert l.entries[s] == start.entries[s].(trajectory := l.entries[s].trajectory);
      assert r.entries[s] == start.entries[s].(trajectory := r.entries[s].trajectory);
    }
  }

  /** A step of one rank, seen on the joint book. */
  lemma StepOnJoint(start: Book, l: Book, r: Book, own: seq<nat>, others: seq<nat>, batch: Microbatch)
    requires Advanced(start, l, own) && Advanced(start, r, others) && Disjoint(own, others) && Within(batch, own)
    requires Inv(l) && Inv(TakeOver(l, r, others))
    ensures AfterStep(TakeOver(l, r, others), batch) == TakeOver(AfterStep(l, batch), r, others)
    ensures Inv(TakeOver(AfterStep(l, batch), r, others))
  {
    hide Inv, AfterStep, Decoded;
    var joint := TakeOver(l, r, others);
    var a, b := AfterStep(joint, batch), TakeOver(AfterStep(l, batch), r, others);
    SameRuns(start, l, r, own, others, batch);
    StepKeepsInv(joint, batch);
    StepKeepsInv(l, batch);
    forall s | s in l.entries ensures a.entries[s] == b.entries[s] {
      StepAt(joint, batch, s);
      StepAt(l, batch, s);
      if s in others { assert s !in batch.slots; }
    }
    assert a.entries == b.entries;
  }

  lemma SameRuns(start: Book, l: Book, r: Book, own: seq<nat>, others: seq<nat>, batch: Microbatch)
    requires Advanced(start, l, own) && Advanced(start, r, others) && Disjoint(own, others) && Within(batch, own)
    ensures Runs(TakeOver(l, r, others), batch) <==> Runs(l, batch)
  {
    hide Decoded;
    var joint := TakeOver(l, r, others);
    forall i | 0 <= i < |batch.slots| ensures HasRoom(joint, batch.slots[i]) <==> HasRoom(l, batch.slots[i]) {
      assert batch.slots[i] in own && batch.slots[i] !in others;
    }
  }

  // ---- the steps of an interval, in any order -----------------------------------------------------

  /** A decode step and the rank that runs it. */
  datatype Move = Move(byLeft: bool, batch: Microbatch)

  ghost predicate Owned(moves: seq<Move>, own: seq<nat>, others: seq<nat>) {
    forall k | 0 <= k < |moves| :: Within(moves[k].batch, if moves[k].byLeft then own else others)
  }

  ghost function RunMoves(b: Book, moves: seq<Move>): Book {
    if moves == [] then b else AfterStep(RunMoves(b, Init(moves)), Last(moves).batch)
  }

  /** Both ranks have run their steps from `start`; `joint` is what one rank would have made of all of them. */
  ghost predicate Apart(start: Book, l: Book, r: Book, own: seq<nat>, others: seq<nat>, joint: Book) {
    && Advanced(start, l, own) && Advanced(start, r, others) && Disjoint(own, others)
    && joint == TakeOver(l, r, others) && Inv(joint)
  }

  lemma ApartAtFirst(start: Book, own: seq<nat>, others: seq<nat>)
    requires Inv(start) && Disjoint(own, others)
    ensures Apart(start, start, start, own, others, start)
  {
    hide Inv, Advanced;
    AdvancedNowhere(start, own);
    AdvancedNowhere(start, others);
    assert TakeOver(start, start, others) == start;
  }

  lemma LeftMoves(start: Book, l: Book, r: Book, own: seq<nat>, others: seq<nat>, joint: Book, batch: Microbatch)
    requires Apart(start, l, r, own, others, joint) && Inv(l) && Within(batch, own)
    ensures Apart(start, AfterStep(l, batch), r, own, others, AfterStep(joint, batch))
  {
    hide Inv, Advanced, AfterStep, TakeOver;
    StepAdvances(start, l, own, batch);
    StepOnJoint(start, l, r, own, others, batch);
  }

  lemma ApartSwaps(start: Book, l: Book, r: Book, own: seq<nat>, others: seq<nat>, joint: Book)
    requires Apart(start, l, r, own, others, joint)
    ensures Apart(start, r, l, others, own, joint)
  {
    hide Inv, Advanced, TakeOver;
    TakeOverMeets(start, l, r, own, others);
  }

  /** Both ranks run the decode steps of one interval, interleaved in any order. */
  method BothDecode(left: QueryBook, right: QueryBook, moves: seq<Move>, ghost own: seq<nat>, ghost others: seq<nat>)
    returns (ghost joint: Book)
    requires Paired(left, right) && left.book == right.book && Owned(moves, own, others) && Disjoint(own, others)
    modifies left, right, left.storage
    ensures Paired(left, right) && joint == RunMoves(old(left.book), moves)
    ensures Apart(old(left.book), left.book, right.book, own, others, joint)
  {
    hide Inv, Agrees, Apart, AfterStep, Advanced;
    ghost var start := left.book;
    joint := start;
    ApartAtFirst(start, own, others);
    for n := 0 to |moves|
      invariant Paired(left, right) && joint == RunMoves(start, moves[..n])
      invariant Apart(start, left.book, right.book, own, others, joint)
    {
      assert Init(moves[..n + 1]) == moves[..n] && Last(moves[..n + 1]) == moves[n];
      ghost var l, r := left.book, right.book;
      ApartSwaps(start, l, r, own, others, joint);
      ApartIsAdvanced(start, l, r, own, others, joint);
      ApartIsAdvanced(start, r, l, others, own, joint);
      if moves[n].byLeft {
        LeftMoves(start, l, r, own, others, joint, moves[n].batch);
        OwnerAppends(left, right, moves[n].batch, start, own, others);
      } else {
        LeftMoves(start, r, l, others, own, joint, moves[n].batch);
        ApartSwaps(start, AfterStep(r, moves[n].batch), l, others, own, AfterStep(joint, moves[n].batch));
        OwnerAppends(right, left, moves[n].batch, start, others, own);
      }
      joint := AfterStep(joint, moves[n].batch);
    }
    assert moves[..|moves|] == moves;
  }

  lemma ApartIsAdvanced(start: Book, l: Book, r: Book, own: seq<nat>, others: seq<nat>, joint: Book)
    requires Apart(start, l, r, own, others, joint)
    ensures Advanced(start, l, own) && Disjoint(own, others)
  {
  }

  // ---- the boundary ---------------------------------------------------------------------------------

  /** An aligned slot that has seen a prompt or a token. */
  predicate Ready(t: Trajectory) { Aligned(t) && t.turns != [] }

  ghost predicate AllReady(b: Book, slots: seq<nat>) {
    forall i | 0 <= i < |slots| :: slots[i] in b.entries && Ready(b.entries[slots[i]].trajectory)
  }

  lemma CatchesUp(m: Trajectory, o: Trajectory)
    requires Decoded(m, o) && Ready(m)
    ensures SynchronizeOf(m, o.promptLength, o.tokens, o.decodedLength) == Some(o) && Ready(o)
  {
    var ops: seq<Op> :| OnlyDecodes(ops) && RunOps(m, ops) == o;
    MirrorCatchesUp(m, ops);
    DecodingOnlyCounts(m, ops);
  }

  /** `m` is behind `o` in these slots and has what it takes to catch up. */
  ghost predicate Behind(m: Book, o: Book, slots: seq<nat>) {
    && SameFrame(m, o)
    && forall i | 0 <= i < |slots| ::
         && slots[i] in m.entries && Ready(m.entries[slots[i]].trajectory)
         && Decoded(m.entries[slots[i]].trajectory, o.entries[slots[i]].trajectory)
  }

  lemma SlotCatchesUp(m: Book, o: Book, slots: seq<nat>, i: nat)
    requires Behind(m, o, slots) && i < |slots|
    ensures var slot := slots[i];
            && slot in m.entries && slot in o.entries
            && Base(o, slot) == Base(m, slot) && MaxTokens(o, slot) == MaxTokens(m, slot)
            && var t := o.entries[slot].trajectory;
               SynchronizeOf(m.entries[slot].trajectory, t.promptLength, t.tokens, t.decodedLength) == Some(t)
    ensures Behind(SetTrajectory(m, slots[i], o.entries[slots[i]].trajectory), o, slots)
  {
    hide Ready, SynchronizeOf, Decoded;
    var slot := slots[i];
    DecodedGrows(m.entries[slot].trajectory, o.entries[slot].trajectory);
    CatchesUp(m.entries[slot].trajectory, o.entries[slot].trajectory);
    DecodedItself(o.entries[slot].trajectory);
  }

  /** Taking over the owner's lengths makes one slot the owner's. */
  method CatchUp(owner: QueryBook, mirror: QueryBook, slot: nat)
    requires Paired(owner, mirror) && slot in mirror.book.entries && slot in owner.book.entries
    requires Base(owner.book, slot) == Base(mirror.book, slot) && MaxTokens(owner.book, slot) == MaxTokens(mirror.book, slot)
    requires var t := owner.book.entries[slot].trajectory;
             SynchronizeOf(mirror.book.entries[slot].trajectory, t.promptLength, t.tokens, t.decodedLength) == Some(t)
    modifies mirror
    ensures Paired(owner, mirror)
    ensures mirror.book == SetTrajectory(old(mirror.book), slot, owner.book.entries[slot].trajectory)
  {
    hide Inv, Agrees, SynchronizeOf, Base;
    ghost var o := owner.book.entries[slot].trajectory;
    ActiveSlots(owner.Dictionaries(), owner.storage[..], owner.book);
    SlotFacts(owner.Dictionaries(), owner.storage[..], owner.book, slot);
    var record := owner.records[slot];
    assert mirror.Shared(slot, record.tokenLength) == o.tokens;
    var ok := mirror.SynchronizeMetadata(slot, record.promptLength, record.tokenLength, record.decodedLength);
  }

  /** One rank takes over the slots of the other, one after another. */
  method CatchUpAll(owner: QueryBook, mirror: QueryBook, slots: seq<nat>)
    requires Paired(owner, mirror) && Behind(mirror.book, owner.book, slots)
    modifies mirror
    ensures Paired(owner, mirror) && mirror.book == TakeOver(old(mirror.book), owner.book, slots)
  {
    hide Inv, Agrees, Behind, Base, SynchronizeOf, TakeOver;
    ghost var start := mirror.book;
    TakeOverNone(start, owner.book);
    for n := 0 to |slots|
      invariant Paired(owner, mirror) && Behind(mirror.book, owner.book, slots)
      invariant mirror.book == TakeOver(start, owner.book, slots[..n])
    {
      SlotCatchesUp(start, owner.book, slots, n);
      SlotCatchesUp(mirror.book, owner.book, slots, n);
      TakeOverMore(start, owner.book, slots, n);
      CatchUp(owner, mirror, slots[n]);
    }
    assert slots[..|slots|] == slots;
  }

  lemma TakeOverNone(m: Book, o: Book)
    ensures TakeOver(m, o, []) == m
  {
  }

  lemma TakeOverMore(m: Book, o: Book, slots: seq<nat>, n: nat)
    requires n < |slots| && slots[n] in m.entries && slots[n] in o.entries
    ensures var some := TakeOver(m, o, slots[..n]);
            && slots[n] in some.entries
            && SetTrajectory(some, slots[n], o.entries[slots[n]].trajectory) == TakeOver(m, o, slots[..n + 1])
  {
    assert slots[..n + 1] == slots[..n] + [slots[n]];
  }

  /** After the interval each rank is behind the other in the slots it does not own. */
  lemma ApartIsBehind(start: Book, l: Book, r: Book, own: seq<nat>, others: seq<nat>, joint: Book)
    requires Apart(start, l, r, own, others, joint) && AllReady(start, own) && AllReady(start, others)
    ensures Behind(r, l, own) && joint == TakeOver(r, l, own)
    ensures Behind(l, joint, others) && TakeOver(l, joint, others) == joint
  {
    hide Inv, Ready, Decoded;
    TakeOverMeets(start, l, r, own, others);
    assert SameFrame(r, l) && SameFrame(l, joint);
  }

  lemma JointIsReady(start: Book, l: Book, r: Book, own: seq<nat>, others: seq<nat>, joint: Book, slots: seq<nat>)
    requires Apart(start, l, r, own, others, joint) && AllReady(start, slots)
    ensures AllReady(joint, slots)
  {
    hide Inv, Ready, Decoded;
    forall i | 0 <= i < |slots| ensures slots[i] in joint.entries && Ready(joint.entries[slots[i]].trajectory) {
      var s := slots[i];
      if s in others {
        CatchesUp(start.entries[s].trajectory, r.entries[s].trajectory);
      } else if s in own {
        CatchesUp(start.entries[s].trajectory, l.entries[s].trajectory);
      }
    }
  }

  /** Each rank takes over the other's slots: both then hold the joint book. */
  method Exchange(left: QueryBook, right: QueryBook, own: seq<nat>, others: seq<nat>, ghost start: Book, ghost joint: Book)
    requires Paired(left, right) && Apart(start, left.book, right.book, own, others, joint)
    requires AllReady(start, own) && AllReady(start, others)
    modifies left, right
    ensures Paired(left, right) && left.book == joint && right.book == joint
  {
    hide Inv, Agrees, Apart, Behind, TakeOver, AllReady;
    ApartIsBehind(start, left.book, right.book, own, others, joint);
    CatchUpAll(left, right, own);
    CatchUpAll(right, left, others);
  }

  /** A re-entry both ranks see: the slot and its new prompt length. */
  datatype Reentry = Reentry(slot: nat, promptLength: int)

  ghost function AfterReentry(b: Book, r: Reentry): Book {
    var after := OnSlot(b, r.slot, BeginReentry(r.promptLength));
    if after.None? then b else after.value
  }

  ghost function RunReentries(b: Book, rs: seq<Reentry>): Book {
    if rs == [] then b else AfterReentry(RunReentries(b, Init(rs)), Last(rs))
  }

  lemma ReentryKeepsReady(b: Book, r: Reentry, slots: seq<nat>)
    requires AllReady(b, slots)
    ensures AllReady(AfterReentry(b, r), slots)
  {
    var op := BeginReentry(r.promptLength);
    if OnSlot(b, r.slot, op).Some? && Ready(b.entries[r.slot].trajectory) {
      PromptOpKeeps(b.entries[r.slot].trajectory, op);
    }
    hide Aligned, Generated;
  }

  method ReenterBoth(left: QueryBook, right: QueryBook, r: Reentry)
    requires Paired(left, right) && left.book == right.book
    modifies left, right
    ensures Paired(left, right) && left.book == right.book && left.book == AfterReentry(old(left.book), r)
  {
    hide Inv, Agrees;
    var turn := left.BeginReentryTurn(r.slot, r.promptLength);
    turn := right.BeginReentryTurn(r.slot, r.promptLength);
  }

  method ReenterAll(left: QueryBook, right: QueryBook, rs: seq<Reentry>, ghost slots: seq<nat>)
    requires Paired(left, right) && left.book == right.book && AllReady(left.book, slots)
    modifies left, right
    ensures Paired(left, right) && left.book == right.book && AllReady(left.book, slots)
    ensures left.book == RunReentries(old(left.book), rs)
  {
    hide Inv, Agrees, AfterReentry, AllReady;
    ghost var start := left.book;
    for n := 0 to |rs|
      invariant Paired(left, right) && left.book == right.book && AllReady(left.book, slots)
      invariant left.book == RunReentries(start, rs[..n])
    {
      assert Init(rs[..n + 1]) == rs[..n] && Last(rs[..n + 1]) == rs[n];
      ReentryKeepsReady(left.book, rs[n], slots);
      ReenterBoth(left, right, rs[n]);
    }
    assert rs[..|rs|] == rs;
  }

  // ---- whole intervals ------------------------------------------------------------------------------

  datatype Interval = Interval(moves: seq<Move>, reentries: seq<Reentry>)

  ghost function AfterInterval(b: Book, i: Interval): Book {
    RunReentries(RunMoves(b, i.moves), i.reentries)
  }

  /**
   A decode interval: each rank runs the steps of the slots it owns, in any
   interleaving, then takes over the lengths of the slots it does not own, and
   both record the same re-entries.  Two equal books end up equal again, and
   equal to the book of one rank that did everything.
   */
  method DecodePhase(left: QueryBook, right: QueryBook, own: seq<nat>, others: seq<nat>, interval: Interval)
    requires Paired(left, right) && left.book == right.book && Disjoint(own, others)
    requires AllReady(left.book, own) && AllReady(left.book, others) && Owned(interval.moves, own, others)
    modifies left, right, left.storage
    ensures Paired(left, right) && left.book == right.book && AllReady(left.book, own) && AllReady(left.book, others)
    ensures left.book == AfterInterval(old(left.book), interval)
  {
    hide Inv, Agrees, Apart, AllReady, RunMoves, RunReentries, Owned;
    ghost var start := left.book;
    ReadyParts(start, own, others);
    ghost var joint := BothDecode(left, right, interval.moves, own, others);
    JointIsReady(start, left.book, right.book, own, others, joint, own + others);
    ReadyParts(joint, own, others);
    Exchange(left, right, own, others, start, joint);
    ReenterAll(left, right, interval.reentries, own + others);
    ReadyParts(left.book, own, others);
  }

  lemma ReadyParts(b: Book, own: seq<nat>, others: seq<nat>)
    ensures AllReady(b, own + others) <==> AllReady(b, own) && AllReady(b, others)
  {
    hide Ready;
    var all := own + others;
    if AllReady(b, all) {
      forall i | 0 <= i < |own| ensures own[i] in b.entries && Ready(b.entries[own[i]].trajectory) { assert all[i] == own[i]; }
      forall i | 0 <= i < |others| ensures others[i] in b.entries && Ready(b.entries[others[i]].trajectory) {
        assert all[|own| + i] == others[i];
      }
    }
  }

  ghost function AfterIntervals(b: Book, intervals: seq<Interval>): Book {
    if intervals == [] then b else AfterInterval(AfterIntervals(b, Init(intervals)), Last(intervals))
  }

  /** Interval after interval, both ranks hold the same book. */
  method Serve(left: QueryBook, right: QueryBook, own: seq<nat>, others: seq<nat>, intervals: seq<Interval>)
    requires Paired(left, right) && left.book == right.book && Disjoint(own, others)
    requires AllReady(left.book, own) && AllReady(left.book, others)
    requires forall n | 0 <= n < |intervals| :: Owned(intervals[n].moves, own, others)
    modifies left, right, left.storage
    ensures Paired(left, right) && left.book == right.book && AllReady(left.book, own) && AllReady(left.book, others)
    ensures left.book == AfterIntervals(old(left.book), intervals)
  {
    hide Inv, Agrees, AllReady, Owned, AfterInterval, Disjoint;
    ghost var start := left.book;
    for n := 0 to |intervals|
      invariant Paired(left, right) && left.book == right.book && AllReady(left.book, own) && AllReady(left.book, others)
      invariant left.book == AfterIntervals(start, intervals[..n])
    {
      assert Init(intervals[..n + 1]) == intervals[..n] && Last(intervals[..n + 1]) == intervals[n];
      DecodePhase(left, right, own, others, intervals[n]);
    }
    assert intervals[..|intervals|] == intervals;
  }
}
