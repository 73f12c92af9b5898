/**
 The batch of live sequences: a dictionary by uuid with three maintained
 indexes and a membership stamp drawn from one process-wide counter.
 */
module SequenceBatches {
  import opened Options

  datatype Status = QUEUEING | IN_PREFILL | PREFILLED | IN_DECODE | ON_HOLD | COMPLETED | EVICTED

  function NextStatuses(s: Status): set<Status> {
    match s
    case QUEUEING => {IN_PREFILL}
    case IN_PREFILL => {PREFILLED}
    case PREFILLED => {IN_DECODE, COMPLETED}
    case IN_DECODE => {ON_HOLD, COMPLETED, EVICTED}
    case ON_HOLD => {IN_DECODE, COMPLETED, EVICTED}
    case COMPLETED => {}
    case EVICTED => {IN_PREFILL}
  }

  /** From which statuses a sequence may enter `to`. */
  predicate MayEnter(from: Status, to: Status) {
    match to
    case QUEUEING => false
    case IN_PREFILL => from == QUEUEING || from == EVICTED
    case PREFILLED => from == IN_PREFILL
    case IN_DECODE => from == PREFILLED || from == ON_HOLD
    case ON_HOLD => from == IN_DECODE
    case COMPLETED => from == PREFILLED || from == IN_DECODE || from == ON_HOLD
    case EVICTED => from == IN_DECODE || from == ON_HOLD
  }

  lemma EdgesIff(from: Status, to: Status)
    ensures to in NextStatuses(from) <==> MayEnter(from, to)
  {
  }

  /** A life: the statuses of one sequence from its creation on, each an allowed move from the one before. */
  ghost predicate Lives(life: seq<Status>) {
    life != [] && life[0] == QUEUEING && forall i | 0 < i < |life| :: life[i] in NextStatuses(life[i - 1])
  }

  function Times(life: seq<Status>, s: Status): nat {
    if life == [] then 0 else Times(life[..|life| - 1], s) + (if life[|life| - 1] == s then 1 else 0)
  }

  /** A started sequence was prefilled once more than it was evicted, unless it is evicted now. */
  lemma {:induction false} PrefillsPayEvictions(life: seq<Status>)
    requires Lives(life)
    ensures var now := life[|life| - 1];
            && Times(life, IN_PREFILL) == Times(life, EVICTED) + (if now == QUEUEING || now == EVICTED then 0 else 1)
            && Times(life, PREFILLED) + (if now == IN_PREFILL then 1 else 0) == Times(life, IN_PREFILL)
            && Times(life, QUEUEING) == 1
    decreases |life|
  {
    var n := |life| - 1;
    if n > 0 {
      var before := life[..n];
      assert Lives(before) by { forall i | 0 < i < n ensures before[i] in NextStatuses(before[i - 1]) { assert life[i] in NextStatuses(life[i - 1]); } }
      PrefillsPayEvictions(before);
      assert life[n] in NextStatuses(life[n - 1]);
    } else {
      assert life[..0] == [];
    }
  }

  /** A life never decodes what was not prefilled, and completion ends it. */
  lemma CompletionIsFinal(life: seq<Status>, i: nat)
    requires Lives(life) && i < |life|
    ensures life[i] == COMPLETED ==> i == |life| - 1
    ensures life[i] == IN_DECODE ==> i > 0 && (life[i - 1] == PREFILLED || life[i - 1] == ON_HOLD)
  {
    if i + 1 < |life| { assert life[i + 1] in NextStatuses(life[i]); }
    if i > 0 { EdgesIff(life[i - 1], life[i]); }
  }

  class SequenceEntry {
    const uuid: string
    const globalIdx: int
    var status: Status
    var assignedRank: Option<int>

    constructor (uuid: string, globalIdx: int)
      ensures this.uuid == uuid && this.globalIdx == globalIdx && status == QUEUEING && assignedRank == None
    {
      this.uuid, this.globalIdx, status, assignedRank := uuid, globalIdx, QUEUEING, None;
    }

    /** Moves along an allowed edge, or refuses and changes nothing. */
    method StatusTransition(newStatus: Status) returns (ok: bool)
      modifies this`status
      ensures ok <==> newStatus in NextStatuses(old(status))
      ensures ok <==> MayEnter(old(status), newStatus)
      ensures status == if ok then newStatus else old(status)
    {
      EdgesIff(status, newStatus);
      ok := newStatus in NextStatuses(status);
      if ok { status := newStatus; }
    }
  }

  type Members = map<string, SequenceEntry>

  /** What a stamp was issued for. */
  datatype Stamp = Stamp(batch: SequenceBatch, members: Members)

  /** The process-wide stamp counter, with a record of what each stamp was issued for. */
  class EpochSource {
    var next: nat
    ghost var issued: map<nat, Stamp>

    ghost predicate Valid()
      reads this
    {
      forall e | e in issued :: e < next
    }

    constructor ()
      ensures Valid() && issued == map[] && next == 1
    {
      next, issued := 1, map[];
    }

    method Draw(ghost stamp: Stamp) returns (epoch: nat)
      requires Valid()
      modifies this
      ensures Valid() && epoch == old(next) && epoch !in old(issued)
      ensures issued == old(issued)[epoch := stamp] && Extends(old(issued), issued)
    {
      epoch := next;
      next := next + 1;
      issued := issued[epoch := stamp];
    }
  }

  /** Stamps already issued keep their meaning. */
  ghost predicate Extends(before: map<nat, Stamp>, after: map<nat, Stamp>) {
    forall e | e in before :: e in after && after[e] == before[e]
  }

  // ---- an index of labelled members -----------------------------------------------------

  /** The uuids filed under a label. */
  function Filed<K>(index: map<K, set<string>>, k: K): set<string> {
    if k in index then index[k] else {}
  }

  /** The index files every uuid under its own label and nowhere else: it is what a scan computes. */
  ghost predicate Indexes<K(!new)>(index: map<K, set<string>>, labels: map<string, K>) {
    forall k, u :: u in Filed(index, k) <==> u in labels && labels[u] == k
  }

  function Discard<K>(index: map<K, set<string>>, k: K, u: string): map<K, set<string>> {
    if k in index then index[k := index[k] - {u}] else index
  }

  function File<K>(index: map<K, set<string>>, k: K, u: string): map<K, set<string>> {
    index[k := Filed(index, k) + {u}]
  }

  lemma DiscardIndexes<K(!new)>(index: map<K, set<string>>, labels: map<string, K>, u: string)
    requires Indexes(index, labels) && u in labels
    ensures Indexes(Discard(index, labels[u], u), labels - {u})
  {
    var k := labels[u];
    assert u in Filed(index, k);
    forall j | true ensures Filed(Discard(index, k, u), j) == Filed(index, j) - (if j == k then {u} else {}) {}
  }

  lemma FileIndexes<K(!new)>(index: map<K, set<string>>, labels: map<string, K>, u: string, k: K)
    requires Indexes(index, labels) && u !in labels
    ensures Indexes(File(index, k, u), labels[u := k])
  {
    forall j | true ensures Filed(File(index, k, u), j) == Filed(index, j) + (if j == k then {u} else {}) {}
  }

  /** Sizes decide whether a label covers everything. */
  lemma AllUnderOneLabel<K(!new)>(index: map<K, set<string>>, labels: map<string, K>, k: K)
    requires Indexes(index, labels)
    ensures |Filed(index, k)| == |labels| <==> forall u | u in labels :: labels[u] == k
  {
    var rest := labels.Keys - Filed(index, k);
    SplitBySize(labels.Keys, Filed(index, k));
    assert forall u | u in labels :: u in rest <==> labels[u] != k;
  }

  lemma SplitBySize(all: set<string>, part: set<string>)
    requires part <= all
    ensures |part| == |all| <==> all - part == {}
  {
    assert all == part + (all - part);
  }

  /** Moving one uuid to another label. */
  lemma RelabelIndexes<K(!new)>(index: map<K, set<string>>, labels: map<string, K>, u: string, k: K)
    requires Indexes(index, labels) && u in labels
    ensures Indexes(File(Discard(index, labels[u], u), k, u), labels[u := k])
  {
    DiscardIndexes(index, labels, u);
    FileIndexes(Discard(index, labels[u], u), labels - {u}, u, k);
    assert (labels - {u})[u := k] == labels[u := k];
  }

  // ---- the global-index slots -----------------------------------------------------------------

  /** Every entry sits under its own uuid. */
  ghost predicate Keyed(members: Members) {
    forall u | u in members :: members[u].uuid == u
  }

  /** No slot outlives its sequence. */
  ghost predicate GidSound(slots: map<int, SequenceEntry>, members: Members) {
    forall g | g in slots :: slots[g].globalIdx == g && slots[g].uuid in members && members[slots[g].uuid] == slots[g]
  }

  /** Every member is found under its global index: the slots are what a scan computes. */
  ghost predicate GidExact(slots: map<int, SequenceEntry>, members: Members) {
    && GidSound(slots, members)
    && forall u | u in members :: members[u].globalIdx in slots && slots[members[u].globalIdx] == members[u]
  }

  /** The members their own global index does not lead to. */
  function Hidden(slots: map<int, SequenceEntry>, members: Members): set<string> {
    set u | u in members && !(members[u].globalIdx in slots && slots[members[u].globalIdx] == members[u])
  }

  /** The other members that hold an entry's global index. */
  function Holders(e: SequenceEntry, members: Members): set<string> {
    set u | u in members && u != e.uuid && members[u].globalIdx == e.globalIdx
  }

  function DropSlot(slots: map<int, SequenceEntry>, e: SequenceEntry): map<int, SequenceEntry> {
    if e.globalIdx in slots && slots[e.globalIdx] == e then slots - {e.globalIdx} else slots
  }

  lemma DropSlotKeeps(slots: map<int, SequenceEntry>, members: Members, u: string)
    requires Keyed(members) && GidSound(slots, members) && u in members
    ensures GidSound(DropSlot(slots, members[u]), members - {u})
    ensures Hidden(DropSlot(slots, members[u]), members - {u}) == Hidden(slots, members) - {u}
  {
  }

  lemma TakeSlotKeeps(slots: map<int, SequenceEntry>, members: Members, e: SequenceEntry)
    requires Keyed(members) && GidSound(slots, members) && e.uuid !in members
    ensures GidSound(slots[e.globalIdx := e], members[e.uuid := e])
    ensures Hidden(slots[e.globalIdx := e], members[e.uuid := e]) == Hidden(slots, members) + Holders(e, members)
  {
  }

  const ALL_STATUSES: set<Status> := {QUEUEING, IN_PREFILL, PREFILLED, IN_DECODE, ON_HOLD, COMPLETED, EVICTED}

  lemma AnyStatus(s: Status)
    ensures s in ALL_STATUSES
  {
  }

  ghost function Statuses(members: Members): map<string, Status>
    reads members.Values
  {
    map u | u in members :: members[u].status
  }

  ghost function Ranks(members: Members): map<string, int>
    reads members.Values
  {
    map u | u in members && members[u].assignedRank.Some? :: members[u].assignedRank.value
  }

  /** All three indexes are what a scan of the members computes. */
  ghost predicate Agree(members: Members, statuses: map<string, Status>, ranks: map<string, int>, tables: Tables) {
    && Keyed(members)
    && tables.byStatus.Keys == ALL_STATUSES
    && Indexes(tables.byStatus, statuses)
    && Indexes(tables.byRank, ranks)
    && GidSound(tables.byGid, members)
  }

  datatype Tables = Tables(byStatus: map<Status, set<string>>, byRank: map<int, set<string>>,
                           byGid: map<int, SequenceEntry>)

  function DiscardRank(byRank: map<int, set<string>>, rank: Option<int>, u: string): map<int, set<string>> {
    if rank.Some? then Discard(byRank, rank.value, u) else byRank
  }

  function FileRank(byRank: map<int, set<string>>, rank: Option<int>, u: string): map<int, set<string>> {
    if rank.Some? then File(byRank, rank.value, u) else byRank
  }

  function Vacated(slots: map<int, SequenceEntry>, members: Members, u: string): map<int, SequenceEntry> {
    if u in members then DropSlot(slots, members[u]) else slots
  }

  lemma RemovalAgrees(members: Members, t: Tables, u: string)
    requires Agree(members, Statuses(members), Ranks(members), t) && u in members
    ensures var e, rest := members[u], members - {u};
            Agree(rest, Statuses(rest), Ranks(rest),
                  Tables(Discard(t.byStatus, e.status, u), DiscardRank(t.byRank, e.assignedRank, u), DropSlot(t.byGid, e)))
    ensures Hidden(DropSlot(t.byGid, members[u]), members - {u}) == Hidden(t.byGid, members) - {u}
  {
    hide Hidden;
    var e := members[u];
    AnyStatus(e.status);
    DiscardIndexes(t.byStatus, Statuses(members), u);
    assert Statuses(members - {u}) == Statuses(members) - {u};
    if e.assignedRank.Some? { DiscardIndexes(t.byRank, Ranks(members), u); }
    assert Ranks(members - {u}) == Ranks(members) - {u};
    assert u !in Ranks(members) ==> Ranks(members) - {u} == Ranks(members);
    DropSlotKeeps(t.byGid, members, u);
  }

  lemma AdditionAgrees(members: Members, t: Tables, e: SequenceEntry)
    requires Agree(members, Statuses(members), Ranks(members), t) && e.uuid !in members
    ensures var u, all := e.uuid, members[e.uuid := e];
            Agree(all, Statuses(all), Ranks(all),
                  Tables(File(t.byStatus, e.status, u), FileRank(t.byRank, e.assignedRank, u), t.byGid[e.globalIdx := e]))
    ensures Hidden(t.byGid[e.globalIdx := e], members[e.uuid := e]) == Hidden(t.byGid, members) + Holders(e, members)
  {
    hide Indexes, GidSound, Hidden, Holders, Statuses, Ranks;
    AnyStatus(e.status);
    LabelsOfAdded(members, e);
    FileIndexes(t.byStatus, Statuses(members), e.uuid, e.status);
    if e.assignedRank.Some? { FileIndexes(t.byRank, Ranks(members), e.uuid, e.assignedRank.value); }
    TakeSlotKeeps(t.byGid, members, e);
  }

  lemma LabelsOfAdded(members: Members, e: SequenceEntry)
    requires e.uuid !in members
    ensures var all := members[e.uuid := e];
            && Statuses(all) == Statuses(members)[e.uuid := e.status]
            && Ranks(all) == (if e.assignedRank.Some? then Ranks(members)[e.uuid := e.assignedRank.value] else Ranks(members))
    ensures e.uuid !in Statuses(members) && e.uuid !in Ranks(members)
  {
  }

  lemma StatusMoveAgrees(members: Members, statuses: map<string, Status>, ranks: map<string, int>, t: Tables,
                         u: string, s: Status)
    requires Agree(members, statuses, ranks, t) && u in statuses
    ensures Agree(members, statuses[u := s], ranks, t.(byStatus := File(Discard(t.byStatus, statuses[u], u), s, u)))
  {
    AnyStatus(s);
    AnyStatus(statuses[u]);
    RelabelIndexes(t.byStatus, statuses, u, s);
  }

  lemma RankMoveAgrees(members: Members, statuses: map<string, Status>, ranks: map<string, int>, t: Tables,
                       u: string, r: int)
    requires Agree(members, statuses, ranks, t)
    ensures var from := if u in ranks then Some(ranks[u]) else None;
            Agree(members, statuses, ranks[u := r], t.(byRank := File(DiscardRank(t.byRank, from, u), r, u)))
  {
    if u in ranks { RelabelIndexes(t.byRank, ranks, u, r); } else { FileIndexes(t.byRank, ranks, u, r); }
  }

  lemma TableFacts(members: Members, statuses: map<string, Status>, ranks: map<string, int>, t: Tables, s: Status)
    requires Agree(members, statuses, ranks, t)
    ensures s in t.byStatus && Keyed(members)
  {
    AnyStatus(s);
  }

  lemma HoldersOfOthers(e: SequenceEntry, members: Members)
    ensures Holders(e, members - {e.uuid}) == Holders(e, members)
  {
  }

  // ---- the global index over whole histories ------------------------------------------------

  /** A change of the membership, as the global index sees it. */
  datatype Change = Added(entry: SequenceEntry) | Removed(gone: string) {
    function Uuid(): string { if Added? then entry.uuid else gone }
  }

  datatype Roll = Roll(slots: map<int, SequenceEntry>, members: Members)

  /** A change first vacates the slot of the entry it displaces; an addition then takes its own. */
  function Enrol(r: Roll, c: Change): Roll {
    var slots := Vacated(r.slots, r.members, c.Uuid());
    match c
    case Added(e) => Roll(slots[e.globalIdx := e], r.members[e.uuid := e])
    case Removed(u) => Roll(slots, r.members - {u})
  }

  function EnrolAll(changes: seq<Change>): Roll {
    if changes == [] then Roll(map[], map[]) else Enrol(EnrolAll(changes[..|changes| - 1]), changes[|changes| - 1])
  }

  ghost predicate RollOk(r: Roll) { Keyed(r.members) && GidSound(r.slots, r.members) }

  /** What one change does to the members the index has lost, from any state of it. */
  lemma EnrolHides(r: Roll, c: Change)
    requires RollOk(r)
    ensures RollOk(Enrol(r, c))
    ensures var after := Enrol(r, c);
            Hidden(after.slots, after.members) ==
              Hidden(r.slots, r.members) - {c.Uuid()} + (if c.Added? then Holders(c.entry, r.members) else {})
  {
    hide Hidden, Holders, GidSound;
    var u, slots := c.Uuid(), Vacated(r.slots, r.members, c.Uuid());
    VacatedHides(r, u);
    if c.Added? {
      TakeSlotKeeps(slots, r.members - {u}, c.entry);
      HoldersOfOthers(c.entry, r.members);
      assert (r.members - {u})[u := c.entry] == r.members[u := c.entry];
    }
  }

  lemma VacatedHides(r: Roll, u: string)
    requires RollOk(r)
    ensures RollOk(Roll(Vacated(r.slots, r.members, u), r.members - {u}))
    ensures Hidden(Vacated(r.slots, r.members, u), r.members - {u}) == Hidden(r.slots, r.members) - {u}
  {
    if u in r.members {
      DropSlotKeeps(r.slots, r.members, u);
    } else {
      assert r.members - {u} == r.members;
    }
  }

  /** The `j`-th change added `u`, and no later one touched it. */
  ghost predicate StandsSince(changes: seq<Change>, u: string, j: nat) {
    && j < |changes| && changes[j].Added? && changes[j].entry.uuid == u
    && forall i | j < i < |changes| :: changes[i].Uuid() != u
  }

  /** The `k`-th change added an entry with this global index. */
  ghost predicate Takes(changes: seq<Change>, gid: int, k: nat) {
    k < |changes| && changes[k].Added? && changes[k].entry.globalIdx == gid
  }

  /**
   Over every history of additions and removals: a live member is lost to the
   global index exactly when, since it was added, another entry was added with
   its global index, whether or not that one is still there.
   */
  lemma {:induction false} HiddenIffOvertaken(changes: seq<Change>, u: string, j: nat)
    requires StandsSince(changes, u, j)
    ensures var r, e := EnrolAll(changes), changes[j].entry;
            && RollOk(r) && u in r.members && r.members[u] == e
            && (u in Hidden(r.slots, r.members) <==> exists k :: j < k && Takes(changes, e.globalIdx, k))
    decreases |changes|
  {
    hide Hidden, RollOk, Enrol;
    var n, e := |changes| - 1, changes[j].entry;
    var before := EnrolAll(changes[..n]);
    EveryRollOk(changes[..n]);
    EnrolHides(before, changes[n]);
    EnrolMember(before, changes[n], u);
    if j < n {
      assert StandsSince(changes[..n], u, j);
      HiddenIffOvertaken(changes[..n], u, j);
      assert forall k: nat | k < n :: Takes(changes, e.globalIdx, k) <==> Takes(changes[..n], e.globalIdx, k);
      if Takes(changes, e.globalIdx, n) { assert u in Holders(changes[n].entry, before.members); }
    }
  }

  lemma EnrolMember(r: Roll, c: Change, u: string)
    ensures var after := Enrol(r, c);
            && (c.Uuid() != u ==> (u in after.members <==> u in r.members))
            && (c.Uuid() != u && u in r.members ==> after.members[u] == r.members[u])
            && (c.Added? && c.entry.uuid == u ==> u in after.members && after.members[u] == c.entry)
  {
  }

  lemma {:induction false} EveryRollOk(changes: seq<Change>)
    ensures RollOk(EnrolAll(changes))
    decreases |changes|
  {
    if changes != [] {
      EveryRollOk(changes[..|changes| - 1]);
      EnrolHides(EnrolAll(changes[..|changes| - 1]), changes[|changes| - 1]);
    }
  }

  lemma ExactIffNothingHidden(slots: map<int, SequenceEntry>, members: Members)
    requires GidSound(slots, members)
    ensures GidExact(slots, members) <==> Hidden(slots, members) == {}
  {
    if Hidden(slots, members) == {} {
      forall u | u in members ensures members[u].globalIdx in slots && slots[members[u].globalIdx] == members[u] {
        assert u !in Hidden(slots, members);
      }
    }
  }

  /** When the global index is exact after a change: nobody else was lost, and an addition hides nobody. */
  lemma ExactAfter(r: Roll, c: Change)
    requires RollOk(r)
    ensures var after := Enrol(r, c);
            GidExact(after.slots, after.members) <==>
              Hidden(r.slots, r.members) <= {c.Uuid()} && (c.Added? ==> Holders(c.entry, r.members) == {})
  {
    EnrolHides(r, c);
    var after := Enrol(r, c);
    ExactIffNothingHidden(after.slots, after.members);
    hide Enrol, Hidden, Holders, GidExact;
    assert forall a: set<string>, b: set<string>, x :: a - {x} + b == {} <==> a <= {x} && b == {};
  }

  class SequenceBatch {
    const epochs: EpochSource
    var sequences: Members
    var statusIndex: map<Status, set<string>>
    var rankIndex: map<int, set<string>>
    var gidIndex: map<int, SequenceEntry>
    var compositionEpoch: nat

    ghost predicate Stamped()
      reads this, epochs
    {
      && epochs.Valid()
      && compositionEpoch in epochs.issued
      && epochs.issued[compositionEpoch] == Stamp(this, sequences)
    }

    ghost function Indices(): Tables
      reads `statusIndex, `rankIndex, `gidIndex
    {
      Tables(statusIndex, rankIndex, gidIndex)
    }

    ghost predicate Indexed()
      reads `sequences, `statusIndex, `rankIndex, `gidIndex, sequences.Values
    {
      Agree(sequences, Statuses(sequences), Ranks(sequences), Indices())
    }

    ghost predicate Valid()
      reads this, epochs, sequences.Values
    {
      Indexed() && Stamped()
    }

    ghost function Roster(): Roll
      reads `gidIndex, `sequences
    {
      Roll(gidIndex, sequences)
    }

    lemma RosterOk()
      requires Indexed()
      ensures RollOk(Roster())
    {
    }

    constructor (source: EpochSource)
      requires source.Valid()
      modifies source
      ensures Valid() && Roster() == EnrolAll([]) && sequences == map[] && epochs == source
      ensures Extends(old(source.issued), source.issued) && compositionEpoch !in old(source.issued)
    {
      epochs := source;
      sequences, rankIndex, gidIndex := map[], map[], map[];
      statusIndex := map s | s in ALL_STATUSES :: {};
      new;
      compositionEpoch := epochs.Draw(Stamp(this, map[]));
    }

    /** Takes one member's entry out of every index. */
    method Unindex(e: SequenceEntry)
      requires e.status in statusIndex
      modifies this`statusIndex, this`rankIndex, this`gidIndex
      ensures statusIndex == Discard(old(statusIndex), e.status, e.uuid)
      ensures rankIndex == DiscardRank(old(rankIndex), e.assignedRank, e.uuid)
      ensures gidIndex == DropSlot(old(gidIndex), e)
    {
      statusIndex := statusIndex[e.status := statusIndex[e.status] - {e.uuid}];
      if e.assignedRank.Some? && e.assignedRank.value in rankIndex {
        rankIndex := rankIndex[e.assignedRank.value := rankIndex[e.assignedRank.value] - {e.uuid}];
      }
      if e.globalIdx in gidIndex && gidIndex[e.globalIdx] == e { gidIndex := gidIndex - {e.globalIdx}; }
    }

    /** Adds one entry to every index. */
    method Index(e: SequenceEntry)
      requires e.status in statusIndex
      modifies this`statusIndex, this`rankIndex, this`gidIndex
      ensures statusIndex == File(old(statusIndex), e.status, e.uuid)
      ensures rankIndex == FileRank(old(rankIndex), e.assignedRank, e.uuid)
      ensures gidIndex == old(gidIndex)[e.globalIdx := e]
    {
      statusIndex := statusIndex[e.status := statusIndex[e.status] + {e.uuid}];
      if e.assignedRank.Some? {
        if e.assignedRank.value !in rankIndex { rankIndex := rankIndex[e.assignedRank.value := {}]; }
        rankIndex := rankIndex[e.assignedRank.value := rankIndex[e.assignedRank.value] + {e.uuid}];
      }
      gidIndex := gidIndex[e.globalIdx := e];
    }

    /** Takes the member with this uuid, if there is one, out of every index. */
    method Forget(uuid: string)
      requires Indexed()
      modifies this`statusIndex, this`rankIndex, this`gidIndex
      ensures var rest := sequences - {uuid}; Agree(rest, Statuses(rest), Ranks(rest), Indices())
      ensures gidIndex == Vacated(old(gidIndex), sequences, uuid)
    {
      hide Agree, Hidden;
      if uuid in sequences {
        var e := sequences[uuid];
        TableFacts(sequences, Statuses(sequences), Ranks(sequences), Indices(), e.status);
        RemovalAgrees(sequences, Indices(), uuid);
        Unindex(e);
      } else {
        assert sequences - {uuid} == sequences;
      }
    }

    /** Adds the entry, or replaces the member with its uuid. */
    method AddSequence(e: SequenceEntry)
      requires Valid()
      modifies this, epochs
      ensures Valid() && sequences == old(sequences)[e.uuid := e]
      ensures Roster() == Enrol(old(Roster()), Added(e))
      ensures Extends(old(epochs.issued), epochs.issued) && compositionEpoch !in old(epochs.issued)
      ensures GidExact(gidIndex, sequences) <==>
                old(Hidden(gidIndex, sequences)) <= {e.uuid} && Holders(e, old(sequences)) == {}
    {
      RosterOk();
      ExactAfter(Roster(), Added(e));
      hide RollOk, GidExact, Holders, Hidden, Indexed, Statuses, Ranks, Vacated, Extends, Enrol, Agree;
      Replace(e);
      Restamp(sequences);
    }

    /** A new stamp for these members. */
    method Restamp(ghost members: Members)
      requires epochs.Valid()
      modifies this`compositionEpoch, epochs
      ensures epochs.Valid() && compositionEpoch in epochs.issued
      ensures epochs.issued[compositionEpoch] == Stamp(this, members)
      ensures Extends(old(epochs.issued), epochs.issued) && compositionEpoch !in old(epochs.issued)
    {
      hide Extends;
      compositionEpoch := epochs.Draw(Stamp(this, members));
    }

    /** The dictionary and index part of adding an entry. */
    method Replace(e: SequenceEntry)
      requires Indexed()
      modifies this`sequences, this`statusIndex, this`rankIndex, this`gidIndex
      ensures sequences == old(sequences)[e.uuid := e] && Indexed()
      ensures Roster() == Enrol(old(Roster()), Added(e))
    {
      hide Agree, Statuses, Ranks, Vacated, Indexed;
      Forget(e.uuid);
      Enter(e);
    }

    /** Puts an entry no index mentions into the dictionary and every index. */
    method Enter(e: SequenceEntry)
      requires var others := sequences - {e.uuid}; Agree(others, Statuses(others), Ranks(others), Indices())
      modifies this`sequences, this`statusIndex, this`rankIndex, this`gidIndex
      ensures sequences == old(sequences)[e.uuid := e] && Indexed()
      ensures gidIndex == old(gidIndex)[e.globalIdx := e]
    {
      hide Hidden, Agree, Statuses, Ranks;
      ghost var others := sequences - {e.uuid};
      AdditionAgrees(others, Indices(), e);
      TableFacts(others, Statuses(others), Ranks(others), Indices(), e.status);
      assert others[e.uuid := e] == sequences[e.uuid := e];
      sequences := sequences[e.uuid := e];
      Index(e);
    }

    /** Removes the member from the dictionary and every index; the stamp moves either way. */
    method RemoveSequence(uuid: string) returns (e: Option<SequenceEntry>)
      requires Valid()
      modifies this, epochs
      ensures Valid() && sequences == old(sequences) - {uuid}
      ensures Roster() == Enrol(old(Roster()), Removed(uuid))
      ensures Extends(old(epochs.issued), epochs.issued) && compositionEpoch !in old(epochs.issued)
      ensures e == if uuid in old(sequences) then Some(old(sequences)[uuid]) else None
      ensures GidExact(gidIndex, sequences) <==> old(Hidden(gidIndex, sequences)) <= {uuid}
    {
      RosterOk();
      ExactAfter(Roster(), Removed(uuid));
      hide RollOk, GidExact, Hidden, Statuses, Ranks, Vacated, Extends, Indexed, Enrol;
      Restamp(sequences - {uuid});
      e := Pop(uuid);
    }

    /** The dictionary and index part of removing a member. */
    method Pop(uuid: string) returns (e: Option<SequenceEntry>)
      requires Indexed()
      modifies this`sequences, this`statusIndex, this`rankIndex, this`gidIndex
      ensures sequences == old(sequences) - {uuid} && Indexed()
      ensures Roster() == Enrol(old(Roster()), Removed(uuid))
      ensures e == if uuid in old(sequences) then Some(old(sequences)[uuid]) else None
    {
      hide Agree, Statuses, Ranks, Vacated;
      e := if uuid in sequences then Some(sequences[uuid]) else None;
      Forget(uuid);
      sequences := sequences - {uuid};
    }

    /** Moves a member along an allowed edge; a missing uuid or a forbidden edge changes nothing. */
    method UpdateStatus(uuid: string, newStatus: Status) returns (ok: bool)
      requires Valid()
      modifies this`statusIndex, sequences.Values`status
      ensures Valid()
      ensures ok <==> uuid in sequences && newStatus in NextStatuses(old(sequences[uuid].status))
      ensures Statuses(sequences) == if ok then old(Statuses(sequences))[uuid := newStatus] else old(Statuses(sequences))
      ensures !ok ==> statusIndex == old(statusIndex)
    {
      hide Agree;
      if uuid !in sequences { return false; }
      var e := sequences[uuid];
      var oldStatus := e.status;
      ghost var labels, ranks := Statuses(sequences), Ranks(sequences);
      TableFacts(sequences, labels, ranks, Indices(), oldStatus);
      TableFacts(sequences, labels, ranks, Indices(), newStatus);
      StatusMoveAgrees(sequences, labels, ranks, Indices(), uuid, newStatus);
      ok := e.StatusTransition(newStatus);
      assert Ranks(sequences) == ranks;
      assert Statuses(sequences) == if ok then labels[uuid := newStatus] else labels;
      if ok { Refile(uuid, oldStatus, newStatus); }
    }

    method Refile(uuid: string, from: Status, to: Status)
      requires from in statusIndex && to in statusIndex
      modifies this`statusIndex
      ensures statusIndex == File(Discard(old(statusIndex), from, uuid), to, uuid)
    {
      statusIndex := statusIndex[from := statusIndex[from] - {uuid}];
      statusIndex := statusIndex[to := statusIndex[to] + {uuid}];
    }

    method AssignRank(uuid: string, rank: int) returns (ok: bool)
      requires Valid()
      modifies this`rankIndex, sequences.Values`assignedRank
      ensures Valid()
      ensures ok <==> uuid in sequences
      ensures Ranks(sequences) == if ok then old(Ranks(sequences))[uuid := rank] else old(Ranks(sequences))
      ensures !ok ==> rankIndex == old(rankIndex)
    {
      hide Agree;
      if uuid !in sequences { return false; }
      var e := sequences[uuid];
      ghost var labels, ranks := Statuses(sequences), Ranks(sequences);
      TableFacts(sequences, labels, ranks, Indices(), e.status);
      RankMoveAgrees(sequences, labels, ranks, Indices(), uuid, rank);
      RefileRank(uuid, e.assignedRank, rank);
      e.assignedRank := Some(rank);
      assert Ranks(sequences) == ranks[uuid := rank];
      assert Statuses(sequences) == labels;
      ok := true;
    }

    method RefileRank(uuid: string, from: Option<int>, to: int)
      modifies this`rankIndex
      ensures rankIndex == File(DiscardRank(old(rankIndex), from, uuid), to, uuid)
    {
      if from.Some? && from.value in rankIndex {
        rankIndex := rankIndex[from.value := rankIndex[from.value] - {uuid}];
      }
      if to !in rankIndex { rankIndex := rankIndex[to := {}]; }
      rankIndex := rankIndex[to := rankIndex[to] + {uuid}];
    }

    /** Comparing two sizes decides whether every member is completed. */
    method AllCompleted() returns (done: bool)
      requires Valid()
      ensures done <==> forall u | u in sequences :: sequences[u].status == COMPLETED
    {
      TableFacts(sequences, Statuses(sequences), Ranks(sequences), Indices(), COMPLETED);
      AllUnderOneLabel(statusIndex, Statuses(sequences), COMPLETED);
      assert Statuses(sequences).Keys == sequences.Keys;
      done := |statusIndex[COMPLETED]| == |sequences|;
      assert forall u | u in sequences :: Statuses(sequences)[u] == sequences[u].status;
    }

    method GetByGlobalIdx(globalIdx: int) returns (e: Option<SequenceEntry>)
      requires Valid()
      ensures e.Some? ==> && e.value.uuid in sequences && sequences[e.value.uuid] == e.value
                          && e.value.globalIdx == globalIdx
      ensures GidExact(gidIndex, sequences) ==>
                (e.None? <==> forall u | u in sequences :: sequences[u].globalIdx != globalIdx)
    {
      e := if globalIdx in gidIndex then Some(gidIndex[globalIdx]) else None;
      if e.Some? { assert sequences[e.value.uuid].globalIdx == globalIdx; }
    }
  }

  lemma ExtendsItself(m: map<nat, Stamp>)
    ensures Extends(m, m)
  {
  }

  lemma ExtendsChain(a: map<nat, Stamp>, b: map<nat, Stamp>, c: map<nat, Stamp>)
    requires Extends(a, b) && Extends(b, c)
    ensures Extends(a, c)
  {
  }

  /** Two batches seen at different times with equal stamps are one batch with the same members. */
  twostate lemma EqualEpochsSameMembers(a: SequenceBatch, b: SequenceBatch)
    requires old(a.Stamped()) && b.Stamped() && a.epochs == b.epochs
    requires Extends(old(a.epochs.issued), b.epochs.issued)
    requires old(a.compositionEpoch) == b.compositionEpoch
    ensures a == b && old(a.sequences) == b.sequences
  {
  }

  /** A new batch, or a membership change of one of the batches there are. */
  datatype BatchOp = Create | Add(at: nat, entry: SequenceEntry) | Remove(at: nat, uuid: string)

  /** Batches that draw their stamps from one source. */
  ghost predicate ShareEpochs(batches: seq<SequenceBatch>, source: EpochSource)
    reads *
  {
    forall b | b in batches :: b.epochs == source && b.Valid()
  }

  /** What an observer noted down: each batch with its stamp and its members. */
  type Sighting = map<SequenceBatch, (nat, Members)>

  ghost predicate Saw(batches: seq<SequenceBatch>, seen: Sighting)
    reads batches
  {
    forall b | b in seen :: b in batches && seen[b] == (b.compositionEpoch, b.sequences)
  }

  /** A stamp noted before and seen again belongs to the same batch with the same members. */
  ghost predicate StampsIdentify(batches: seq<SequenceBatch>, seen: Sighting)
    reads batches
  {
    forall a, b | a in seen && b in batches && seen[a].0 == b.compositionEpoch ::
      a == b && seen[a].1 == b.sequences
  }

  /**
   However many batches are created and however many sequences enter and leave
   them in between, a stamp seen before and again afterwards is the stamp of the
   same batch with the same members: no new batch meets an old stamp.
   */
  method EpochsIdentifyMembers(batches: seq<SequenceBatch>, source: EpochSource, ops: seq<BatchOp>, ghost seen: Sighting)
    returns (after: seq<SequenceBatch>)
    requires source.Valid() && ShareEpochs(batches, source) && Saw(batches, seen)
    modifies source, set b | b in batches
    ensures batches <= after && ShareEpochs(after, source) && StampsIdentify(after, seen)
  {
    ghost var issued := source.issued;
    SightingsAreIssued(batches, source, seen);
    hide ShareEpochs, Extends, StampsIdentify, Saw, Issued;
    after := ApplyOps(batches, source, ops);
    EpochsIdentify(after, source, issued, seen);
  }

  ghost predicate Issued(issued: map<nat, Stamp>, seen: Sighting) {
    forall b | b in seen :: seen[b].0 in issued && issued[seen[b].0] == Stamp(b, seen[b].1)
  }

  lemma SightingsAreIssued(batches: seq<SequenceBatch>, source: EpochSource, seen: Sighting)
    requires ShareEpochs(batches, source) && Saw(batches, seen)
    ensures Issued(source.issued, seen)
  {
    hide SequenceBatch.Indexed;
  }

  lemma EpochsIdentify(batches: seq<SequenceBatch>, source: EpochSource, issued: map<nat, Stamp>, seen: Sighting)
    requires ShareEpochs(batches, source) && Issued(issued, seen) && Extends(issued, source.issued)
    ensures StampsIdentify(batches, seen)
  {
    hide SequenceBatch.Indexed;
  }

  method ApplyOps(batches: seq<SequenceBatch>, source: EpochSource, ops: seq<BatchOp>) returns (after: seq<SequenceBatch>)
    requires source.Valid() && ShareEpochs(batches, source)
    modifies source, set b | b in batches
    ensures source.Valid() && ShareEpochs(after, source) && Extends(old(source.issued), source.issued)
    ensures batches <= after && forall b | b in after :: b in batches || fresh(b)
    decreases |ops|
  {
    hide ShareEpochs, Extends;
    if ops == [] {
      ExtendsItself(source.issued);
      after := batches;
    } else {
      var some := ApplyOp(batches, source, ops[0]);
      ghost var middle := source.issued;
      after := ApplyOps(some, source, ops[1..]);
      ExtendsChain(old(source.issued), middle, source.issued);
    }
  }

  /** A change of a batch that does not exist is none. */
  method ApplyOp(batches: seq<SequenceBatch>, source: EpochSource, op: BatchOp) returns (after: seq<SequenceBatch>)
    requires source.Valid() && ShareEpochs(batches, source)
    modifies source, set b | b in batches
    ensures source.Valid() && ShareEpochs(after, source) && Extends(old(source.issued), source.issued)
    ensures batches <= after && forall b | b in after :: b in batches || fresh(b)
  {
    hide SequenceBatch.Indexed, Extends, Enrol;
    after := batches;
    if op.Create? {
      var batch := new SequenceBatch(source);
      forall b | b in batches ensures b.Valid() { OtherBatchesStayValid(b); }
      after := batches + [batch];
    } else if op.at < |batches| {
      ChangeOne(batches, source, op);
    } else {
      ExtendsItself(source.issued);
    }
  }

  method ChangeOne(batches: seq<SequenceBatch>, source: EpochSource, op: BatchOp)
    requires ShareEpochs(batches, source) && !op.Create? && op.at < |batches|
    modifies batches[op.at], source
    ensures source.Valid() && ShareEpochs(batches, source) && Extends(old(source.issued), source.issued)
  {
    hide SequenceBatch.Indexed, Extends, Enrol;
    var batch := batches[op.at];
    match op {
      case Add(_, e) => batch.AddSequence(e);
      case Remove(_, u) => var gone := batch.RemoveSequence(u);
    }
    forall b | b in batches ensures b.Valid() {
      if b != batch { OtherBatchesStayValid(b); }
    }
  }

  /** Stamps drawn by other batches leave a batch's own stamp standing. */
  twostate lemma OtherBatchesStayValid(batch: SequenceBatch)
    requires old(batch.Valid()) && unchanged(batch) && unchanged(old(batch.sequences.Values))
    requires batch.epochs.Valid() && Extends(old(batch.epochs.issued), batch.epochs.issued)
    ensures batch.Valid()
  {
    hide Agree;
  }

  /**
   After a live collision on a global index, removing the newer sequence leaves
   the older one unreachable by its index although it is still a member.
   */
  method CollisionHidesOlder(source: EpochSource) returns (batch: SequenceBatch, older: SequenceEntry)
    requires source.Valid()
    modifies source
    ensures fresh(batch) && batch.Valid() && older.uuid in batch.sequences && batch.sequences[older.uuid] == older
    ensures older.globalIdx !in batch.gidIndex && !GidExact(batch.gidIndex, batch.sequences)
  {
    hide Agree, Statuses, Ranks, Extends, Enrol, GidExact, Hidden, Holders;
    older := new SequenceEntry("a", 7);
    var newer := new SequenceEntry("b", 7);
    batch := new SequenceBatch(source);
    batch.AddSequence(older);
    batch.AddSequence(newer);
    var gone := batch.RemoveSequence("b");
    OvertakenThenLeft(older, newer, batch.Roster());
  }

  lemma OvertakenThenLeft(older: SequenceEntry, newer: SequenceEntry, r: Roll)
    requires older.uuid == "a" && newer.uuid == "b" && older.globalIdx == newer.globalIdx
    requires r == Enrol(Enrol(Enrol(EnrolAll([]), Added(older)), Added(newer)), Removed("b"))
    ensures older.uuid in r.members && r.members[older.uuid] == older
    ensures older.globalIdx !in r.slots && !GidExact(r.slots, r.members)
  {
    var one, two := [Added(older)], [Added(older), Added(newer)];
    var all := [Added(older), Added(newer), Removed("b")];
    assert all[..2] == two && two[..1] == one && one[..0] == [];
    assert EnrolAll(one) == Enrol(EnrolAll([]), Added(older));
    assert EnrolAll(two) == Enrol(EnrolAll(one), Added(newer));
    assert EnrolAll(all) == r;
    assert Takes(all, older.globalIdx, 1);
    HiddenIffOvertaken(all, "a", 0);
    ExactIffNothingHidden(r.slots, r.members);
  }
}
