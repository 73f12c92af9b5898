/**
 The boundary all-gather check: every rank reports the sequences it holds, and
 the scheduler stops unless the reports describe one consistent placement.
 */
module BoundaryValidator {
  import opened Arith
  import opened Options

  /** A recorded group: an integer, or anything else a state may hold there. */
  datatype GroupValue = Number(value: int) | NotANumber

  /**
   One reported sequence.  A group or status is missing when the state lacks it,
   a rank also when it does not convert to an integer; a status that is no text
   is some other status.
   */
  datatype State = State(group: Option<GroupValue>, rank: Option<int>, status: Option<string>)

  datatype Payload = Payload(
    active: map<string, State>, candidates: map<string, State>, total: Option<int>, free: Option<int>)

  /** The gathered payloads, one per rank; a missing one did not arrive as a dictionary. */
  type Gather = seq<Option<Payload>>

  datatype Kind = Active | Candidates

  function Reported(p: Payload, k: Kind): map<string, State> {
    if k.Active? then p.active else p.candidates
  }

  predicate Reports(ps: Gather, k: Kind, r: int, u: string) {
    0 <= r < |ps| && ps[r].Some? && u in Reported(ps[r].value, k)
  }

  function StateAt(ps: Gather, k: Kind, r: int, u: string): State
    requires Reports(ps, k, r, u)
  {
    Reported(ps[r].value, k)[u]
  }

  /** The group a rank belongs to. */
  function GroupIx(r: int, G: int): int
    requires G > 1
  {
    r / G
  }

  /** Ownership is group membership when groups hold several ranks, else the assigned rank. */
  predicate Owns(s: State, r: int, G: int) {
    if G > 1 then s.group == Some(Number(GroupIx(r, G))) else s.rank == Some(r)
  }

  predicate StatusOk(s: State) {
    s.status == None || s.status == Some("PREFILLED") || s.status == Some("ON_HOLD")
  }

  // ---- what the check promises ------------------------------------------------

  predicate SameGroup(r: int, q: int, G: int)
    requires G > 1
  {
    GroupIx(r, G) == GroupIx(q, G)
  }

  /** With G > 1, a sequence is reported by exactly the ranks of one group, and all of them exist. */
  ghost predicate Replicated(ps: Gather, k: Kind, G: int)
    requires G > 1
  {
    forall r, u, q {:trigger Reports(ps, k, r, u), SameGroup(r, q, G)}
      | Reports(ps, k, r, u) :: Reports(ps, k, q, u) <==> SameGroup(r, q, G)
  }

  /** With G = 1, no two ranks report the same sequence. */
  ghost predicate ReportedOnce(ps: Gather, k: Kind) {
    forall r, u, q | Reports(ps, k, r, u) && Reports(ps, k, q, u) :: q == r
  }

  ghost predicate ReportersOk(ps: Gather, k: Kind, G: int) {
    && (forall r, u | Reports(ps, k, r, u) :: Owns(StateAt(ps, k, r, u), r, G))
    && (if G > 1 then Replicated(ps, k, G) else ReportedOnce(ps, k))
  }

  predicate Has(ps: Gather, r: int) { 0 <= r < |ps| && ps[r].Some? }

  predicate AnyTotal(ps: Gather) { exists r | 0 <= r < |ps| :: Has(ps, r) && ps[r].value.total.Some? }

  predicate AllTotals(ps: Gather) { forall r | 0 <= r < |ps| && Has(ps, r) :: ps[r].value.total.Some? }

  predicate AllFrees(ps: Gather) { forall r | 0 <= r < |ps| && Has(ps, r) :: ps[r].value.free.Some? }

  predicate FullCapacity(ps: Gather) { AnyTotal(ps) && AllTotals(ps) && AllFrees(ps) }

  predicate RoomAt(ps: Gather, r: int)
    requires Has(ps, r)
  {
    var p := ps[r].value;
    p.total.Some? && p.free.Some? && 0 <= p.free.value <= p.total.value
  }

  ghost predicate SameTotals(ps: Gather) {
    forall r, q | Has(ps, r) && Has(ps, q) :: ps[r].value.total == ps[q].value.total
  }

  /** Either nobody reports capacity, or everybody reports the same total and a free count within it. */
  ghost predicate CapacityOk(ps: Gather) {
    AnyTotal(ps) ==> (forall r | Has(ps, r) :: RoomAt(ps, r)) && SameTotals(ps)
  }

  ghost predicate IsReported(ps: Gather, k: Kind, u: string) {
    exists r :: Reports(ps, k, r, u)
  }

  /** Every payload arrived, the active reports are the decode list, and no load candidate is on it. */
  ghost predicate ListsOk(decode: seq<string>, ps: Gather) {
    && (forall r | 0 <= r < |ps| :: ps[r].Some?)
    && (forall u :: u in decode <==> IsReported(ps, Active, u))
    && (forall u | u in decode :: !IsReported(ps, Candidates, u))
  }

  ghost predicate StatusesOk(ps: Gather) {
    forall r, u | Reports(ps, Candidates, r, u) :: StatusOk(StateAt(ps, Candidates, r, u))
  }

  ghost predicate Consistent(decode: seq<string>, ps: Gather, G: int) {
    && ListsOk(decode, ps) && StatusesOk(ps) && CapacityOk(ps)
    && ReportersOk(ps, Active, G) && ReportersOk(ps, Candidates, G)
  }

  /** The states one payload lists, active or waiting, in its own fields. */
  function Listed(p: Payload, k: Kind): map<string, State> {
    match k case Active => p.active case Candidates => p.candidates
  }

  /** Each listed sequence is held by its whole group, or by its rank alone. */
  ghost predicate Placed(ps: Gather, k: Kind, G: int) {
    forall r, u | 0 <= r < |ps| && ps[r].Some? && u in Listed(ps[r].value, k) ::
      if G > 1 then
        && Listed(ps[r].value, k)[u].group == Some(Number(r / G))
        && 0 <= (r / G) * G && (r / G) * G + G <= |ps|
        && (forall q | 0 <= q < |ps| :: ps[q].Some? && u in Listed(ps[q].value, k) <==> q / G == r / G)
      else
        && Listed(ps[r].value, k)[u].rank == Some(r)
        && (forall q | 0 <= q < |ps| && ps[q].Some? && u in Listed(ps[q].value, k) :: q == r)
  }

  ghost predicate ListsAgree(decode: seq<string>, ps: Gather) {
    && (forall r | 0 <= r < |ps| :: ps[r].Some?)
    && (forall u | u in decode :: exists r | 0 <= r < |ps| :: ps[r].Some? && u in ps[r].value.active)
    && (forall r, u | 0 <= r < |ps| && ps[r].Some? && u in ps[r].value.active :: u in decode)
    && (forall r, u | 0 <= r < |ps| && ps[r].Some? && u in ps[r].value.candidates :: u !in decode)
  }

  ghost predicate CandidatesWait(ps: Gather) {
    forall r, u | 0 <= r < |ps| && ps[r].Some? && u in ps[r].value.candidates && ps[r].value.candidates[u].status.Some? ::
      ps[r].value.candidates[u].status.value == "PREFILLED" || ps[r].value.candidates[u].status.value == "ON_HOLD"
  }

  /** No total is reported, or every rank reports this one and a free count within it. */
  ghost predicate SharesTotal(ps: Gather, total: int) {
    forall r | 0 <= r < |ps| && ps[r].Some? ::
      ps[r].value.total == Some(total) && ps[r].value.free.Some? && 0 <= ps[r].value.free.value <= total
  }

  /** What the documentation promises of a gather that passes, in the fields of its payloads. */
  ghost predicate Promised(decode: seq<string>, ps: Gather, G: int) {
    && ListsAgree(decode, ps) && CandidatesWait(ps)
    && Placed(ps, Active, G) && Placed(ps, Candidates, G)
    && ((forall r | 0 <= r < |ps| && ps[r].Some? :: ps[r].value.total.None?) || exists total :: SharesTotal(ps, total))
  }

  lemma ListedIff(ps: Gather, k: Kind, r: int, u: string)
    ensures Reports(ps, k, r, u) <==> 0 <= r < |ps| && ps[r].Some? && u in Listed(ps[r].value, k)
    ensures Reports(ps, k, r, u) ==> StateAt(ps, k, r, u) == Listed(ps[r].value, k)[u]
  {
  }

  lemma PlacedInGroups(ps: Gather, k: Kind, G: int)
    requires G > 1 && ReportersOk(ps, k, G)
    ensures Placed(ps, k, G)
  {
    forall r, u | 0 <= r < |ps| && ps[r].Some? && u in Listed(ps[r].value, k)
      ensures Listed(ps[r].value, k)[u].group == Some(Number(r / G)) && 0 <= (r / G) * G && (r / G) * G + G <= |ps|
      ensures forall q | 0 <= q < |ps| :: ps[q].Some? && u in Listed(ps[q].value, k) <==> q / G == r / G
    {
      hide ReportersOk, Reports, Listed, StateAt;
      ListedIff(ps, k, r, u);
      assert IsReported(ps, k, u);
      GroupsPartition(ps, G, k, u);
      assert GroupOf(ps, k, u, G) == r / G;
      forall q | 0 <= q < |ps| ensures ps[q].Some? && u in Listed(ps[q].value, k) <==> q / G == r / G {
        ListedIff(ps, k, q, u);
        assert GroupIx(q, G) == q / G;
      }
    }
  }

  lemma GroupsPlaced(ps: Gather, k: Kind, G: int)
    requires G > 1 && Placed(ps, k, G)
    ensures ReportersOk(ps, k, G)
  {
    forall r, u | Reports(ps, k, r, u)
      ensures Owns(StateAt(ps, k, r, u), r, G)
      ensures forall q :: Reports(ps, k, q, u) <==> SameGroup(r, q, G)
    {
      ListedIff(ps, k, r, u);
      assert GroupIx(r, G) == r / G;
      forall q ensures Reports(ps, k, q, u) <==> SameGroup(r, q, G) {
        ListedIff(ps, k, q, u);
        GroupRanks(r / G, G, q);
      }
    }
  }

  lemma PlacedIff(ps: Gather, k: Kind, G: int)
    ensures ReportersOk(ps, k, G) <==> Placed(ps, k, G)
  {
    if G > 1 {
      if ReportersOk(ps, k, G) { PlacedInGroups(ps, k, G); }
      if Placed(ps, k, G) { GroupsPlaced(ps, k, G); }
    } else {
      forall r, u
        ensures Reports(ps, k, r, u) <==> 0 <= r < |ps| && ps[r].Some? && u in Listed(ps[r].value, k)
        ensures Reports(ps, k, r, u) ==> StateAt(ps, k, r, u) == Listed(ps[r].value, k)[u]
      {
        ListedIff(ps, k, r, u);
      }
    }
  }

  lemma ListsAgreeIff(decode: seq<string>, ps: Gather)
    ensures ListsOk(decode, ps) <==> ListsAgree(decode, ps)
  {
    forall r, u
      ensures Reports(ps, Active, r, u) <==> 0 <= r < |ps| && ps[r].Some? && u in ps[r].value.active
      ensures Reports(ps, Candidates, r, u) <==> 0 <= r < |ps| && ps[r].Some? && u in ps[r].value.candidates
    {
    }
    hide Reports;
  }

  lemma CandidatesWaitIff(ps: Gather)
    ensures StatusesOk(ps) <==> CandidatesWait(ps)
  {
    forall r, u ensures Reports(ps, Candidates, r, u) <==> 0 <= r < |ps| && ps[r].Some? && u in ps[r].value.candidates {}
  }

  lemma TotalsIff(ps: Gather)
    ensures CapacityOk(ps) <==>
              (forall r | 0 <= r < |ps| && ps[r].Some? :: ps[r].value.total.None?) || exists total :: SharesTotal(ps, total)
  {
    if AnyTotal(ps) && CapacityOk(ps) {
      var r :| 0 <= r < |ps| && Has(ps, r) && ps[r].value.total.Some?;
      forall q | 0 <= q < |ps| && ps[q].Some?
        ensures ps[q].value.total == ps[r].value.total && ps[q].value.free.Some?
                && 0 <= ps[q].value.free.value <= ps[r].value.total.value
      {
        assert Has(ps, q) && RoomAt(ps, q);
      }
      assert SharesTotal(ps, ps[r].value.total.value);
    }
  }

  /** The consistency that the check decides is the one the documentation promises. */
  lemma PromisedIff(decode: seq<string>, ps: Gather, G: int)
    ensures Consistent(decode, ps, G) <==> Promised(decode, ps, G)
  {
    PlacedIff(ps, Active, G);
    PlacedIff(ps, Candidates, G);
    ListsAgreeIff(decode, ps);
    CandidatesWaitIff(ps);
    TotalsIff(ps);
    hide ReportersOk, Placed, ListsOk, ListsAgree, StatusesOk, CandidatesWait, CapacityOk, SharesTotal;
  }

  // ---- consequences -------------------------------------------------------------

  lemma GroupRanks(g: int, G: int, q: int)
    requires G > 1
    ensures g * G <= q < g * G + G <==> GroupIx(q, G) == g
  {
    DivBounds(q, G);
    if g * G <= q < g * G + G { DivIs(q, G, g); }
  }

  /** The group a reported sequence lives in. */
  ghost function GroupOf(ps: Gather, k: Kind, u: string, G: int): int
    requires G > 1 && IsReported(ps, k, u)
  {
    var r :| Reports(ps, k, r, u);
    GroupIx(r, G)
  }

  /**
   With groups of several ranks: a sequence is reported exactly by the ranks of
   one group, the group its state names, and that group lies inside the world.
   */
  lemma GroupsPartition(ps: Gather, G: int, k: Kind, u: string)
    requires G > 1 && ReportersOk(ps, k, G) && IsReported(ps, k, u)
    ensures forall q :: Reports(ps, k, q, u) <==> GroupIx(q, G) == GroupOf(ps, k, u, G)
    ensures forall q | Reports(ps, k, q, u) :: StateAt(ps, k, q, u).group == Some(Number(GroupOf(ps, k, u, G)))
    ensures 0 <= GroupOf(ps, k, u, G) * G && GroupOf(ps, k, u, G) * G + G <= |ps|
  {
    var g := GroupOf(ps, k, u, G);
    var r :| Reports(ps, k, r, u) && GroupIx(r, G) == g;
    forall q
      ensures Reports(ps, k, q, u) <==> GroupIx(q, G) == g
      ensures Reports(ps, k, q, u) ==> StateAt(ps, k, q, u).group == Some(Number(g))
    {
      assert SameGroup(r, q, G) <==> GroupIx(q, G) == g;
      if Reports(ps, k, q, u) { assert Owns(StateAt(ps, k, q, u), q, G); }
    }
    GroupRanks(g, G, g * G);
    GroupRanks(g, G, g * G + G - 1);
    assert Reports(ps, k, g * G, u) && Reports(ps, k, g * G + G - 1, u);
  }

  /** Ranks of one group hold identical sets of sequences. */
  lemma GroupsAgree(ps: Gather, G: int, k: Kind, u: string, r: int, q: int)
    requires G > 1 && ReportersOk(ps, k, G) && GroupIx(r, G) == GroupIx(q, G)
    ensures Reports(ps, k, r, u) <==> Reports(ps, k, q, u)
  {
    assert SameGroup(r, q, G) && SameGroup(q, r, G);
  }

  /** The canonical rank that touches the node-shared host-KV entry of a group. */
  function HostKvOwnerRank(group: int, G: int): int { group * G }

  /** Exactly one reporter of a sequence is its host-KV owner: the lowest. */
  lemma OneHostKvOwner(ps: Gather, G: int, k: Kind, u: string)
    requires G > 1 && ReportersOk(ps, k, G) && IsReported(ps, k, u)
    ensures var owner := HostKvOwnerRank(GroupOf(ps, k, u, G), G);
            && Reports(ps, k, owner, u) && (forall r | Reports(ps, k, r, u) :: owner <= r)
            && forall r | Reports(ps, k, r, u) ::
                 && StateAt(ps, k, r, u).group.Some? && StateAt(ps, k, r, u).group.value.Number?
                 && (r == HostKvOwnerRank(StateAt(ps, k, r, u).group.value.value, G) <==> r == owner)
  {
    GroupsPartition(ps, G, k, u);
    GroupRanks(GroupOf(ps, k, u, G), G, HostKvOwnerRank(GroupOf(ps, k, u, G), G));
    forall r | Reports(ps, k, r, u) ensures HostKvOwnerRank(GroupOf(ps, k, u, G), G) <= r {
      GroupRanks(GroupOf(ps, k, u, G), G, r);
    }
  }

  /** Pure data parallelism: each sequence is reported once, by the rank it is assigned to. */
  lemma OneRankEach(ps: Gather, k: Kind, u: string, r: int)
    requires ReportersOk(ps, k, 1) && Reports(ps, k, r, u)
    ensures StateAt(ps, k, r, u).rank == Some(r)
    ensures forall q :: Reports(ps, k, q, u) <==> q == r
  {
    assert Owns(StateAt(ps, k, r, u), r, 1);
  }

  // ---- the check as the source runs it ------------------------------------------------

  datatype Error =
    | PayloadMissing | ActiveMissing | ActiveUnexpected | ActiveReporters | CandidateReporters
    | Overlap | ActiveOwner | CandidateOwner | CandidateStatus
    | TotalMissing | FreeMissing | NegativeTotal | NegativeFree | FreeOverTotal | TotalsDiverge

  /** Ranks below `n` that report `u`, in rank order. */
  function Ranks(ps: Gather, k: Kind, u: string, n: nat): seq<int> {
    if n == 0 then [] else Ranks(ps, k, u, n - 1) + (if Reports(ps, k, n - 1, u) then [n - 1] else [])
  }

  lemma {:induction false} RanksAreReporters(ps: Gather, k: Kind, u: string, n: nat)
    ensures forall r :: r in Ranks(ps, k, u, n) <==> r < n && Reports(ps, k, r, u)
    ensures forall i, j | 0 <= i < j < |Ranks(ps, k, u, n)| :: Ranks(ps, k, u, n)[i] < Ranks(ps, k, u, n)[j]
  {
    if n > 0 {
      RanksAreReporters(ps, k, u, n - 1);
      var init := Ranks(ps, k, u, n - 1);
      assert forall i | 0 <= i < |init| :: init[i] in init;
    }
  }

  /** The group last recorded for `u`; later ranks overwrite earlier ones. */
  function LastGroup(ps: Gather, k: Kind, u: string, n: nat): Option<GroupValue> {
    if n == 0 then None
    else if Reports(ps, k, n - 1, u) && StateAt(ps, k, n - 1, u).group.Some? then StateAt(ps, k, n - 1, u).group
    else LastGroup(ps, k, u, n - 1)
  }

  predicate ExactGroup(ranks: seq<int>, group: Option<GroupValue>, G: int) {
    && group.Some? && group.value.Number?
    && var first := group.value.value * G;
    && (forall r | r in ranks :: first <= r < first + G)
    && (forall r | first <= r < first + G :: r in ranks)
  }

  /** What one pass over the payloads records about one kind of report. */
  datatype Tally = Tally(ranks: map<string, seq<int>>, groups: map<string, GroupValue>, wrongOwner: bool, badStatus: bool)

  ghost predicate SomeWrongOwner(ps: Gather, k: Kind, G: int, n: nat) {
    exists r, u | r < n :: Reports(ps, k, r, u) && !Owns(StateAt(ps, k, r, u), r, G)
  }

  ghost predicate SomeBadStatus(ps: Gather, k: Kind, n: nat) {
    exists r, u | r < n :: Reports(ps, k, r, u) && !StatusOk(StateAt(ps, k, r, u))
  }

  ghost predicate TallyOf(t: Tally, ps: Gather, k: Kind, G: int, n: nat) {
    && (forall u :: RanksRight(t, ps, k, u, n))
    && t.wrongOwner == SomeWrongOwner(ps, k, G, n)
    && t.badStatus == SomeBadStatus(ps, k, n)
  }

  // ---- which complaints the check raises -----------------------------------------------

  predicate BadReporters(ranks: seq<int>, group: Option<GroupValue>, G: int) {
    if G > 1 then !ExactGroup(ranks, group, G) else |ranks| != 1
  }

  ghost predicate SomeBadReporters(ps: Gather, k: Kind, G: int) {
    exists u :: IsReported(ps, k, u) && BadReporters(Ranks(ps, k, u, |ps|), LastGroup(ps, k, u, |ps|), G)
  }

  predicate AnyTotalBelowZero(ps: Gather)
    requires AllTotals(ps)
  {
    exists r | 0 <= r < |ps| :: Has(ps, r) && ps[r].value.total.value < 0
  }

  predicate AnyFreeBelowZero(ps: Gather)
    requires AllFrees(ps)
  {
    exists r | 0 <= r < |ps| :: Has(ps, r) && ps[r].value.free.value < 0
  }

  predicate AnyFreeOverTotal(ps: Gather)
    requires AllTotals(ps) && AllFrees(ps)
  {
    exists r | 0 <= r < |ps| :: Has(ps, r) && ps[r].value.free.value > ps[r].value.total.value
  }

  predicate AnyTotalsDiverge(ps: Gather) {
    exists r, q | 0 <= r < |ps| && 0 <= q < |ps| :: Has(ps, r) && Has(ps, q) && ps[r].value.total != ps[q].value.total
  }

  ghost predicate Complaint(e: Error, decode: seq<string>, ps: Gather, G: int) {
    match e
    case PayloadMissing => exists r | 0 <= r < |ps| :: ps[r].None?
    case ActiveMissing => exists u | u in decode :: !IsReported(ps, Active, u)
    case ActiveUnexpected => exists u :: IsReported(ps, Active, u) && u !in decode
    case ActiveReporters => SomeBadReporters(ps, Active, G)
    case CandidateReporters => SomeBadReporters(ps, Candidates, G)
    case Overlap => exists u | u in decode :: IsReported(ps, Candidates, u)
    case ActiveOwner => SomeWrongOwner(ps, Active, G, |ps|)
    case CandidateOwner => SomeWrongOwner(ps, Candidates, G, |ps|)
    case CandidateStatus => SomeBadStatus(ps, Candidates, |ps|)
    case TotalMissing => AnyTotal(ps) && !AllTotals(ps)
    case FreeMissing => AnyTotal(ps) && AllTotals(ps) && !AllFrees(ps)
    case NegativeTotal => FullCapacity(ps) && AnyTotalBelowZero(ps)
    case NegativeFree => FullCapacity(ps) && AnyFreeBelowZero(ps)
    case FreeOverTotal => FullCapacity(ps) && AnyFreeOverTotal(ps)
    case TotalsDiverge => FullCapacity(ps) && AnyTotalsDiverge(ps)
  }

  // ---- no complaint means consistent ----------------------------------------------------

  lemma {:induction false} LastGroupIsReported(ps: Gather, k: Kind, u: string, G: int, n: nat)
    requires G > 1 && (forall r | Reports(ps, k, r, u) :: Owns(StateAt(ps, k, r, u), r, G))
    ensures match LastGroup(ps, k, u, n)
            case None => forall r | r < n :: !Reports(ps, k, r, u)
            case Some(g) => g.Number? && exists r :: Reports(ps, k, r, u) && GroupIx(r, G) == g.value
  {
    if n > 0 { LastGroupIsReported(ps, k, u, G, n - 1); }
  }

  /** One sequence is reported by one whole group, or by one rank. */
  ghost predicate OnePlace(ps: Gather, k: Kind, u: string, G: int) {
    if G > 1 then forall r, q {:trigger Reports(ps, k, r, u), SameGroup(r, q, G)}
                    | Reports(ps, k, r, u) :: Reports(ps, k, q, u) <==> SameGroup(r, q, G)
    else forall r, q | Reports(ps, k, r, u) && Reports(ps, k, q, u) :: q == r
  }

  lemma ExactGroupIff(ps: Gather, k: Kind, u: string, G: int, g: int)
    requires G > 1
    ensures ExactGroup(Ranks(ps, k, u, |ps|), Some(Number(g)), G)
            <==> forall q :: Reports(ps, k, q, u) <==> GroupIx(q, G) == g
  {
    hide GroupIx;
    RanksAreReporters(ps, k, u, |ps|);
    var ranks := Ranks(ps, k, u, |ps|);
    forall q
      ensures g * G <= q < g * G + G <==> GroupIx(q, G) == g
      ensures q in ranks <==> Reports(ps, k, q, u)
    {
      GroupRanks(g, G, q);
    }
  }

  lemma PlacedInGroupIff(ps: Gather, k: Kind, u: string, G: int)
    requires G > 1 && IsReported(ps, k, u) && !SomeWrongOwner(ps, k, G, |ps|)
    ensures ExactGroup(Ranks(ps, k, u, |ps|), LastGroup(ps, k, u, |ps|), G) <==> OnePlace(ps, k, u, G)
  {
    hide GroupIx, ExactGroup;
    LastGroupIsReported(ps, k, u, G, |ps|);
    var g := LastGroup(ps, k, u, |ps|).value.value;
    var r0 :| Reports(ps, k, r0, u) && GroupIx(r0, G) == g;
    ExactGroupIff(ps, k, u, G, g);
    if OnePlace(ps, k, u, G) {
      forall q
        ensures Reports(ps, k, q, u) <==> GroupIx(q, G) == g
      {
        assert SameGroup(r0, q, G) <==> GroupIx(q, G) == g;
      }
    }
  }

  lemma PlacedOnceIff(ps: Gather, k: Kind, u: string, G: int)
    requires G <= 1 && IsReported(ps, k, u)
    ensures |Ranks(ps, k, u, |ps|)| == 1 <==> OnePlace(ps, k, u, G)
  {
    RanksAreReporters(ps, k, u, |ps|);
    var ranks := Ranks(ps, k, u, |ps|);
    var r :| Reports(ps, k, r, u);
    assert r in ranks;
    if |ranks| >= 2 {
      assert ranks[0] in ranks && ranks[1] in ranks && ranks[0] < ranks[1];
    }
  }

  lemma PlacesIff(ps: Gather, k: Kind, G: int)
    ensures (if G > 1 then Replicated(ps, k, G) else ReportedOnce(ps, k))
            <==> forall u | IsReported(ps, k, u) :: OnePlace(ps, k, u, G)
  {
    if forall u | IsReported(ps, k, u) :: OnePlace(ps, k, u, G) {
      forall r, u | Reports(ps, k, r, u)
        ensures OnePlace(ps, k, u, G)
      {
        assert IsReported(ps, k, u);
      }
    }
  }

  lemma ReportersOkIff(ps: Gather, k: Kind, G: int)
    ensures ReportersOk(ps, k, G) <==> !SomeWrongOwner(ps, k, G, |ps|) && !SomeBadReporters(ps, k, G)
  {
    hide GroupIx, ExactGroup, OnePlace, Replicated, ReportedOnce, Owns;
    PlacesIff(ps, k, G);
    if !SomeWrongOwner(ps, k, G, |ps|) {
      forall u | IsReported(ps, k, u)
        ensures BadReporters(Ranks(ps, k, u, |ps|), LastGroup(ps, k, u, |ps|), G) <==> !OnePlace(ps, k, u, G)
      {
        if G > 1 { PlacedInGroupIff(ps, k, u, G); } else { PlacedOnceIff(ps, k, u, G); }
      }
    }
  }

  lemma CapacityOkIff(decode: seq<string>, ps: Gather, G: int)
    ensures CapacityOk(ps) <==>
              && !Complaint(TotalMissing, decode, ps, G) && !Complaint(FreeMissing, decode, ps, G)
              && !Complaint(NegativeTotal, decode, ps, G) && !Complaint(NegativeFree, decode, ps, G)
              && !Complaint(FreeOverTotal, decode, ps, G) && !Complaint(TotalsDiverge, decode, ps, G)
  {
    hide AnyTotal;
    if AnyTotal(ps) {
      if (forall r | Has(ps, r) :: RoomAt(ps, r)) && SameTotals(ps) {
        assert FullCapacity(ps);
      } else if FullCapacity(ps) {
        SomeCapacityError(decode, ps, G);
      }
    }
  }

  lemma SomeCapacityError(decode: seq<string>, ps: Gather, G: int)
    requires FullCapacity(ps) && !((forall r | Has(ps, r) :: RoomAt(ps, r)) && SameTotals(ps))
    ensures || Complaint(NegativeTotal, decode, ps, G) || Complaint(NegativeFree, decode, ps, G)
            || Complaint(FreeOverTotal, decode, ps, G) || Complaint(TotalsDiverge, decode, ps, G)
  {
    if !SameTotals(ps) {
      assert Complaint(TotalsDiverge, decode, ps, G);
    } else {
      var r :| Has(ps, r) && !RoomAt(ps, r);
      var p := ps[r].value;
      assert p.total.Some? && p.free.Some?;
      if p.free.value < 0 {
        assert Complaint(NegativeFree, decode, ps, G);
      } else {
        assert Complaint(FreeOverTotal, decode, ps, G);
      }
    }
  }

  lemma ListsOkIff(decode: seq<string>, ps: Gather, G: int)
    ensures ListsOk(decode, ps) <==>
              && !Complaint(PayloadMissing, decode, ps, G) && !Complaint(ActiveMissing, decode, ps, G)
              && !Complaint(ActiveUnexpected, decode, ps, G) && !Complaint(Overlap, decode, ps, G)
  {
    hide IsReported;
  }

  lemma PlacementIff(decode: seq<string>, ps: Gather, G: int)
    ensures StatusesOk(ps) && ReportersOk(ps, Active, G) && ReportersOk(ps, Candidates, G) <==>
              && !Complaint(ActiveReporters, decode, ps, G) && !Complaint(CandidateReporters, decode, ps, G)
              && !Complaint(ActiveOwner, decode, ps, G) && !Complaint(CandidateOwner, decode, ps, G)
              && !Complaint(CandidateStatus, decode, ps, G)
  {
    hide ReportersOk, SomeWrongOwner, SomeBadReporters;
    ReportersOkIff(ps, Active, G);
    ReportersOkIff(ps, Candidates, G);
  }

  /** The check stays silent exactly on the gathers it promises to let through. */
  lemma NoComplaintIffConsistent(decode: seq<string>, ps: Gather, G: int)
    ensures (forall e :: !Complaint(e, decode, ps, G)) <==> Consistent(decode, ps, G)
  {
    hide Complaint, ListsOk, StatusesOk, CapacityOk, ReportersOk;
    ListsOkIff(decode, ps, G);
    PlacementIff(decode, ps, G);
    CapacityOkIff(decode, ps, G);
    if Consistent(decode, ps, G) {
      forall e
        ensures !Complaint(e, decode, ps, G)
      {
        match e
        case PayloadMissing => case ActiveMissing => case ActiveUnexpected => case ActiveReporters =>
        case CandidateReporters => case Overlap => case ActiveOwner => case CandidateOwner =>
        case CandidateStatus => case TotalMissing => case FreeMissing => case NegativeTotal =>
        case NegativeFree => case FreeOverTotal => case TotalsDiverge =>
      }
    }
  }

  // ---- the check as the source runs it --------------------------------------------------

  lemma WrongOwnerStep(ps: Gather, k: Kind, G: int, n: nat)
    requires n < |ps| && ps[n].Some?
    ensures SomeWrongOwner(ps, k, G, n + 1) <==>
              || SomeWrongOwner(ps, k, G, n)
              || exists u | u in Reported(ps[n].value, k) :: !Owns(Reported(ps[n].value, k)[u], n, G)
  {
    hide Owns;
    if u :| u in Reported(ps[n].value, k) && !Owns(Reported(ps[n].value, k)[u], n, G) {
      assert Reports(ps, k, n, u) && !Owns(StateAt(ps, k, n, u), n, G);
    }
  }

  lemma BadStatusStep(ps: Gather, k: Kind, n: nat)
    requires n < |ps| && ps[n].Some?
    ensures SomeBadStatus(ps, k, n + 1) <==>
              || SomeBadStatus(ps, k, n)
              || exists u | u in Reported(ps[n].value, k) :: !StatusOk(Reported(ps[n].value, k)[u])
  {
    if u :| u in Reported(ps[n].value, k) && !StatusOk(Reported(ps[n].value, k)[u]) {
      assert Reports(ps, k, n, u) && !StatusOk(StateAt(ps, k, n, u));
    }
  }

  /** The tally up to rank `n`, already including rank `n` for the names not in `todo`. */
  ghost predicate RanksKnown(t: Tally, ps: Gather, k: Kind, n: nat, todo: set<string>) {
    forall u :: RanksRight(t, ps, k, u, UpTo(u, n, todo))
  }

  function UpTo(u: string, n: nat, todo: set<string>): nat { if u in todo then n else n + 1 }

  ghost predicate RanksRight(t: Tally, ps: Gather, k: Kind, u: string, n: nat) {
    && (u in t.ranks <==> Ranks(ps, k, u, n) != []) && (u in t.ranks ==> t.ranks[u] == Ranks(ps, k, u, n))
    && LastGroup(ps, k, u, n) == GroupIn(t, u)
  }

  function Count(t: Tally, u: string, state: State, n: nat, G: int): Tally {
    t.(ranks := t.ranks[u := (if u in t.ranks then t.ranks[u] else []) + [n]],
       groups := if state.group.Some? then t.groups[u := state.group.value] else t.groups,
       wrongOwner := t.wrongOwner || !Owns(state, n, G),
       badStatus := t.badStatus || !StatusOk(state))
  }

  lemma CountStep(t: Tally, ps: Gather, k: Kind, G: int, n: nat, todo: set<string>, u: string)
    requires RanksKnown(t, ps, k, n, todo) && u in todo && Reports(ps, k, n, u)
    ensures RanksKnown(Count(t, u, StateAt(ps, k, n, u), n, G), ps, k, n, todo - {u})
  {
    hide Owns, StatusOk;
    var t' := Count(t, u, StateAt(ps, k, n, u), n, G);
    forall v
      ensures RanksRight(t', ps, k, v, UpTo(v, n, todo - {u}))
    {
      assert RanksRight(t, ps, k, v, UpTo(v, n, todo));
    }
  }

  lemma CountStart(t: Tally, ps: Gather, k: Kind, G: int, n: nat)
    requires n < |ps| && ps[n].Some? && TallyOf(t, ps, k, G, n)
    ensures RanksKnown(t, ps, k, n, Reported(ps[n].value, k).Keys)
  {
    forall u
      ensures RanksRight(t, ps, k, u, UpTo(u, n, Reported(ps[n].value, k).Keys))
    {
      assert RanksRight(t, ps, k, u, n);
      assert Reports(ps, k, n, u) <==> u in Reported(ps[n].value, k);
    }
  }

  lemma CountEnd(t: Tally, ps: Gather, k: Kind, G: int, n: nat)
    requires RanksKnown(t, ps, k, n, {})
    requires t.wrongOwner == SomeWrongOwner(ps, k, G, n + 1) && t.badStatus == SomeBadStatus(ps, k, n + 1)
    ensures TallyOf(t, ps, k, G, n + 1)
  {
    var m := n + 1;
    forall u
      ensures RanksRight(t, ps, k, u, m)
    {
      assert RanksRight(t, ps, k, u, UpTo(u, n, {}));
    }
  }

  ghost predicate SomeOtherOwner(states: map<string, State>, n: nat, G: int, todo: set<string>) {
    exists u | u in states && u !in todo :: !Owns(states[u], n, G)
  }

  ghost predicate SomeOtherStatus(states: map<string, State>, todo: set<string>) {
    exists u | u in states && u !in todo :: !StatusOk(states[u])
  }

  /** Adds one rank's reports to the running tally. */
  method AddRank(t0: Tally, ps: Gather, k: Kind, G: int, n: nat) returns (t: Tally)
    requires n < |ps| && ps[n].Some? && TallyOf(t0, ps, k, G, n)
    ensures TallyOf(t, ps, k, G, n + 1)
  {
    hide TallyOf, RanksKnown, SomeWrongOwner, SomeBadStatus, Owns, StatusOk;
    var states := Reported(ps[n].value, k);
    var todo := states.Keys;
    t := t0;
    CountStart(t, ps, k, G, n);
    TallyFlags(t, ps, k, G, n);
    while todo != {}
      invariant todo <= states.Keys && RanksKnown(t, ps, k, n, todo)
      invariant t.wrongOwner <==> SomeWrongOwner(ps, k, G, n) || SomeOtherOwner(states, n, G, todo)
      invariant t.badStatus <==> SomeBadStatus(ps, k, n) || SomeOtherStatus(states, todo)
      decreases |todo|
    {
      var u :| u in todo;
      assert Reports(ps, k, n, u) && StateAt(ps, k, n, u) == states[u];
      CountStep(t, ps, k, G, n, todo, u);
      t := Count(t, u, states[u], n, G);
      todo := todo - {u};
    }
    WrongOwnerStep(ps, k, G, n);
    BadStatusStep(ps, k, n);
    CountEnd(t, ps, k, G, n);
  }

  method Collect(ps: Gather, k: Kind, G: int) returns (t: Tally)
    ensures TallyOf(t, ps, k, G, |ps|)
  {
    hide TallyOf;
    t := Tally(map[], map[], false, false);
    NoTally(ps, k, G);
    for n := 0 to |ps|
      invariant TallyOf(t, ps, k, G, n)
    {
      if ps[n].Some? {
        t := AddRank(t, ps, k, G, n);
      } else {
        SkipRank(t, ps, k, G, n);
      }
    }
  }

  lemma NoTally(ps: Gather, k: Kind, G: int)
    ensures TallyOf(Tally(map[], map[], false, false), ps, k, G, 0)
  {
  }

  lemma SkipRank(t: Tally, ps: Gather, k: Kind, G: int, n: nat)
    requires n < |ps| && ps[n].None? && TallyOf(t, ps, k, G, n)
    ensures TallyOf(t, ps, k, G, n + 1)
  {
    hide Owns, StatusOk;
    var m := n + 1;
    forall u
      ensures RanksRight(t, ps, k, u, m)
    {
      assert RanksRight(t, ps, k, u, n) && !Reports(ps, k, n, u);
    }
  }

  ghost predicate BadTally(t: Tally, G: int) {
    exists u | u in t.ranks :: BadReporters(t.ranks[u], GroupIn(t, u), G)
  }

  function GroupIn(t: Tally, u: string): Option<GroupValue> { if u in t.groups then Some(t.groups[u]) else None }

  method AnyBadReporters(t: Tally, G: int) returns (bad: bool)
    ensures bad <==> BadTally(t, G)
  {
    var todo := t.ranks.Keys;
    while todo != {}
      invariant todo <= t.ranks.Keys
      invariant forall u | u in t.ranks && u !in todo ::
                  !BadReporters(t.ranks[u], GroupIn(t, u), G)
      decreases |todo|
    {
      var u :| u in todo;
      if BadReporters(t.ranks[u], GroupIn(t, u), G) {
        return true;
      }
      todo := todo - {u};
    }
    return false;
  }

  lemma TallyReports(t: Tally, ps: Gather, k: Kind, G: int)
    requires TallyOf(t, ps, k, G, |ps|)
    ensures forall u :: u in t.ranks <==> IsReported(ps, k, u)
    ensures SomeBadReporters(ps, k, G) <==> BadTally(t, G)
  {
    hide BadReporters;
    forall u
      ensures u in t.ranks <==> IsReported(ps, k, u)
      ensures u in t.ranks ==> t.ranks[u] == Ranks(ps, k, u, |ps|)
      ensures LastGroup(ps, k, u, |ps|) == GroupIn(t, u)
    {
      assert RanksRight(t, ps, k, u, |ps|);
      RanksAreReporters(ps, k, u, |ps|);
      if Ranks(ps, k, u, |ps|) != [] { assert Ranks(ps, k, u, |ps|)[0] in Ranks(ps, k, u, |ps|); }
    }
  }

  lemma TallyFlags(t: Tally, ps: Gather, k: Kind, G: int, n: nat)
    requires TallyOf(t, ps, k, G, n)
    ensures t.wrongOwner == SomeWrongOwner(ps, k, G, n) && t.badStatus == SomeBadStatus(ps, k, n)
  {
  }

  /** One flag per complaint. */
  datatype Flags = Flags(
    missing: bool, unreported: bool, unexpected: bool, badActive: bool, badCandidates: bool, overlap: bool,
    activeOwner: bool, candidateOwner: bool, status: bool)

  datatype CapacityFlags = CapacityFlags(
    total: bool, free: bool, negativeTotal: bool, negativeFree: bool, over: bool, diverge: bool)

  predicate Flagged(e: Error, f: Flags, c: CapacityFlags) {
    match e
    case PayloadMissing => f.missing
    case ActiveMissing => f.unreported
    case ActiveUnexpected => f.unexpected
    case ActiveReporters => f.badActive
    case CandidateReporters => f.badCandidates
    case Overlap => f.overlap
    case ActiveOwner => f.activeOwner
    case CandidateOwner => f.candidateOwner
    case CandidateStatus => f.status
    case TotalMissing => c.total
    case FreeMissing => c.free
    case NegativeTotal => c.negativeTotal
    case NegativeFree => c.negativeFree
    case FreeOverTotal => c.over
    case TotalsDiverge => c.diverge
  }

  predicate AnyMissing(ps: Gather) { exists r | 0 <= r < |ps| :: ps[r].None? }

  predicate AnyOutside(us: seq<string>, m: map<string, seq<int>>) { exists u | u in us :: u !in m }

  predicate AnyInside(us: seq<string>, m: map<string, seq<int>>) { exists u | u in us :: u in m }

  predicate AnyUnlisted(m: map<string, seq<int>>, us: seq<string>) { exists u | u in m :: u !in us }

  /** The complaints about who reports what. */
  method ReportFlags(decode: seq<string>, ps: Gather, G: int) returns (f: Flags)
    ensures f.missing == Complaint(PayloadMissing, decode, ps, G)
    ensures f.unreported == Complaint(ActiveMissing, decode, ps, G)
    ensures f.unexpected == Complaint(ActiveUnexpected, decode, ps, G)
    ensures f.badActive == Complaint(ActiveReporters, decode, ps, G)
    ensures f.badCandidates == Complaint(CandidateReporters, decode, ps, G)
    ensures f.overlap == Complaint(Overlap, decode, ps, G)
    ensures f.activeOwner == Complaint(ActiveOwner, decode, ps, G)
    ensures f.candidateOwner == Complaint(CandidateOwner, decode, ps, G)
    ensures f.status == Complaint(CandidateStatus, decode, ps, G)
  {
    hide *;
    var a := Collect(ps, Active, G);
    var c := Collect(ps, Candidates, G);
    TallyReports(a, ps, Active, G);
    TallyReports(c, ps, Candidates, G);
    TallyFlags(a, ps, Active, G, |ps|);
    TallyFlags(c, ps, Candidates, G, |ps|);
    var badActive := AnyBadReporters(a, G);
    var badCandidates := AnyBadReporters(c, G);
    var missing, unreported := AnyMissing(ps), AnyOutside(decode, a.ranks);
    var unexpected, overlap := AnyUnlisted(a.ranks, decode), AnyInside(decode, c.ranks);
    ReportCases(decode, ps, G, a, c, missing, unreported, unexpected, overlap);
    f := Flags(missing, unreported, unexpected, badActive, badCandidates, overlap,
               a.wrongOwner, c.wrongOwner, c.badStatus);
  }

  lemma ReportCases(decode: seq<string>, ps: Gather, G: int, a: Tally, c: Tally,
                    missing: bool, unreported: bool, unexpected: bool, overlap: bool)
    requires forall u :: u in a.ranks <==> IsReported(ps, Active, u)
    requires forall u :: u in c.ranks <==> IsReported(ps, Candidates, u)
    requires missing == AnyMissing(ps) && unreported == AnyOutside(decode, a.ranks)
    requires unexpected == AnyUnlisted(a.ranks, decode) && overlap == AnyInside(decode, c.ranks)
    ensures missing == Complaint(PayloadMissing, decode, ps, G)
    ensures unreported == Complaint(ActiveMissing, decode, ps, G)
    ensures unexpected == Complaint(ActiveUnexpected, decode, ps, G)
    ensures overlap == Complaint(Overlap, decode, ps, G)
    ensures SomeBadReporters(ps, Active, G) == Complaint(ActiveReporters, decode, ps, G)
    ensures SomeBadReporters(ps, Candidates, G) == Complaint(CandidateReporters, decode, ps, G)
    ensures SomeWrongOwner(ps, Active, G, |ps|) == Complaint(ActiveOwner, decode, ps, G)
    ensures SomeWrongOwner(ps, Candidates, G, |ps|) == Complaint(CandidateOwner, decode, ps, G)
    ensures SomeBadStatus(ps, Candidates, |ps|) == Complaint(CandidateStatus, decode, ps, G)
  {
    hide IsReported, SomeWrongOwner, SomeBadStatus, SomeBadReporters;
  }

  /** The complaints about the reported page capacity; the later ones need a complete snapshot. */
  method CapacityComplaints(decode: seq<string>, ps: Gather, G: int) returns (c: CapacityFlags)
    ensures c.total == Complaint(TotalMissing, decode, ps, G)
    ensures c.free == Complaint(FreeMissing, decode, ps, G)
    ensures c.negativeTotal == Complaint(NegativeTotal, decode, ps, G)
    ensures c.negativeFree == Complaint(NegativeFree, decode, ps, G)
    ensures c.over == Complaint(FreeOverTotal, decode, ps, G)
    ensures c.diverge == Complaint(TotalsDiverge, decode, ps, G)
  {
    hide AnyTotal, AllTotals, AllFrees, AnyTotalBelowZero, AnyFreeBelowZero, AnyFreeOverTotal, AnyTotalsDiverge;
    if !AnyTotal(ps) {
      return CapacityFlags(false, false, false, false, false, false);
    }
    if !AllTotals(ps) {
      return CapacityFlags(true, false, false, false, false, false);
    }
    if !AllFrees(ps) {
      return CapacityFlags(false, true, false, false, false, false);
    }
    c := CapacityFlags(false, false, AnyTotalBelowZero(ps), AnyFreeBelowZero(ps), AnyFreeOverTotal(ps), AnyTotalsDiverge(ps));
  }

  function Raised(f: Flags, c: CapacityFlags): set<Error> { set e: Error | Flagged(e, f, c) }

  lemma InRaised(e: Error, f: Flags, c: CapacityFlags)
    ensures e in Raised(f, c) <==> Flagged(e, f, c)
  {
    hide Flagged;
  }

  lemma FlaggedIsComplaint(e: Error, f: Flags, c: CapacityFlags, decode: seq<string>, ps: Gather, G: int)
    requires f.missing == Complaint(PayloadMissing, decode, ps, G)
    requires f.unreported == Complaint(ActiveMissing, decode, ps, G)
    requires f.unexpected == Complaint(ActiveUnexpected, decode, ps, G)
    requires f.badActive == Complaint(ActiveReporters, decode, ps, G)
    requires f.badCandidates == Complaint(CandidateReporters, decode, ps, G)
    requires f.overlap == Complaint(Overlap, decode, ps, G)
    requires f.activeOwner == Complaint(ActiveOwner, decode, ps, G)
    requires f.candidateOwner == Complaint(CandidateOwner, decode, ps, G)
    requires f.status == Complaint(CandidateStatus, decode, ps, G)
    requires c.total == Complaint(TotalMissing, decode, ps, G)
    requires c.free == Complaint(FreeMissing, decode, ps, G)
    requires c.negativeTotal == Complaint(NegativeTotal, decode, ps, G)
    requires c.negativeFree == Complaint(NegativeFree, decode, ps, G)
    requires c.over == Complaint(FreeOverTotal, decode, ps, G)
    requires c.diverge == Complaint(TotalsDiverge, decode, ps, G)
    ensures Flagged(e, f, c) <==> Complaint(e, decode, ps, G)
  {
    hide Complaint;
  }

  /** Raises exactly the complaints of the gather, so it passes exactly the consistent ones. */
  method Validate(decode: seq<string>, ps: Gather, G: int) returns (errors: set<Error>)
    ensures forall e :: e in errors <==> Complaint(e, decode, ps, G)
    ensures errors == {} <==> Consistent(decode, ps, G)
    ensures errors == {} <==> Promised(decode, ps, G)
  {
    hide *;
    PromisedIff(decode, ps, G);
    var f := ReportFlags(decode, ps, G);
    var c := CapacityComplaints(decode, ps, G);
    errors := Raised(f, c);
    forall e
      ensures e in errors <==> Complaint(e, decode, ps, G)
    {
      InRaised(e, f, c);
      FlaggedIsComplaint(e, f, c, decode, ps, G);
    }
    NoComplaintIffConsistent(decode, ps, G);
    if errors == {} {
      forall e ensures !Complaint(e, decode, ps, G) { assert e !in errors; }
    }
  }
}
