/**
 Lane admission: several launchers share one host through manifest files.  A
 start is admitted only against every manifest not marked stopped; a crash, a
 dead owner or a half-written manifest must never let two lanes share a GPU, a
 port, a writable path or host memory.  The admission lock makes each start and
 stop one step.
 */
module LaneAdmission {
  import opened Arith
  import opened Options

  /** An absolute, resolved path as its components below the root. */
  type Path = seq<string>

  const GIB: nat := 1024 * 1024 * 1024
  const MIN_SAFETY: nat := 64 * GIB
  const WEIGHT_SHM: nat := 70 * GIB
  const TRANSIENT_SHM: nat := 16 * GIB
  const PRIVATE_RESERVE: nat := 64 * GIB

  /** What a lane asks for, memory in bytes. */
  datatype Resources = Resources(gpus: set<string>, listenPort: nat, distPort: nat, pyncclBase: nat, pyncclSpan: nat,
                                 laneRoot: Path, paths: seq<Path>, hostKv: nat, shm: nat, hostMemory: nat, safety: nat)

  // ---- overlap checks ------------------------------------------------------------------

  /** Equal, or one contains the other. */
  predicate PathsOverlap(p: Path, q: Path) {
    p == q || p < q || q < p
  }

  predicate RangesOverlap(aLo: nat, aHi: nat, bLo: nat, bHi: nat) {
    Max(aLo, bLo) < Min(aHi, bHi)
  }

  predicate Within(x: nat, lo: nat, hi: nat) { lo <= x < hi }

  /** Two ranges overlap exactly when they share a number. */
  lemma RangesOverlapIff(aLo: nat, aHi: nat, bLo: nat, bHi: nat)
    ensures RangesOverlap(aLo, aHi, bLo, bHi) <==> exists x :: Within(x, aLo, aHi) && Within(x, bLo, bHi)
  {
    var x := Max(aLo, bLo);
    if RangesOverlap(aLo, aHi, bLo, bHi) { assert Within(x, aLo, aHi) && Within(x, bLo, bHi); }
  }

  predicate Under(x: Path, p: Path) { p <= x }

  /** Two paths overlap exactly when some location lies under both. */
  lemma PathsOverlapIff(p: Path, q: Path)
    ensures PathsOverlap(p, q) <==> exists x :: Under(x, p) && Under(x, q)
  {
    if PathsOverlap(p, q) {
      var x := if |p| <= |q| then q else p;
      assert Under(x, p) && Under(x, q);
    }
    if x :| Under(x, p) && Under(x, q) {
      if |p| <= |q| { assert p == q[..|p|]; } else { assert q == p[..|q|]; }
    }
  }

  function Ports(r: Resources): set<nat> { {r.listenPort, r.distPort} }

  predicate InRange(port: nat, r: Resources) { Within(port, r.pyncclBase, r.pyncclBase + r.pyncclSpan) }

  /** The PyNccl range of either lane meets a port or the range of the other. */
  predicate PyncclOverlap(a: Resources, b: Resources) {
    || RangesOverlap(a.pyncclBase, a.pyncclBase + a.pyncclSpan, b.pyncclBase, b.pyncclBase + b.pyncclSpan)
    || (exists port | port in Ports(a) :: InRange(port, b))
    || (exists port | port in Ports(b) :: InRange(port, a))
  }

  /** Disjoint GPUs, ports and PyNccl ranges, and no nested writable paths. */
  predicate Apart(a: Resources, b: Resources) {
    && a.gpus !! b.gpus
    && Ports(a) !! Ports(b)
    && !PyncclOverlap(a, b)
    && forall i, j | 0 <= i < |a.paths| && 0 <= j < |b.paths| :: !PathsOverlap(a.paths[i], b.paths[j])
  }

  predicate Compatible(a: Resources, b: Resources) {
    !PathsOverlap(a.laneRoot, b.laneRoot) && Apart(a, b)
  }

  lemma CompatibleIsSymmetric(a: Resources, b: Resources)
    ensures Compatible(a, b) <==> Compatible(b, a)
  {
  }

  predicate PathsApart(r: Resources) {
    forall i, j | 0 <= i < j < |r.paths| :: !PathsOverlap(r.paths[i], r.paths[j])
  }

  /** The writable directories of a lane: storage, the converted checkpoint and five caches. */
  function CanonicalPaths(root: Path, converted: Path): seq<Path> {
    [root + ["storage"], converted, root + ["tmp"], root + ["torch-extensions"], root + ["triton-cache"],
     root + ["torchinductor-cache"], root + ["cuda-cache"]]
  }

  /** What a start demands of its arguments before it looks at other lanes. */
  predicate WellFormed(r: Resources) {
    && |r.gpus| in {1, 2, 4, 8} && (forall gpu | gpu in r.gpus :: "GPU-" <= gpu)
    && 0 < r.listenPort <= 65535 && 0 < r.distPort <= 65535 && r.listenPort != r.distPort
    && 0 < r.pyncclBase <= 65535 && 0 < r.pyncclSpan && r.pyncclBase + r.pyncclSpan <= 65536
    && (|r.gpus| > 1 ==> !InRange(r.listenPort, r) && !InRange(r.distPort, r))
    && r.hostKv > 0 && r.shm >= r.hostKv + WEIGHT_SHM + TRANSIENT_SHM
    && r.hostMemory >= r.shm + PRIVATE_RESERVE && r.safety >= MIN_SAFETY
    && |r.paths| == 7 && r.laneRoot <= r.paths[1] && r.paths == CanonicalPaths(r.laneRoot, r.paths[1])
  }

  // ---- lanes and the host -----------------------------------------------------------------

  datatype LaneState = Starting | Admitted | Stopping | Failed | Stopped

  /** A manifest: its owner's identity is missing until the second write of a start. */
  datatype Lane = Lane(id: string, res: Resources, state: LaneState, owner: Option<nat>)

  /**
   The manifests, and the owner processes that are alive; `exact` owners also
   still run the command recorded for them.  Identities are never reused.
   `gpuProcs` lists which process group runs on which GPU, lanes' and others'.
   */
  datatype Host = Host(memTotal: nat, lanes: seq<Lane>, live: set<nat>, exact: set<nat>, nextOwner: nat,
                       gpuProcs: set<(nat, string)>)

  predicate Active(l: Lane) { l.state != Stopped }

  predicate OwnerIn(l: Lane, owners: set<nat>) { l.owner.Some? && l.owner.value in owners }

  /** Host memory reserved by active lanes. */
  function Reserved(lanes: seq<Lane>): nat {
    if lanes == [] then 0
    else Reserved(lanes[..|lanes| - 1]) + Share(lanes[|lanes| - 1])
  }

  function Share(l: Lane): nat { if Active(l) then l.res.hostMemory else 0 }

  // ---- admission ------------------------------------------------------------------------------

  /** Every active manifest has a live, exact owner and no stopped one does. */
  predicate Unambiguous(h: Host) {
    forall i | 0 <= i < |h.lanes| ::
      if Active(h.lanes[i]) then OwnerIn(h.lanes[i], h.exact) else !OwnerIn(h.lanes[i], h.live)
  }

  /** No active lane has this id, or shares any resource with the candidate. */
  predicate NoOverlap(lanes: seq<Lane>, id: string, res: Resources) {
    && PathsApart(res)
    && forall i | 0 <= i < |lanes| && Active(lanes[i]) :: lanes[i].id != id && Compatible(res, lanes[i].res)
  }

  /** Reservations with the candidate's, plus the largest safety reserve, stay within the host. */
  predicate MemoryFits(lanes: seq<Lane>, res: Resources, memTotal: nat, used: nat) {
    && used + res.hostMemory + res.safety <= memTotal
    && Reserved(lanes) + res.hostMemory + res.safety <= memTotal
    && forall i | 0 <= i < |lanes| && Active(lanes[i]) ::
         && Reserved(lanes) + res.hostMemory + lanes[i].res.safety <= memTotal
         && used + res.hostMemory + lanes[i].res.safety <= memTotal
  }

  predicate LowerOrDigit(c: char) { 'a' <= c <= 'z' || '0' <= c <= '9' }

  predicate InstanceId(id: string) {
    && 0 < |id| <= 48 && LowerOrDigit(id[0])
    && forall i | 0 < i < |id| :: LowerOrDigit(id[i]) || id[i] == '_' || id[i] == '-'
  }

  const NAME_START := {'a', 'b', 'c', 'd', 'e', 'f', 'g', 'h', 'i', 'j', 'k', 'l', 'm', 'n', 'o', 'p', 'q', 'r', 's', 't', 'u',
                       'v', 'w', 'x', 'y', 'z', '0', '1', '2', '3', '4', '5', '6', '7', '8', '9'}

  lemma LowerOrDigitIff(c: char)
    ensures LowerOrDigit(c) <==> c in NAME_START
  {
    if LowerOrDigit(c) {
      var n := c as int;
      assert 48 <= n <= 57 || 97 <= n <= 122;
    }
  }

  /** Names are one of 36 characters followed by up to 47 of those, underscores or hyphens. */
  lemma InstanceIdIff(id: string)
    ensures InstanceId(id) <==>
              && 1 <= |id| <= 48 && id[0] in NAME_START
              && forall i | 0 <= i < |id| :: id[i] in NAME_START + {'_', '-'}
  {
    hide LowerOrDigit;
    forall c ensures LowerOrDigit(c) <==> c in NAME_START { LowerOrDigitIff(c); }
  }

  predicate GpusIdle(procs: set<(nat, string)>, gpus: set<string>) {
    forall proc | proc in procs :: proc.1 !in gpus
  }

  predicate Admissible(h: Host, id: string, res: Resources, used: nat) {
    && InstanceId(id) && WellFormed(res) && Unambiguous(h) && NoOverlap(h.lanes, id, res) && MemoryFits(h.lanes, res, h.memTotal, used)
    && GpusIdle(h.gpuProcs, res.gpus)
  }

  // ---- steps --------------------------------------------------------------------------------------

  /** How far a start got: a launcher may die between its manifest writes. */
  datatype StartEnd = BeforeWrite | Unowned | Owned | Done

  /** What a stop sees: its launcher may die, the process group may survive, run files may be left over. */
  datatype StopSight = StopSight(launcherDies: bool, groupGone: bool, leftovers: bool)

  datatype Step =
    | Start(id: string, res: Resources, used: nat, end: StartEnd)
    | Stop(id: string, sight: StopSight)
    | OwnerDies(owner: nat)
    | CommandChanges(owner: nat)
    | GpuOpens(group: nat, gpu: string)
    | GpuCloses(group: nat, gpu: string)

  function Find(lanes: seq<Lane>, id: string): (i: nat)
    ensures i <= |lanes| && (i < |lanes| ==> lanes[i].id == id)
    ensures forall j | 0 <= j < i :: lanes[j].id != id
  {
    if lanes == [] || lanes[0].id == id then 0 else 1 + Find(lanes[1..], id)
  }

  /** Writes the manifest file of one instance. */
  function Put(lanes: seq<Lane>, l: Lane): seq<Lane> {
    var i := Find(lanes, l.id);
    if i < |lanes| then lanes[i := l] else lanes + [l]
  }

  function Started(h: Host, id: string, res: Resources, end: StartEnd): Host {
    match end
    case BeforeWrite => h
    case Unowned => h.(lanes := Put(h.lanes, Lane(id, res, Starting, None)))
    case _ =>
      var state := if end == Done then Admitted else Starting;
      h.(lanes := Put(h.lanes, Lane(id, res, state, Some(h.nextOwner))),
         live := h.live + {h.nextOwner}, exact := h.exact + {h.nextOwner}, nextOwner := h.nextOwner + 1)
  }

  function Killed(h: Host, owner: nat): Host { h.(live := h.live - {owner}, exact := h.exact - {owner}) }

  /** The whole process group of a lane has ended. */
  function Ended(h: Host, owner: nat): Host {
    Killed(h, owner).(gpuProcs := set proc | proc in h.gpuProcs && proc.0 != owner)
  }

  /** Run files left over, or any process on the lane's GPUs. */
  predicate Residue(h: Host, res: Resources, sight: StopSight) {
    sight.leftovers || !GpusIdle(h.gpuProcs, res.gpus)
  }

  /** The end of a stop, once the process group is gone. */
  function Concluded(h: Host, i: nat, owner: nat, sight: StopSight): Host
    requires i < |h.lanes|
  {
    var ended := Ended(h, owner);
    WithState(ended, i, if Residue(ended, h.lanes[i].res, sight) then Failed else Stopped)
  }

  function WithState(h: Host, i: nat, state: LaneState): Host
    requires i < |h.lanes|
  {
    h.(lanes := h.lanes[i := h.lanes[i].(state := state)])
  }

  function StoppedAt(h: Host, i: nat, sight: StopSight): Host
    requires i < |h.lanes|
  {
    var l := h.lanes[i];
    if l.owner.None? then h
    else if OwnerIn(l, h.exact) then
      if sight.launcherDies then WithState(h, i, Stopping)
      else if !sight.groupGone then WithState(h, i, Failed)
      else Concluded(h, i, l.owner.value, sight)
    else if !sight.groupGone || OwnerIn(l, h.live) then h
    else Concluded(h, i, l.owner.value, sight)
  }

  function Apply(h: Host, step: Step): Host {
    match step
    case Start(id, res, used, end) => if Admissible(h, id, res, used) then Started(h, id, res, end) else h
    case Stop(id, sight) => var i := Find(h.lanes, id); if i < |h.lanes| then StoppedAt(h, i, sight) else h
    case OwnerDies(owner) => Killed(h, owner)
    case CommandChanges(owner) => h.(exact := h.exact - {owner})
    case GpuOpens(group, gpu) => h.(gpuProcs := h.gpuProcs + {(group, gpu)})
    case GpuCloses(group, gpu) => h.(gpuProcs := h.gpuProcs - {(group, gpu)})
  }

  function Run(h: Host, steps: seq<Step>): Host
    decreases |steps|
  {
    if steps == [] then h else Run(Apply(h, steps[0]), steps[1..])
  }

  // ---- what every step keeps ---------------------------------------------------------------------

  /** Lanes not marked stopped share nothing and fit the host together. */
  ghost predicate Safe(lanes: seq<Lane>, memTotal: nat) {
    && (forall i, j | 0 <= i < j < |lanes| && Active(lanes[i]) && Active(lanes[j]) :: Compatible(lanes[i].res, lanes[j].res))
    && (forall i | 0 <= i < |lanes| && Active(lanes[i]) :: Reserved(lanes) + lanes[i].res.safety <= memTotal)
  }

  /** Manifests are one per id and were admitted once; owners of stopped lanes are dead, and stay so. */
  ghost predicate Recorded(h: Host) {
    && h.exact <= h.live && (forall o | o in h.live :: o < h.nextOwner)
    && (forall i, j | 0 <= i < j < |h.lanes| :: h.lanes[i].id != h.lanes[j].id)
    && forall i | 0 <= i < |h.lanes| ::
         && WellFormed(h.lanes[i].res) && PathsApart(h.lanes[i].res)
         && (h.lanes[i].owner.Some? ==> h.lanes[i].owner.value < h.nextOwner)
         && (!Active(h.lanes[i]) ==> !OwnerIn(h.lanes[i], h.live))
  }

  ghost predicate Invariant(h: Host) { Recorded(h) && Safe(h.lanes, h.memTotal) }

  /** An inactive lane could become active beside the others. */
  ghost predicate Joinable(lanes: seq<Lane>, res: Resources, memTotal: nat) {
    && (forall j | 0 <= j < |lanes| && Active(lanes[j]) :: Compatible(res, lanes[j].res))
    && Reserved(lanes) + res.hostMemory + res.safety <= memTotal
    && (forall j | 0 <= j < |lanes| && Active(lanes[j]) ::
          Reserved(lanes) + res.hostMemory + lanes[j].res.safety <= memTotal)
  }

  lemma {:induction false} ReservedUpdate(lanes: seq<Lane>, i: nat, l: Lane)
    requires i < |lanes|
    ensures Reserved(lanes[i := l]) == Reserved(lanes) - Share(lanes[i]) + Share(l)
    decreases |lanes|
  {
    var n := |lanes| - 1;
    if i < n {
      ReservedUpdate(lanes[..n], i, l);
      assert lanes[i := l][..n] == lanes[..n][i := l];
    } else {
      assert lanes[i := l][..n] == lanes[..n];
    }
  }

  /** Activating a lane keeps the host safe exactly when it is joinable. */
  lemma JoinIff(lanes: seq<Lane>, i: nat, l: Lane, memTotal: nat)
    requires i < |lanes| && Safe(lanes, memTotal) && !Active(lanes[i]) && Active(l)
    ensures Safe(lanes[i := l], memTotal) <==> Joinable(lanes, l.res, memTotal)
  {
    hide Compatible, Reserved;
    var joined := lanes[i := l];
    ReservedUpdate(lanes, i, l);
    if Safe(joined, memTotal) {
      assert joined[i] == l;
      forall j | 0 <= j < |lanes| && Active(lanes[j])
        ensures Compatible(l.res, lanes[j].res) && Reserved(lanes) + l.res.hostMemory + lanes[j].res.safety <= memTotal
      {
        assert joined[j] == lanes[j];
        if j < i { CompatibleIsSymmetric(joined[j].res, joined[i].res); }
      }
    }
    if Joinable(lanes, l.res, memTotal) {
      forall j, k | 0 <= j < k < |joined| && Active(joined[j]) && Active(joined[k])
        ensures Compatible(joined[j].res, joined[k].res)
      {
        CompatibleIsSymmetric(joined[j].res, joined[k].res);
      }
    }
  }

  /** Stopping a lane, or moving it between active states, keeps the host safe. */
  lemma LeaveKeeps(lanes: seq<Lane>, i: nat, l: Lane, memTotal: nat)
    requires i < |lanes| && Safe(lanes, memTotal) && l.res == lanes[i].res && (Active(l) ==> Active(lanes[i]))
    ensures Safe(lanes[i := l], memTotal)
  {
    hide Compatible, Reserved;
    ReservedUpdate(lanes, i, l);
  }

  lemma AppendStopped(lanes: seq<Lane>, l: Lane, memTotal: nat)
    requires Safe(lanes, memTotal) && !Active(l)
    ensures Reserved(lanes + [l]) == Reserved(lanes) && Safe(lanes + [l], memTotal)
  {
    hide Compatible;
    assert (lanes + [l])[..|lanes|] == lanes;
  }

  /** An admissible lane joins safely, whether its id is new or left over from a stopped lane. */
  lemma PutKeeps(lanes: seq<Lane>, l: Lane, memTotal: nat, used: nat)
    requires Safe(lanes, memTotal) && Active(l)
    requires NoOverlap(lanes, l.id, l.res) && MemoryFits(lanes, l.res, memTotal, used)
    ensures Safe(Put(lanes, l), memTotal)
  {
    hide Compatible, Reserved;
    var i := Find(lanes, l.id);
    if i < |lanes| {
      JoinIff(lanes, i, l, memTotal);
    } else {
      var idle := l.(state := Stopped);
      AppendStopped(lanes, idle, memTotal);
      JoinIff(lanes + [idle], i, l, memTotal);
      assert (lanes + [idle])[i := l] == lanes + [l];
    }
  }

  lemma StartRecords(h: Host, id: string, res: Resources, end: StartEnd)
    requires Recorded(h) && WellFormed(res) && PathsApart(res)
    ensures Recorded(Started(h, id, res, end))
  {
    hide WellFormed, PathsApart;
  }

  lemma StopRecords(h: Host, i: nat, sight: StopSight)
    requires Recorded(h) && i < |h.lanes|
    ensures Recorded(StoppedAt(h, i, sight))
  {
    hide WellFormed, PathsApart;
  }

  /** A stop of an already stopped lane that finds residue: it marks the lane failed, hence active again. */
  predicate Revives(h: Host, step: Step) {
    && step.Stop? && step.sight.groupGone
    && var i := Find(h.lanes, step.id);
    && i < |h.lanes| && !Active(h.lanes[i]) && h.lanes[i].owner.Some?
    && Residue(Ended(h, h.lanes[i].owner.value), h.lanes[i].res, step.sight)
  }

  /** A revived lane must still be compatible with everything admitted since it stopped. */
  ghost predicate Harmless(h: Host, step: Step) {
    Revives(h, step) ==> Joinable(h.lanes, h.lanes[Find(h.lanes, step.id)].res, h.memTotal)
  }

  lemma StopKeepsIff(h: Host, step: Step)
    requires Invariant(h) && step.Stop?
    ensures Safe(Apply(h, step).lanes, h.memTotal) <==> Harmless(h, step)
  {
    hide Compatible, Reserved, WellFormed, PathsApart, Safe, Joinable;
    var i := Find(h.lanes, step.id);
    if i < |h.lanes| {
      var after := Apply(h, step).lanes;
      assert after == h.lanes[i := after[i]] && after[i].res == h.lanes[i].res;
      if Active(after[i]) && !Active(h.lanes[i]) {
        JoinIff(h.lanes, i, after[i], h.memTotal);
      } else {
        LeaveKeeps(h.lanes, i, after[i], h.memTotal);
      }
    }
  }

  /** Every step keeps the host safe, except exactly a stop that revives a lane whose resources are taken. */
  lemma StepKeepsIff(h: Host, step: Step)
    requires Invariant(h)
    ensures Invariant(Apply(h, step)) <==> Harmless(h, step)
  {
    hide Compatible, Reserved, WellFormed, Joinable, PathsApart, MemoryFits, InstanceId, Unambiguous, GpusIdle;
    match step
    case Start(id, res, used, end) =>
      if Admissible(h, id, res, used) && end != BeforeWrite {
        StartRecords(h, id, res, end);
        var l := Started(h, id, res, end).lanes[Find(h.lanes, id)];
        PutKeeps(h.lanes, l, h.memTotal, used);
      }
    case Stop(id, sight) =>
      StopKeepsIff(h, step);
      if Find(h.lanes, id) < |h.lanes| { StopRecords(h, Find(h.lanes, id), sight); }
    case OwnerDies(owner) =>
    case CommandChanges(owner) =>
    case GpuOpens(group, gpu) =>
    case GpuCloses(group, gpu) =>
  }

  ghost predicate Guarded(h: Host, steps: seq<Step>)
    decreases |steps|
  {
    steps == [] || (Harmless(h, steps[0]) && Guarded(Apply(h, steps[0]), steps[1..]))
  }

  /** Over any run of starts, crashes, owner deaths and stops, the host stays safe. */
  lemma {:induction false} RunKeeps(h: Host, steps: seq<Step>)
    requires Invariant(h) && Guarded(h, steps)
    ensures Invariant(Run(h, steps))
    decreases |steps|
  {
    hide Invariant, Apply, Harmless;
    if steps != [] {
      StepKeepsIff(h, steps[0]);
      RunKeeps(Apply(h, steps[0]), steps[1..]);
    }
  }

  predicate StopsOnlyActive(h: Host, steps: seq<Step>)
    decreases |steps|
  {
    || steps == []
    || (&& (steps[0].Stop? ==> forall i | 0 <= i < |h.lanes| && h.lanes[i].id == steps[0].id :: Active(h.lanes[i]))
        && StopsOnlyActive(Apply(h, steps[0]), steps[1..]))
  }

  /** Runs that never stop a lane twice need no further guard. */
  lemma {:induction false} StoppingOnceIsGuarded(h: Host, steps: seq<Step>)
    requires StopsOnlyActive(h, steps)
    ensures Guarded(h, steps)
    decreases |steps|
  {
    hide Apply, Joinable;
    if steps != [] { StoppingOnceIsGuarded(Apply(h, steps[0]), steps[1..]); }
  }

  // ---- stopping a stopped lane again ----------------------------------------------------------------

  const CLEAN := StopSight(false, true, false)

  lemma StartAndStop(h: Host, id: string, res: Resources, used: nat)
    requires h.lanes == [] && Recorded(h) && Admissible(h, id, res, used)
    ensures var after := Apply(Apply(h, Start(id, res, used, Done)), Stop(id, CLEAN));
            && after == h.(lanes := [Lane(id, res, Stopped, Some(h.nextOwner))], nextOwner := h.nextOwner + 1,
                           gpuProcs := after.gpuProcs)
            && after.gpuProcs <= h.gpuProcs
  {
    assert GpusIdle(h.gpuProcs, res.gpus);
    hide Admissible;
    var started := Apply(h, Start(id, res, used, Done));
    assert started.lanes == [Lane(id, res, Admitted, Some(h.nextOwner))];
    assert Find(started.lanes, id) == 0;
  }

  /** A host with one stopped lane admits what it admits with none. */
  lemma StoppedLaneIsIgnored(h: Host, after: Host, id: string, res: Resources, used: nat)
    requires h.lanes == [] && |after.lanes| == 1 && !Active(after.lanes[0]) && !OwnerIn(after.lanes[0], after.live)
    requires after.memTotal == h.memTotal && after.gpuProcs <= h.gpuProcs && Admissible(h, id, res, used)
    ensures Admissible(after, id, res, used)
  {
    hide WellFormed, PathsApart;
    assert Reserved(after.lanes) == 0 by { assert after.lanes[..0] == []; }
  }

  lemma StartOtherAndStopAgain(h: Host, l: Lane, id: string, res: Resources, used: nat, gpu: string)
    requires h.lanes == [l] && l.state == Stopped && l.owner.Some? && !OwnerIn(l, h.live) && h.exact <= h.live
    requires l.id != id && l.owner.value != h.nextOwner && Admissible(h, id, res, used) && gpu in l.res.gpus
    ensures var running := Apply(Apply(h, Start(id, res, used, Done)), GpuOpens(h.nextOwner, gpu));
            Apply(running, Stop(l.id, CLEAN)).lanes == [l.(state := Failed), Lane(id, res, Admitted, Some(h.nextOwner))]
  {
    hide Admissible;
    var started := Apply(h, Start(id, res, used, Done));
    assert [l][1..] == [];
    assert Find(h.lanes, id) == 1;
    assert started.lanes == [l, Lane(id, res, Admitted, Some(h.nextOwner))];
    assert Find(started.lanes, l.id) == 0;
    var ended := Ended(Apply(started, GpuOpens(h.nextOwner, gpu)), l.owner.value);
    assert (h.nextOwner, gpu) in ended.gpuProcs;
  }

  /**
   Start a lane, stop it, start another on one of its GPUs and let that compute,
   stop the first again: the second lane's process reads as residue, and the
   first becomes failed beside it.
   */
  lemma StoppingTwiceRevives(h: Host, a: string, b: string, resA: Resources, resB: Resources, used: nat, gpu: string)
    requires h.lanes == [] && Recorded(h) && a != b && gpu in resA.gpus && gpu in resB.gpus
    requires Admissible(h, a, resA, used) && Admissible(h, b, resB, used)
    ensures Invariant(h)
    ensures var once := Apply(Apply(h, Start(a, resA, used, Done)), Stop(a, CLEAN));
            var running := Apply(Apply(once, Start(b, resB, used, Done)), GpuOpens(once.nextOwner, gpu));
            !Safe(Apply(running, Stop(a, CLEAN)).lanes, h.memTotal)
  {
    var l := Lane(a, resA, Stopped, Some(h.nextOwner));
    var once := Apply(Apply(h, Start(a, resA, used, Done)), Stop(a, CLEAN));
    StartAndStop(h, a, resA, used);
    StoppedLaneIsIgnored(h, once, b, resB, used);
    StartOtherAndStopAgain(once, l, b, resB, used, gpu);
    hide Apply, Admissible;
    var lanes := [l.(state := Failed), Lane(b, resB, Admitted, Some(once.nextOwner))];
    assert Active(lanes[0]) && Active(lanes[1]) && !Compatible(lanes[0].res, lanes[1].res);
  }

  /** A one-GPU lane with the least memory a start accepts. */
  function Example(gpu: string, port: nat, root: string): Resources {
    var shm := 1 + WEIGHT_SHM + TRANSIENT_SHM;
    Resources({gpu}, port, port + 1, port + 2, 1, [root], CanonicalPaths([root], [root, "converted"]), 1, shm,
              shm + PRIVATE_RESERVE, MIN_SAFETY)
  }

  /** Two such lanes under different roots and ports want the same GPU, and an idle empty host admits either. */
  lemma ExamplesClash(h: Host, name: string, a: string, b: string, port: nat)
    requires h.lanes == [] && h.gpuProcs == {} && h.memTotal >= 215 * GIB && 0 < port < 60000
    requires InstanceId(a) && InstanceId(b)
    ensures var gpu := "GPU-" + name;
            && Admissible(h, a, Example(gpu, port, a), 0) && Admissible(h, b, Example(gpu, port + 10, b), 0)
            && gpu in Example(gpu, port, a).gpus && gpu in Example(gpu, port + 10, b).gpus
  {
    ExampleIsAdmissible(h, a, name, port);
    ExampleIsAdmissible(h, b, name, port + 10);
  }

  lemma ExampleIsAdmissible(h: Host, id: string, name: string, port: nat)
    requires h.lanes == [] && h.gpuProcs == {} && h.memTotal >= 215 * GIB && 0 < port < 65000 && InstanceId(id)
    ensures Admissible(h, id, Example("GPU-" + name, port, id), 0)
  {
    var res := Example("GPU-" + name, port, id);
    assert |res.gpus| == 1;
    ExamplePathsApart(id);
    assert PathsApart(res);
  }

  lemma ExamplePathsApart(root: string)
    ensures var paths := CanonicalPaths([root], [root, "converted"]);
            forall i, j | 0 <= i < j < |paths| :: !PathsOverlap(paths[i], paths[j])
  {
    var paths := CanonicalPaths([root], [root, "converted"]);
    forall i, j | 0 <= i < j < |paths| ensures !PathsOverlap(paths[i], paths[j]) {
      assert |paths[i]| == |paths[j]| == 2 && |paths[i][1]| != |paths[j][1]|;
    }
  }

  // ---- a launcher that died between its writes ----------------------------------------------------------

  /** A manifest without an owner: its launcher died before the second write. */
  predicate Abandoned(h: Host, i: nat) {
    && i < |h.lanes| && Active(h.lanes[i]) && h.lanes[i].owner.None?
    && forall j, k | 0 <= j < k < |h.lanes| :: h.lanes[j].id != h.lanes[k].id
  }

  lemma StepKeepsAbandoned(h: Host, i: nat, step: Step)
    requires Abandoned(h, i)
    ensures Abandoned(Apply(h, step), i) && Apply(h, step).lanes[i] == h.lanes[i]
    ensures Held(Apply(h, step).lanes) == Held(h.lanes)
  {
    assert !Unambiguous(h);
    hide WellFormed, NoOverlap, MemoryFits, InstanceId, Unambiguous, GpusIdle;
  }

  /** The resources each manifest was written with. */
  function Held(lanes: seq<Lane>): seq<(string, Resources)> {
    seq(|lanes|, i requires 0 <= i < |lanes| => (lanes[i].id, lanes[i].res))
  }

  /** An abandoned manifest survives every run, and no lane is admitted while it does. */
  lemma {:induction false} AbandonedBlocks(h: Host, i: nat, steps: seq<Step>)
    requires Abandoned(h, i)
    ensures Abandoned(Run(h, steps), i) && Run(h, steps).lanes[i] == h.lanes[i]
    ensures Held(Run(h, steps).lanes) == Held(h.lanes)
    decreases |steps|
  {
    hide Apply, Abandoned, Held;
    if steps != [] {
      StepKeepsAbandoned(h, i, steps[0]);
      AbandonedBlocks(Apply(h, steps[0]), i, steps[1..]);
      AbandonedIndex(h, i);
      AbandonedIndex(Apply(h, steps[0]), i);
    }
  }

  lemma AbandonedIndex(h: Host, i: nat)
    requires Abandoned(h, i)
    ensures i < |h.lanes|
  {
  }

  // ---- the same in the fields of manifests ------------------------------------------------------------------

  /** A port the lane binds or may bind: its two listeners and its PyNccl range. */
  ghost predicate Claims(r: Resources, port: nat) {
    port == r.listenPort || port == r.distPort || r.pyncclBase <= port < r.pyncclBase + r.pyncclSpan
  }

  /** A location at or below one of the lane's writable paths. */
  ghost predicate Writes(r: Resources, x: Path) { exists i :: 0 <= i < |r.paths| && Under(x, r.paths[i]) }

  /** No GPU, port, location below the roots or writable location belongs to both lanes. */
  ghost predicate NothingShared(a: Resources, b: Resources) {
    && (forall gpu | gpu in a.gpus :: gpu !in b.gpus)
    && (forall port | Claims(a, port) :: !Claims(b, port))
    && !(a.laneRoot <= b.laneRoot) && !(b.laneRoot <= a.laneRoot)
    && (forall x | Writes(a, x) :: !Writes(b, x))
  }

  lemma PortsApartIff(a: Resources, b: Resources)
    ensures Ports(a) !! Ports(b) && !PyncclOverlap(a, b) <==> forall port | Claims(a, port) :: !Claims(b, port)
  {
    RangesOverlapIff(a.pyncclBase, a.pyncclBase + a.pyncclSpan, b.pyncclBase, b.pyncclBase + b.pyncclSpan);
    hide RangesOverlap;
    forall port: nat
      ensures Claims(a, port) <==> port in Ports(a) || InRange(port, a)
      ensures Claims(b, port) <==> port in Ports(b) || InRange(port, b)
    {
    }
    hide Claims;
    if exists port: nat :: Claims(a, port) && Claims(b, port) {
      var port: nat :| Claims(a, port) && Claims(b, port);
      assert (port in Ports(a) && port in Ports(b)) || PyncclOverlap(a, b);
    }
    if PyncclOverlap(a, b) && RangesOverlap(a.pyncclBase, a.pyncclBase + a.pyncclSpan, b.pyncclBase, b.pyncclBase + b.pyncclSpan) {
      var port :| Within(port, a.pyncclBase, a.pyncclBase + a.pyncclSpan) && Within(port, b.pyncclBase, b.pyncclBase + b.pyncclSpan);
      assert Claims(a, port) && Claims(b, port);
    }
  }

  lemma WritesApartIff(a: Resources, b: Resources)
    ensures (forall i, j | 0 <= i < |a.paths| && 0 <= j < |b.paths| :: !PathsOverlap(a.paths[i], b.paths[j])) <==>
              forall x | Writes(a, x) :: !Writes(b, x)
  {
    hide PathsOverlap, Under;
    forall i, j | 0 <= i < |a.paths| && 0 <= j < |b.paths|
      ensures PathsOverlap(a.paths[i], b.paths[j]) <==> exists x :: Under(x, a.paths[i]) && Under(x, b.paths[j])
    {
      PathsOverlapIff(a.paths[i], b.paths[j]);
    }
    if exists x :: Writes(a, x) && Writes(b, x) {
      var x :| Writes(a, x) && Writes(b, x);
      var i :| 0 <= i < |a.paths| && Under(x, a.paths[i]);
      var j :| 0 <= j < |b.paths| && Under(x, b.paths[j]);
      assert PathsOverlap(a.paths[i], b.paths[j]);
    }
    if i, j :| 0 <= i < |a.paths| && 0 <= j < |b.paths| && PathsOverlap(a.paths[i], b.paths[j]) {
      var x :| Under(x, a.paths[i]) && Under(x, b.paths[j]);
      assert Writes(a, x) && Writes(b, x);
    }
  }

  lemma CompatibleIff(a: Resources, b: Resources)
    ensures Compatible(a, b) <==> NothingShared(a, b)
  {
    PortsApartIff(a, b);
    WritesApartIff(a, b);
    RootsApartIff(a.laneRoot, b.laneRoot);
    hide PyncclOverlap, Claims, PathsOverlap, Ports, Writes;
    assert a.gpus !! b.gpus <==> forall gpu | gpu in a.gpus :: gpu !in b.gpus;
  }

  lemma RootsApartIff(p: Path, q: Path)
    ensures PathsOverlap(p, q) <==> p <= q || q <= p
  {
  }

  /** Host memory of the lanes not marked stopped. */
  function Committed(lanes: seq<Lane>): nat {
    if lanes == [] then 0
    else (if lanes[0].state == Stopped then 0 else lanes[0].res.hostMemory) + Committed(lanes[1..])
  }

  lemma {:induction false} CommittedSnoc(lanes: seq<Lane>, l: Lane)
    ensures Committed(lanes + [l]) == Committed(lanes) + (if l.state == Stopped then 0 else l.res.hostMemory)
  {
    if lanes == [] {
      assert lanes + [l] == [l];
    } else {
      CommittedSnoc(lanes[1..], l);
      assert (lanes + [l])[1..] == lanes[1..] + [l];
    }
  }

  lemma {:induction false} ReservedIsCommitted(lanes: seq<Lane>)
    ensures Reserved(lanes) == Committed(lanes)
  {
    if lanes != [] {
      var n := |lanes| - 1;
      ReservedIsCommitted(lanes[..n]);
      CommittedSnoc(lanes[..n], lanes[n]);
      assert lanes == lanes[..n] + [lanes[n]];
    }
  }

  /** Lanes not marked stopped share no GPU, port or writable location, and fit the host with every safety reserve. */
  ghost predicate Separate(lanes: seq<Lane>, memTotal: nat) {
    && (forall i, j | 0 <= i < j < |lanes| && lanes[i].state != Stopped && lanes[j].state != Stopped ::
          NothingShared(lanes[i].res, lanes[j].res))
    && (forall i | 0 <= i < |lanes| && lanes[i].state != Stopped :: Committed(lanes) + lanes[i].res.safety <= memTotal)
  }

  lemma SafeIff(lanes: seq<Lane>, memTotal: nat)
    ensures Safe(lanes, memTotal) <==> Separate(lanes, memTotal)
  {
    hide Compatible, NothingShared, Reserved, Committed;
    ReservedIsCommitted(lanes);
    forall i, j | 0 <= i < j < |lanes| ensures Compatible(lanes[i].res, lanes[j].res) <==> NothingShared(lanes[i].res, lanes[j].res) {
      CompatibleIff(lanes[i].res, lanes[j].res);
    }
  }

  /** The candidate's memory beside what is committed and what is in use leaves this reserve free. */
  ghost predicate Leaves(lanes: seq<Lane>, res: Resources, memTotal: nat, used: nat, reserve: nat) {
    Committed(lanes) + res.hostMemory + reserve <= memTotal && used + res.hostMemory + reserve <= memTotal
  }

  /** What the host must look like for a start, in the fields of its manifests. */
  ghost predicate Ready(h: Host, id: string, res: Resources, used: nat) {
    && (forall i | 0 <= i < |h.lanes| && h.lanes[i].state != Stopped ::
          && h.lanes[i].owner.Some? && h.lanes[i].owner.value in h.exact
          && h.lanes[i].id != id && NothingShared(res, h.lanes[i].res)
          && Leaves(h.lanes, res, h.memTotal, used, h.lanes[i].res.safety))
    && (forall i | 0 <= i < |h.lanes| && h.lanes[i].state == Stopped && h.lanes[i].owner.Some? ::
          h.lanes[i].owner.value !in h.live)
    && Leaves(h.lanes, res, h.memTotal, used, res.safety)
    && (forall x, i, j | 0 <= i < j < |res.paths| && Under(x, res.paths[i]) :: !Under(x, res.paths[j]))
    && (forall proc | proc in h.gpuProcs :: proc.1 !in res.gpus)
  }

  lemma OwnPathsApartIff(res: Resources)
    ensures PathsApart(res) <==> forall x, i, j | 0 <= i < j < |res.paths| && Under(x, res.paths[i]) :: !Under(x, res.paths[j])
  {
    hide PathsOverlap, Under;
    forall i, j | 0 <= i < j < |res.paths|
      ensures PathsOverlap(res.paths[i], res.paths[j]) <==> exists x :: Under(x, res.paths[i]) && Under(x, res.paths[j])
    {
      PathsOverlapIff(res.paths[i], res.paths[j]);
    }
  }

  /** A start with valid arguments is admitted exactly on such a host. */
  lemma AdmissibleIff(h: Host, id: string, res: Resources, used: nat)
    requires InstanceId(id) && WellFormed(res)
    ensures Admissible(h, id, res, used) <==> Ready(h, id, res, used)
  {
    hide Compatible, NothingShared, Reserved, Committed, WellFormed, InstanceId, PathsApart;
    ReservedIsCommitted(h.lanes);
    OwnPathsApartIff(res);
    forall i | 0 <= i < |h.lanes| ensures Compatible(res, h.lanes[i].res) <==> NothingShared(res, h.lanes[i].res) {
      CompatibleIff(res, h.lanes[i].res);
    }
  }

  /** What a start writes: one manifest under its id and, from the second write on, a fresh live owner. */
  lemma StartWrites(h: Host, id: string, res: Resources, used: nat, end: StartEnd) returns (i: nat)
    requires Recorded(h) && Admissible(h, id, res, used) && end != BeforeWrite
    ensures var next := Apply(h, Start(id, res, used, end));
            && i < |next.lanes| && |h.lanes| <= |next.lanes| <= |h.lanes| + 1
            && (i == |h.lanes| || h.lanes[i].id == id) && (i < |h.lanes| <==> |next.lanes| == |h.lanes|)
            && next.lanes[i].id == id && next.lanes[i].res == res
            && next.lanes[i].state == (if end.Done? then Admitted else Starting)
            && next.lanes[i].owner == (if end.Unowned? then None else Some(h.nextOwner))
            && (forall j | 0 <= j < |next.lanes| && j != i :: j < |h.lanes| && next.lanes[j] == h.lanes[j])
            && h.nextOwner !in h.live
            && next.live == (if end.Unowned? then h.live else h.live + {h.nextOwner})
            && next.exact == (if end.Unowned? then h.exact else h.exact + {h.nextOwner})
            && next.nextOwner == (if end.Unowned? then h.nextOwner else h.nextOwner + 1)
            && next.memTotal == h.memTotal && next.gpuProcs == h.gpuProcs
  {
    hide Admissible, WellFormed, PathsApart;
    i := Find(h.lanes, id);
  }

  /** A start that is refused, or whose launcher dies before it writes, leaves the host as it was. */
  lemma RefusedStart(h: Host, id: string, res: Resources, used: nat, end: StartEnd)
    requires !Admissible(h, id, res, used) || end == BeforeWrite
    ensures Apply(h, Start(id, res, used, end)) == h
  {
  }

  /** The lane's process group runs where it may, and only other groups count as residue. */
  ghost predicate Vacated(h: Host, res: Resources, owner: nat) {
    forall proc | proc in h.gpuProcs && proc.1 in res.gpus :: proc.0 == owner
  }

  lemma ResidueIff(h: Host, res: Resources, owner: nat, sight: StopSight)
    ensures Residue(Ended(h, owner), res, sight) <==> sight.leftovers || !Vacated(h, res, owner)
  {
    var ended := Ended(h, owner);
    if !GpusIdle(ended.gpuProcs, res.gpus) {
      var proc :| proc in ended.gpuProcs && proc.1 in res.gpus;
      assert proc in h.gpuProcs && proc.0 != owner;
    }
    if !Vacated(h, res, owner) {
      var proc :| proc in h.gpuProcs && proc.1 in res.gpus && proc.0 != owner;
      assert proc in ended.gpuProcs;
    }
  }

  /**
   What a stop does to its lane, by what it sees.  Only a lane whose process
   group is gone, with no files left and no other group on its GPUs, is marked
   stopped.
   */
  lemma StopMarks(h: Host, i: nat, sight: StopSight)
    requires Recorded(h) && i < |h.lanes|
    ensures var l, next := h.lanes[i], Apply(h, Stop(h.lanes[i].id, sight));
            && |next.lanes| == |h.lanes| && (forall j | 0 <= j < |h.lanes| && j != i :: next.lanes[j] == h.lanes[j])
            && next.lanes[i] == l.(state := next.lanes[i].state) && next.memTotal == h.memTotal && next.nextOwner == h.nextOwner
            && (l.owner.None? ==> next == h)
            && (l.owner.Some? ==>
                  var owner := l.owner.value;
                  var asked := owner in h.exact;
                  && (asked && sight.launcherDies ==> next == h.(lanes := next.lanes) && next.lanes[i].state == Stopping)
                  && (asked && !sight.launcherDies && !sight.groupGone ==>
                        next == h.(lanes := next.lanes) && next.lanes[i].state == Failed)
                  && (!asked && (owner in h.live || !sight.groupGone) ==> next == h)
                  && (sight.groupGone && (if asked then !sight.launcherDies else owner !in h.live) ==>
                        && next.live == h.live - {owner} && next.exact == h.exact - {owner}
                        && (forall proc :: proc in next.gpuProcs <==> proc in h.gpuProcs && proc.0 != owner)
                        && next.lanes[i].state == if !sight.leftovers && Vacated(h, l.res, owner) then Stopped else Failed))
  {
    hide WellFormed, PathsApart;
    assert Find(h.lanes, h.lanes[i].id) == i;
    hide Recorded, Find, Residue, Vacated;
    if h.lanes[i].owner.Some? { ResidueIff(h, h.lanes[i].res, h.lanes[i].owner.value, sight); }
  }

  lemma LeastMemory(r: Resources)
    requires WellFormed(r)
    ensures r.hostMemory >= 150 * GIB + 1
  {
  }

  /** Each lane not marked stopped commits its KV bytes and 150 GiB, so the host bounds how many there are. */
  lemma {:induction false} LanesAreBounded(lanes: seq<Lane>)
    requires forall i | 0 <= i < |lanes| :: WellFormed(lanes[i].res)
    ensures Committed(lanes) >= |ActiveOf(lanes)| * (150 * GIB + 1)
    decreases |lanes|
  {
    if lanes != [] {
      var n := |lanes| - 1;
      LanesAreBounded(lanes[..n]);
      CommittedSnoc(lanes[..n], lanes[n]);
      assert lanes == lanes[..n] + [lanes[n]];
      LeastMemory(lanes[n].res);
      Distribute(|ActiveOf(lanes[..n])|, 1, 150 * GIB + 1);
      hide WellFormed, Committed;
    }
  }

  /** The arguments a start accepts, with the numbers written out. */
  lemma WellFormedIff(r: Resources)
    ensures WellFormed(r) <==>
              && (|r.gpus| == 1 || |r.gpus| == 2 || |r.gpus| == 4 || |r.gpus| == 8)
              && (forall gpu | gpu in r.gpus :: |gpu| >= 4 && gpu[..4] == "GPU-")
              && r.pyncclSpan > 0 && (forall port | Claims(r, port) :: 1 <= port <= 65535) && r.listenPort != r.distPort
              && (|r.gpus| > 1 ==> !InRange(r.listenPort, r) && !InRange(r.distPort, r))
              && r.hostKv > 0 && r.shm >= r.hostKv + 86 * GIB && r.hostMemory >= r.shm + 64 * GIB && r.safety >= 64 * GIB
              && |r.paths| == 7 && Under(r.paths[1], r.laneRoot)
              && (forall i | 0 <= i < 7 && i != 1 :: r.paths[i] == r.laneRoot + [DIRECTORIES[i]])
  {
    hide CanonicalPaths, DIRECTORIES, Claims;
    PortsInRangeIff(r);
    if |r.paths| == 7 { CanonicalIff(r); }
  }

  lemma PortsInRangeIff(r: Resources)
    ensures r.pyncclSpan > 0 && (forall port | Claims(r, port) :: 1 <= port <= 65535) <==>
              && 0 < r.listenPort <= 65535 && 0 < r.distPort <= 65535
              && 0 < r.pyncclBase <= 65535 && 0 < r.pyncclSpan && r.pyncclBase + r.pyncclSpan <= 65536
  {
    assert Claims(r, r.listenPort) && Claims(r, r.distPort);
    assert r.pyncclSpan > 0 ==> Claims(r, r.pyncclBase) && Claims(r, r.pyncclBase + r.pyncclSpan - 1);
  }

  lemma CanonicalIff(r: Resources)
    requires |r.paths| == 7
    ensures r.paths == CanonicalPaths(r.laneRoot, r.paths[1]) <==>
              forall i | 0 <= i < 7 && i != 1 :: r.paths[i] == r.laneRoot + [DIRECTORIES[i]]
  {
    var paths := CanonicalPaths(r.laneRoot, r.paths[1]);
    assert forall i | 0 <= i < 7 && i != 1 :: paths[i] == r.laneRoot + [DIRECTORIES[i]];
    assert paths[1] == r.paths[1];
  }

  const DIRECTORIES := ["storage", "", "tmp", "torch-extensions", "triton-cache", "torchinductor-cache", "cuda-cache"]

  /** What a reachable lane has: its arguments in fields. */
  lemma RecordedMeans(h: Host, i: nat)
    requires Recorded(h) && i < |h.lanes|
    ensures var r := h.lanes[i].res;
            && (|r.gpus| == 1 || |r.gpus| == 2 || |r.gpus| == 4 || |r.gpus| == 8)
            && (forall port | Claims(r, port) :: 1 <= port <= 65535) && r.listenPort != r.distPort
            && (|r.gpus| > 1 ==>
                  !InRange(r.listenPort, r) && !InRange(r.distPort, r))
            && (forall x | Writes(r, x) :: Under(x, r.laneRoot))
            && (forall x, j, k | 0 <= j < k < |r.paths| && Under(x, r.paths[j]) :: !Under(x, r.paths[k]))
            && r.hostMemory >= r.hostKv + 150 * GIB && r.hostKv > 0 && r.safety >= 64 * GIB
  {
    var r := h.lanes[i].res;
    OwnPathsApartIff(r);
    forall x | Writes(r, x) ensures Under(x, r.laneRoot) {
      var j :| 0 <= j < |r.paths| && Under(x, r.paths[j]);
      assert r.laneRoot <= r.paths[j];
    }
  }

  // ---- the checks of a start -------------------------------------------------------------------------------

  /** The active manifests in file order. */
  function ActiveOf(lanes: seq<Lane>): seq<Lane> {
    if lanes == [] then []
    else
      var n := |lanes| - 1;
      ActiveOf(lanes[..n]) + (if Active(lanes[n]) then [lanes[n]] else [])
  }

  lemma ReservedSnoc(lanes: seq<Lane>, l: Lane)
    ensures Reserved(lanes + [l]) == Reserved(lanes) + Share(l)
  {
    assert (lanes + [l])[..|lanes|] == lanes;
  }

  lemma {:induction false} ActiveReserves(lanes: seq<Lane>)
    ensures Reserved(ActiveOf(lanes)) == Reserved(lanes)
  {
    if lanes != [] {
      var n := |lanes| - 1;
      ActiveReserves(lanes[..n]);
      var rest := ActiveOf(lanes[..n]);
      ReservedSnoc(rest, lanes[n]);
      assert ActiveOf(lanes) == if Active(lanes[n]) then rest + [lanes[n]] else rest;
    }
  }

  lemma {:induction false} ActiveMembers(lanes: seq<Lane>)
    ensures forall l :: l in ActiveOf(lanes) <==> l in lanes && Active(l)
  {
    if lanes != [] {
      var n := |lanes| - 1;
      ActiveMembers(lanes[..n]);
      assert lanes == lanes[..n] + [lanes[n]];
    }
  }

  method ActiveManifests(h: Host) returns (active: Option<seq<Lane>>)
    ensures active.Some? <==> Unambiguous(h)
    ensures active.Some? ==> active.value == ActiveOf(h.lanes)
  {
    var found := [];
    for i := 0 to |h.lanes|
      invariant found == ActiveOf(h.lanes[..i])
      invariant forall j | 0 <= j < i ::
                  if Active(h.lanes[j]) then OwnerIn(h.lanes[j], h.exact) else !OwnerIn(h.lanes[j], h.live)
    {
      assert h.lanes[..i + 1][..i] == h.lanes[..i];
      var l := h.lanes[i];
      if !Active(l) {
        if OwnerIn(l, h.live) { return None; }
      } else {
        if !OwnerIn(l, h.exact) { return None; }
        found := found + [l];
      }
    }
    assert h.lanes[..|h.lanes|] == h.lanes;
    active := Some(found);
  }

  method CheckLaneRoot(root: Path, active: seq<Lane>) returns (ok: bool)
    ensures ok <==> forall i | 0 <= i < |active| :: !PathsOverlap(root, active[i].res.laneRoot)
  {
    for i := 0 to |active|
      invariant forall j | 0 <= j < i :: !PathsOverlap(root, active[j].res.laneRoot)
    {
      if PathsOverlap(root, active[i].res.laneRoot) { return false; }
    }
    ok := true;
  }

  method PathsClear(p: Path, others: seq<Path>) returns (ok: bool)
    ensures ok <==> forall j | 0 <= j < |others| :: !PathsOverlap(p, others[j])
  {
    for j := 0 to |others|
      invariant forall k | 0 <= k < j :: !PathsOverlap(p, others[k])
    {
      if PathsOverlap(p, others[j]) { return false; }
    }
    ok := true;
  }

  method SharesNothing(a: Resources, b: Resources) returns (ok: bool)
    ensures ok <==> Apart(a, b)
  {
    if !(a.gpus !! b.gpus) || !(Ports(a) !! Ports(b)) || PyncclOverlap(a, b) { return false; }
    for i := 0 to |a.paths|
      invariant forall k, j | 0 <= k < i && 0 <= j < |b.paths| :: !PathsOverlap(a.paths[k], b.paths[j])
    {
      var clear := PathsClear(a.paths[i], b.paths);
      if !clear { return false; }
    }
    ok := true;
  }

  method CheckNoOverlap(id: string, res: Resources, active: seq<Lane>) returns (ok: bool)
    ensures ok <==> PathsApart(res) && forall i | 0 <= i < |active| :: active[i].id != id && Apart(res, active[i].res)
  {
    for i := 0 to |res.paths|
      invariant forall k, j | 0 <= k < i && k < j < |res.paths| :: !PathsOverlap(res.paths[k], res.paths[j])
    {
      var clear := PathsClear(res.paths[i], res.paths[i + 1..]);
      if !clear {
        assert exists j :: i < j < |res.paths| && PathsOverlap(res.paths[i], res.paths[j]) by {
          var j :| 0 <= j < |res.paths[i + 1..]| && PathsOverlap(res.paths[i], res.paths[i + 1..][j]);
          assert res.paths[i + 1..][j] == res.paths[i + 1 + j];
        }
        return false;
      }
      forall j | i < j < |res.paths| ensures !PathsOverlap(res.paths[i], res.paths[j]) {
        assert res.paths[j] == res.paths[i + 1..][j - i - 1];
      }
    }
    for i := 0 to |active|
      invariant forall j | 0 <= j < i :: active[j].id != id && Apart(res, active[j].res)
    {
      if active[i].id == id { return false; }
      var apart := SharesNothing(res, active[i].res);
      if !apart { return false; }
    }
    ok := true;
  }

  method CheckMemory(res: Resources, active: seq<Lane>, memTotal: nat, used: nat) returns (ok: bool)
    requires forall i | 0 <= i < |active| :: Active(active[i])
    ensures ok <==> MemoryFits(active, res, memTotal, used)
  {
    var safety, reserved := res.safety, 0;
    for i := 0 to |active|
      invariant reserved == Reserved(active[..i])
      invariant safety >= res.safety && forall j | 0 <= j < i :: safety >= active[j].res.safety
      invariant safety == res.safety || exists j :: 0 <= j < i && safety == active[j].res.safety
    {
      assert active[..i + 1][..i] == active[..i];
      safety := Max(safety, active[i].res.safety);
      reserved := reserved + active[i].res.hostMemory;
    }
    assert active[..|active|] == active;
    var limit := memTotal - safety;
    ok := reserved + res.hostMemory <= limit && used + res.hostMemory <= limit;
  }

  /** The checks a start makes, in order, admit exactly the admissible candidates. */
  method Admit(h: Host, id: string, res: Resources, used: nat) returns (ok: bool)
    ensures ok <==> Admissible(h, id, res, used)
  {
    hide Apart, InstanceId, PathsOverlap, PathsApart, Reserved, WellFormed, Unambiguous, ActiveOf;
    if !InstanceId(id) || !WellFormed(res) { return false; }
    var found := ActiveManifests(h);
    if found.None? { return false; }
    var active := found.value;
    ActiveMembers(h.lanes);
    assert forall i | 0 <= i < |active| :: Active(active[i]) by {
      forall i | 0 <= i < |active| ensures Active(active[i]) { assert active[i] in active; }
    }
    var rootFree := CheckLaneRoot(res.laneRoot, active);
    if !rootFree { assert !NoOverlap(active, id, res); SameChecks(h, id, res, used); return false; }
    var apart := CheckNoOverlap(id, res, active);
    if !apart { assert !NoOverlap(active, id, res); SameChecks(h, id, res, used); return false; }
    var room := CheckMemory(res, active, h.memTotal, used);
    assert NoOverlap(active, id, res);
    SameChecks(h, id, res, used);
    ok := room && GpusIdle(h.gpuProcs, res.gpus);
  }

  lemma SameChecks(h: Host, id: string, res: Resources, used: nat)
    ensures NoOverlap(ActiveOf(h.lanes), id, res) <==> NoOverlap(h.lanes, id, res)
    ensures MemoryFits(ActiveOf(h.lanes), res, h.memTotal, used) <==> MemoryFits(h.lanes, res, h.memTotal, used)
  {
    hide Compatible, PathsApart, Reserved, ActiveOf;
    ActiveReserves(h.lanes);
    ActiveMembers(h.lanes);
    var active := ActiveOf(h.lanes);
    forall i | 0 <= i < |active| ensures active[i] in h.lanes && Active(active[i]) { assert active[i] in active; }
    forall i | 0 <= i < |h.lanes| && Active(h.lanes[i]) ensures h.lanes[i] in active {}
  }
}
