/**
 DeepGEMM's SM90 FP8 config selection: a cost model picks one kernel layout per
 GEMM shape, and a prewarm launches one representative row count per kernel.

 The float32 wave-efficiency quotient of the cost model is an arbitrary
 function of the integers it is computed from, passed as `cost`.
 */
module DeepGemmConfigs {
  import opened Arith
  import opened Options
  import opened Sorting

  const SMEM_CAPACITY := 232448
  const MAX_STAGES := 16
  const BLOCK_K := 128
  const WGMMA_M := 64
  const CD_BYTES := 2
  /** The largest int64, the cost of a layout that must not be chosen. */
  const NEVER := 0x7fff_ffff_ffff_ffff
  /** int(8e6 / 1.3e3). */
  const L2_BANDWIDTH := 6153

  /** `(cycles, blocks, waves * sms)` to the cycle count divided by the wave efficiency, truncated. */
  type Cost = (int, int, int) -> int

  datatype Layout = Layout(blockM: int, blockN: int, clusterM: int, clusterN: int)

  datatype Config = Config(
    blockM: int, blockN: int, clusterM: int, clusterN: int, stages: int, swizzle: int, threads: int)
  {
    /** The template arguments that vary between shapes of one site. */
    function Key(): (int, int, int, int, int, int, bool) {
      (blockM, blockN, swizzle, stages, threads, clusterM * clusterN, clusterN > 1)
    }
  }

  type Key = (int, int, int, int, int, int, bool)

  function Align(a: int, b: int): int
    requires b > 0
  {
    CeilDiv(a, b) * b
  }

  function SwizzleMode(bytes: int): int
    requires bytes % 16 == 0
  {
    if bytes % 128 == 0 then 128 else if bytes % 64 == 0 then 64 else if bytes % 32 == 0 then 32 else 16
  }

  function NumStages(blockM: int, blockN: int, k: int): int
    requires blockM > 0 && blockN > 0
  {
    var barriers := MAX_STAGES * 8 * 2;
    CeilDivBounds(blockM * 4, 128);
    var perStage := blockM * BLOCK_K + blockN * BLOCK_K + Align(blockM * 4, 128);
    var sfb := Align(CeilDiv(k, BLOCK_K) * 4 * (if BLOCK_K % blockN == 0 then 1 else 2), 8);
    Min((SMEM_CAPACITY - (Align(blockM * blockN * CD_BYTES, 1024) + barriers + sfb)) / perStage, MAX_STAGES)
  }

  // ---- candidates ------------------------------------------------------------------

  /** What is fixed while the row count varies. */
  datatype Site = Site(n: int, k: int, groups: int, masked: bool, sms: int)

  function BlockMs(m: int, masked: bool): seq<int> {
    if masked then [64, 128]
    else [64, 128] + (if m <= 16 then [16] else []) + (if m <= 32 then [32] else []) + [256]
  }

  const CLUSTERS: seq<(int, int)> := [(1, 1), (1, 2), (2, 1)]

  predicate Legal(s: Site, l: Layout)
    requires l.blockM > 0 && l.blockN > 0 && l.clusterM > 0 && l.clusterN > 0
  {
    var stages := NumStages(l.blockM, l.blockN, s.k);
    MulMonotone(1, l.clusterN, l.clusterM);
    && (l.blockN > BLOCK_K ==>
          l.blockN % (l.blockN - BLOCK_K) == 0 || BLOCK_K % (l.blockN - BLOCK_K) == 0)
    && (s.masked ==> CeilDiv(s.n, l.blockN) % (l.clusterM * l.clusterN) == 0)
    && !(l.blockM > 128 && l.blockN > 128)
    && !(stages < 3 || (l.blockM * l.blockN < 128 * 192 && stages < 4))
  }

  /** Legal layouts with the first `i` block widths 16, 32, ... */
  function OverN(s: Site, blockM: int, c: (int, int), i: nat): seq<Layout>
    requires blockM > 0 && c.0 > 0 && c.1 > 0
  {
    if i == 0 then []
    else
      var l := Layout(blockM, 16 * i, c.0, c.1);
      OverN(s, blockM, c, i - 1) + (if Legal(s, l) then [l] else [])
  }

  function OverM(s: Site, ms: seq<int>, c: (int, int), j: nat): seq<Layout>
    requires j <= |ms| && (forall i | 0 <= i < |ms| :: ms[i] > 0) && c.0 > 0 && c.1 > 0
  {
    if j == 0 then [] else OverM(s, ms, c, j - 1) + OverN(s, ms[j - 1], c, 12)
  }

  function OverClusters(s: Site, ms: seq<int>, h: nat): seq<Layout>
    requires h <= 3 && (forall i | 0 <= i < |ms| :: ms[i] > 0)
  {
    if h == 0 then []
    else
      var c := CLUSTERS[h - 1];
      OverClusters(s, ms, h - 1) + (if s.sms % (c.0 * c.1) != 0 then [] else OverM(s, ms, c, |ms|))
  }

  /** All candidates in DeepGEMM's order. */
  function Layouts(s: Site, m: int): seq<Layout> {
    OverClusters(s, BlockMs(m, s.masked), 3)
  }

  /** The row count as the candidate cache sees it. */
  function MClass(m: int, masked: bool): int {
    if masked then 0 else if m <= 16 then 16 else if m <= 32 then 32 else 48
  }

  lemma ClassIsEnough(s: Site, m: int)
    ensures Layouts(s, MClass(m, s.masked)) == Layouts(s, m)
  {
  }

  ghost predicate RowBlocks(ls: seq<Layout>, masked: bool) {
    forall i | 0 <= i < |ls| ::
      && ls[i].blockM > 0 && ls[i].blockN > 0 && ls[i].clusterM > 0 && ls[i].clusterN > 0
      && ls[i].blockM % (if masked then 64 else 16) == 0 && ls[i].blockN % 16 == 0
  }

  lemma {:induction false} OverNBlocks(s: Site, blockM: int, c: (int, int), i: nat)
    requires blockM > 0 && c.0 > 0 && c.1 > 0 && blockM % (if s.masked then 64 else 16) == 0
    ensures RowBlocks(OverN(s, blockM, c, i), s.masked)
  {
    hide Legal;
    if i > 0 { OverNBlocks(s, blockM, c, i - 1); }
  }

  lemma {:induction false} OverMBlocks(s: Site, ms: seq<int>, c: (int, int), j: nat)
    requires j <= |ms| && c.0 > 0 && c.1 > 0
    requires forall i | 0 <= i < |ms| :: ms[i] > 0 && ms[i] % (if s.masked then 64 else 16) == 0
    ensures RowBlocks(OverM(s, ms, c, j), s.masked)
  {
    if j > 0 {
      OverMBlocks(s, ms, c, j - 1);
      OverNBlocks(s, ms[j - 1], c, 12);
    }
  }

  /** Every block height is a multiple of 16 rows, of 64 rows for the masked kernel. */
  lemma LayoutsBlocks(s: Site, m: int)
    ensures RowBlocks(Layouts(s, m), s.masked)
  {
    var ms := BlockMs(m, s.masked);
    OverMBlocks(s, ms, CLUSTERS[0], |ms|);
    OverMBlocks(s, ms, CLUSTERS[1], |ms|);
    OverMBlocks(s, ms, CLUSTERS[2], |ms|);
    assert OverClusters(s, ms, 0) == [];
    assert RowBlocks(OverClusters(s, ms, 1), s.masked);
    assert RowBlocks(OverClusters(s, ms, 2), s.masked);
  }

  // ---- cost ----------------------------------------------------------------------------

  ghost predicate GoodLayout(l: Layout) {
    l.blockM > 0 && l.blockN > 0 && l.clusterM > 0 && l.clusterN > 0
  }

  function L2Bytes(s: Site, l: Layout): int
    requires l.clusterM > 0 && l.clusterN > 0
  {
    s.k * (l.blockM / l.clusterN + l.blockN / l.clusterM) + l.blockM * l.blockN * CD_BYTES
  }

  function L1Bytes(s: Site, l: Layout): int {
    s.k * (l.blockM + l.blockN)
    + (s.k * (Max(WGMMA_M, l.blockM) + l.blockN) + l.blockM * l.blockN * CD_BYTES)
    + l.blockM * l.blockN * CD_BYTES
  }

  /** `//` for any divisor: it rounds down, and an integer array divided by zero is all zeros. */
  function FloorDiv(a: int, b: int): int {
    if b == 0 then 0 else if b > 0 then a / b else -a / -b
  }

  /** The cost model for one expected row count, in scalar arithmetic, where a division by zero raises. */
  function Cycles(cost: Cost, s: Site, em: int, l: Layout): int
    requires l.blockM > 0 && l.blockN > 0 && l.clusterM > 0 && l.clusterN > 0
  {
    var blocks := CeilDiv(em, l.blockM) * CeilDiv(s.n, l.blockN) * s.groups;
    var waves := FloorDiv(blocks + s.sms - 1, s.sms);
    var l2 := FloorDiv(L2Bytes(s, l) * blocks, Min(64 * s.sms, L2_BANDWIDTH));
    var l1 := FloorDiv(L1Bytes(s, l) * blocks, 128 * s.sms);
    if l.clusterM * l.clusterN > 1 && waves <= 1 then NEVER else cost(Max(l1, l2), blocks, waves * s.sms)
  }

  /** The vectorised model: every intermediate is an array over the expected row counts. */
  function CyclesVector(cost: Cost, s: Site, ems: seq<int>, l: Layout): seq<int>
    requires l.blockM > 0 && l.blockN > 0 && l.clusterM > 0 && l.clusterN > 0
  {
    var blocks := seq(|ems|, i requires 0 <= i < |ems| =>
      ((ems[i] + l.blockM - 1) / l.blockM) * CeilDiv(s.n, l.blockN) * s.groups);
    var waves := seq(|ems|, i requires 0 <= i < |ems| => FloorDiv(blocks[i] + s.sms - 1, s.sms));
    var cycles := seq(|ems|, i requires 0 <= i < |ems| =>
      cost(Max(FloorDiv(L1Bytes(s, l) * blocks[i], 128 * s.sms),
               FloorDiv(L2Bytes(s, l) * blocks[i], Min(64 * s.sms, L2_BANDWIDTH))),
           blocks[i], waves[i] * s.sms));
    if l.clusterM * l.clusterN > 1
    then seq(|ems|, i requires 0 <= i < |ems| => if waves[i] <= 1 then NEVER else cycles[i])
    else cycles
  }

  lemma VectorIsScalar(cost: Cost, s: Site, ems: seq<int>, l: Layout, i: nat)
    requires GoodLayout(l) && i < |ems|
    ensures |CyclesVector(cost, s, ems, l)| == |ems|
    ensures CyclesVector(cost, s, ems, l)[i] == Cycles(cost, s, ems[i], l)
  {
  }

  /** Ceilings nest: blocks of `16 * j` rows see a row count only through its 16-row blocks. */
  lemma CeilNests(m: int, unit: int, j: int)
    requires unit > 0 && j > 0
    ensures CeilDiv(m, unit * j) == CeilDiv(CeilDiv(m, unit), j)
  {
    var q := CeilDiv(m, unit);
    var c := CeilDiv(q, j);
    CeilDivBounds(m, unit);
    CeilDivBounds(q, j);
    MulMonotone(q, c * j, unit);
    assert c * j * unit == c * (unit * j);
    MulStrict((c - 1) * j, q, unit);
    assert (c - 1) * j * unit == (c - 1) * (unit * j) == c * (unit * j) - unit * j;
    CeilDivIs(m, unit * j, c);
  }

  lemma CyclesSeeBlocks(cost: Cost, s: Site, em: int, em': int, l: Layout, unit: int)
    requires GoodLayout(l) && unit > 0 && l.blockM % unit == 0
    requires CeilDiv(em, unit) == CeilDiv(em', unit)
    ensures Cycles(cost, s, em, l) == Cycles(cost, s, em', l)
  {
    var j := l.blockM / unit;
    DivBounds(l.blockM, unit);
    assert j > 0 by { if j <= 0 { MulMonotone(j, 0, unit); } }
    assert l.blockM == unit * j;
    CeilNests(em, unit, j);
    CeilNests(em', unit, j);
  }

  // ---- selection ---------------------------------------------------------------------

  /** The scan with a best-so-far: a later candidate wins only with strictly fewer cycles. */
  function Scan(costs: seq<int>): nat
    requires costs != []
    ensures Scan(costs) < |costs|
  {
    if |costs| == 1 then 0
    else
      var n := |costs| - 1;
      var best := Scan(costs[..n]);
      if costs[n] < costs[best] then n else best
  }

  function MinValue(costs: seq<int>): int
    requires costs != []
  {
    if |costs| == 1 then costs[0] else Min(MinValue(costs[..|costs| - 1]), costs[|costs| - 1])
  }

  /** `np.argmin`: the first position that holds the minimum. */
  function FirstIndex(costs: seq<int>, v: int): nat
    requires v in costs
    ensures FirstIndex(costs, v) < |costs| && costs[FirstIndex(costs, v)] == v
    ensures forall i | 0 <= i < FirstIndex(costs, v) :: costs[i] != v
  {
    if costs[0] == v then 0
    else
      assert costs == [costs[0]] + costs[1..];
      FirstIndex(costs[1..], v) + 1
  }

  lemma {:induction false} ScanIsFirstMinimum(costs: seq<int>)
    requires costs != []
    ensures forall i | 0 <= i < |costs| :: costs[Scan(costs)] <= costs[i]
    ensures forall i | 0 <= i < Scan(costs) :: costs[Scan(costs)] < costs[i]
    ensures MinValue(costs) == costs[Scan(costs)]
  {
    if |costs| > 1 {
      var init := costs[..|costs| - 1];
      ScanIsFirstMinimum(init);
      assert forall i | 0 <= i < |init| :: init[i] == costs[i];
      assert init[Scan(init)] == costs[Scan(init)];
    }
  }

  /** The vectorised first minimum is the scalar scan's winner. */
  lemma ArgminIsScan(costs: seq<int>)
    requires costs != []
    ensures MinValue(costs) in costs
    ensures FirstIndex(costs, MinValue(costs)) == Scan(costs)
  {
    ScanIsFirstMinimum(costs);
    assert costs[Scan(costs)] in costs;
  }

  function ConfigOf(l: Layout, k: int): Config
    requires l.blockM > 0 && l.blockN > 0 && l.blockN % 16 == 0
  {
    Config(l.blockM, l.blockN, l.clusterM, l.clusterN, NumStages(l.blockM, l.blockN, k),
           SwizzleMode(l.blockN * CD_BYTES), if l.blockM <= 64 then 128 else 256)
  }

  function Costs(cost: Cost, s: Site, em: int, ls: seq<Layout>): seq<int>
    requires RowBlocks(ls, s.masked)
  {
    seq(|ls|, i requires 0 <= i < |ls| => Cycles(cost, s, em, ls[i]))
  }

  predicate ShapeOk(s: Site, m: int) { m >= 1 && s.n >= 1 && s.k >= 1 && s.groups >= 1 }

  /** The cheapest candidate's config; an odd SM count or no legal layout raises. */
  ghost function Selected(cost: Cost, s: Site, m: int, em: int): Option<Config>
  {
    var ls := Layouts(s, m);
    LayoutsBlocks(s, m);
    if s.sms % 2 != 0 || ls == [] then None
    else Some(ConfigOf(ls[Scan(Costs(cost, s, em, ls))], s.k))
  }

  /** The config of one call that models `em` rows, which also refuses a bad shape and divides by the SM count. */
  ghost function Best(cost: Cost, s: Site, m: int, em: int): Option<Config>
  {
    if !ShapeOk(s, m) || s.sms == 0 then None else Selected(cost, s, m, em)
  }

  /** The Normal kernel models the row count itself. */
  ghost function Normal(cost: Cost, s: Site, m: int): Option<Config>
  {
    Best(cost, s, m, m)
  }

  // ---- what the selected config is, in its own terms ---------------------------------------------

  /** The least multiple of `b` that is not below `a`. */
  function LeastMultiple(a: int, b: int): int
    requires b > 0
  {
    a + (-a) % b
  }

  lemma AlignIsLeast(a: int, b: int)
    requires b > 0
    ensures Align(a, b) == LeastMultiple(a, b) && LeastMultiple(a, b) == CeilDiv(a, b) * b
    ensures LeastMultiple(a, b) % b == 0 && a <= LeastMultiple(a, b) < a + b
  {
    CeilDivBounds(a, b);
    var q, r := CeilDiv(a, b), CeilDiv(a, b) * b - a;
    DivUnique(-a, b, -q, r);
    DivUnique(q * b, b, q, 0);
  }

  /** Bytes of the scale factors of B: one or two float32 per 128-wide K block. */
  function ScaleBytes(blockN: int, k: int): int
    requires blockN > 0
  {
    LeastMultiple(4 * (LeastMultiple(k, 128) / 128) * (if 128 % blockN == 0 then 1 else 2), 8)
  }

  /** One pipeline stage: an A tile, a B tile and the row scales of A. */
  function StageBytes(blockM: int, blockN: int): int {
    128 * blockM + 128 * blockN + LeastMultiple(4 * blockM, 128)
  }

  /** Shared memory of a kernel: stages, output tile, sixteen barrier pairs, scale factors. */
  function SharedBytes(blockM: int, blockN: int, k: int, stages: int): int
    requires blockN > 0
  {
    stages * StageBytes(blockM, blockN) + LeastMultiple(2 * blockM * blockN, 1024) + 256 + ScaleBytes(blockN, k)
  }

  lemma ScaleBytesAre(blockN: int, k: int)
    requires blockN > 0
    ensures ScaleBytes(blockN, k) == Align(CeilDiv(k, BLOCK_K) * 4 * (if BLOCK_K % blockN == 0 then 1 else 2), 8)
  {
    hide Align, LeastMultiple, CeilDiv;
    AlignIsLeast(k, 128);
    var blocks := CeilDiv(k, 128);
    DivUnique(LeastMultiple(k, 128), 128, blocks, 0);
    AlignIsLeast(blocks * 4 * (if BLOCK_K % blockN == 0 then 1 else 2), 8);
  }

  lemma StageFacts(blockM: int, blockN: int, k: int)
    requires blockM > 0 && blockN > 0
    ensures StageBytes(blockM, blockN) > 0
    ensures NumStages(blockM, blockN, k) ==
            Min((SMEM_CAPACITY - SharedBytes(blockM, blockN, k, 0)) / StageBytes(blockM, blockN), 16)
  {
    hide Align, LeastMultiple, CeilDiv, ScaleBytes;
    AlignIsLeast(blockM * 4, 128);
    AlignIsLeast(blockM * blockN * CD_BYTES, 1024);
    ScaleBytesAre(blockN, k);
    assert blockM * blockN * CD_BYTES == 2 * blockM * blockN;
  }

  /** `stages` stages fit the shared memory exactly up to the number selected, which is at most sixteen. */
  lemma StagesFitIff(blockM: int, blockN: int, k: int, stages: int)
    requires blockM > 0 && blockN > 0
    ensures stages <= NumStages(blockM, blockN, k) <==> stages <= 16 && SharedBytes(blockM, blockN, k, stages) <= 232448
  {
    StageFacts(blockM, blockN, k);
    var rest, per := SMEM_CAPACITY - SharedBytes(blockM, blockN, k, 0), StageBytes(blockM, blockN);
    hide NumStages, StageBytes, ScaleBytes, LeastMultiple;
    QuotientIff(rest, per, stages);
  }

  lemma QuotientIff(a: int, b: int, n: int)
    requires b > 0
    ensures n <= a / b <==> n * b <= a
  {
    DivBounds(a, b);
    if n <= a / b { MulMonotone(n, a / b, b); } else { MulStrict(a / b, n, b); }
  }

  /** The largest of the four swizzle widths that divides an output row of the tile. */
  ghost predicate WidestSwizzle(blockN: int, swizzle: int) {
    && swizzle in {128, 64, 32, 16} && 2 * blockN % swizzle == 0
    && forall wider | wider in {128, 64, 32, 16} && 2 * blockN % wider == 0 :: wider <= swizzle
  }

  lemma SwizzleIsWidest(blockN: int)
    requires blockN % 16 == 0
    ensures blockN * CD_BYTES % 16 == 0 && WidestSwizzle(blockN, SwizzleMode(blockN * CD_BYTES))
  {
    assert blockN * CD_BYTES == 2 * blockN;
  }

  /** Everything a config says besides its layout, and its layout. */
  ghost predicate Describes(c: Config, l: Layout, k: int) {
    && Layout(c.blockM, c.blockN, c.clusterM, c.clusterN) == l && l.blockN > 0
    && c.threads == (if l.blockM > 64 then 256 else 128)
    && WidestSwizzle(l.blockN, c.swizzle)
    && c.stages <= 16 && SharedBytes(l.blockM, l.blockN, k, c.stages) <= 232448
    && (c.stages < 16 ==> SharedBytes(l.blockM, l.blockN, k, c.stages + 1) > 232448)
  }

  lemma ConfigDescribes(l: Layout, k: int)
    requires l.blockM > 0 && l.blockN > 0 && l.blockN % 16 == 0
    ensures Describes(ConfigOf(l, k), l, k)
  {
    var n := NumStages(l.blockM, l.blockN, k);
    StagesFitIff(l.blockM, l.blockN, k, n);
    StagesFitIff(l.blockM, l.blockN, k, n + 1);
    SwizzleIsWidest(l.blockN);
    hide NumStages, SharedBytes, SwizzleMode;
  }

  /** The layouts DeepGEMM may pick for a site, by their own numbers. */
  ghost predicate Candidate(s: Site, m: int, l: Layout) {
    && (l.blockM in {64, 128} || (!s.masked && (l.blockM == 256 || (l.blockM == 16 && m <= 16) || (l.blockM == 32 && m <= 32))))
    && l.blockN % 16 == 0 && 16 <= l.blockN <= 192 && l.blockN != 176
    && (l.clusterM, l.clusterN) in {(1, 1), (1, 2), (2, 1)}
    && s.sms % (l.clusterM * l.clusterN) == 0
    && (s.masked ==> (LeastMultiple(s.n, l.blockN) / l.blockN) % (l.clusterM * l.clusterN) == 0)
    && (l.blockM <= 128 || l.blockN <= 128)
    && (SharedBytes(l.blockM, l.blockN, s.k, 4) <= 232448
        || (l.blockM * l.blockN >= 24576 && SharedBytes(l.blockM, l.blockN, s.k, 3) <= 232448))
  }

  /** Clusters in DeepGEMM's order, then block heights in its order, then block widths. */
  function ClusterRank(l: Layout): int { if l.clusterN == 2 then 1 else if l.clusterM == 2 then 2 else 0 }

  function HeightRank(blockM: int): int {
    if blockM == 64 then 0 else if blockM == 128 then 1 else if blockM == 16 then 2 else if blockM == 32 then 3 else 4
  }

  predicate Before(a: Layout, b: Layout) {
    if ClusterRank(a) != ClusterRank(b) then ClusterRank(a) < ClusterRank(b)
    else if a.blockM != b.blockM then HeightRank(a.blockM) < HeightRank(b.blockM)
    else a.blockN < b.blockN
  }

  lemma UnrollIff(i: nat)
    requires 1 <= i <= 12
    ensures var n := 16 * i;
            (n > BLOCK_K ==> n % (n - BLOCK_K) == 0 || BLOCK_K % (n - BLOCK_K) == 0) <==> n != 176
  {
    if i == 9 || i == 10 || i == 11 || i == 12 { assert 16 * 9 == 144 && 16 * 10 == 160 && 16 * 11 == 176 && 16 * 12 == 192; }
  }

  /** The parts of the candidate condition that do not speak of lists. */
  lemma LegalIff(s: Site, l: Layout, i: nat)
    requires 1 <= i <= 12 && l.blockN == 16 * i && l.blockM > 0 && (l.clusterM, l.clusterN) in {(1, 1), (1, 2), (2, 1)}
    ensures Legal(s, l) <==>
              && l.blockN != 176
              && (s.masked ==> (LeastMultiple(s.n, l.blockN) / l.blockN) % (l.clusterM * l.clusterN) == 0)
              && (l.blockM <= 128 || l.blockN <= 128)
              && (SharedBytes(l.blockM, l.blockN, s.k, 4) <= 232448
                  || (l.blockM * l.blockN >= 24576 && SharedBytes(l.blockM, l.blockN, s.k, 3) <= 232448))
  {
    UnrollIff(i);
    StagesFitIff(l.blockM, l.blockN, s.k, 3);
    StagesFitIff(l.blockM, l.blockN, s.k, 4);
    SharedGrows(l.blockM, l.blockN, s.k);
    AlignIsLeast(s.n, l.blockN);
    DivUnique(LeastMultiple(s.n, l.blockN), l.blockN, CeilDiv(s.n, l.blockN), 0);
    hide NumStages, SharedBytes, LeastMultiple;
  }

  lemma SharedGrows(blockM: int, blockN: int, k: int)
    requires blockM > 0 && blockN > 0
    ensures SharedBytes(blockM, blockN, k, 3) < SharedBytes(blockM, blockN, k, 4)
  {
    StageFacts(blockM, blockN, k);
    hide StageBytes, ScaleBytes, LeastMultiple, NumStages;
  }

  ghost predicate Ordered(ls: seq<Layout>) {
    forall i, j | 0 <= i < j < |ls| :: Before(ls[i], ls[j])
  }

  ghost predicate AllBefore(xs: seq<Layout>, ys: seq<Layout>) {
    forall x, y | x in xs && y in ys :: Before(x, y)
  }

  lemma OrderedConcat(xs: seq<Layout>, ys: seq<Layout>)
    requires Ordered(xs) && Ordered(ys) && AllBefore(xs, ys)
    ensures Ordered(xs + ys)
  {
    hide Before;
  }

  ghost predicate Width(blockN: int, i: nat) { blockN % 16 == 0 && 16 <= blockN <= 16 * i }

  lemma {:induction false} OverNHolds(s: Site, blockM: int, c: (int, int), i: nat)
    requires blockM > 0 && c.0 > 0 && c.1 > 0
    ensures forall l :: l in OverN(s, blockM, c, i) <==>
              l == Layout(blockM, l.blockN, c.0, c.1) && Width(l.blockN, i) && Legal(s, l)
    ensures Ordered(OverN(s, blockM, c, i))
  {
    hide Legal;
    if i > 0 {
      OverNHolds(s, blockM, c, i - 1);
      var some, last := OverN(s, blockM, c, i - 1), Layout(blockM, 16 * i, c.0, c.1);
      assert forall n :: Width(n, i) <==> Width(n, i - 1) || n == 16 * i;
      if Legal(s, last) { OrderedConcat(some, [last]); }
    }
  }

  lemma {:induction false} OverMHolds(s: Site, ms: seq<int>, c: (int, int), j: nat)
    requires j <= |ms| && c.0 > 0 && c.1 > 0 && forall i | 0 <= i < |ms| :: ms[i] > 0
    requires forall a, b | 0 <= a < b < |ms| :: HeightRank(ms[a]) < HeightRank(ms[b])
    ensures forall l :: l in OverM(s, ms, c, j) <==>
              l == Layout(l.blockM, l.blockN, c.0, c.1) && l.blockM in ms[..j] && Width(l.blockN, 12) && Legal(s, l)
    ensures Ordered(OverM(s, ms, c, j))
  {
    hide Legal, OverN, Ordered, Width;
    if j == 0 {
      NoneOrdered();
    } else {
      OverMHolds(s, ms, c, j - 1);
      OverNHolds(s, ms[j - 1], c, 12);
      var some, last := OverM(s, ms, c, j - 1), OverN(s, ms[j - 1], c, 12);
      assert ms[..j] == ms[..j - 1] + [ms[j - 1]];
      forall x, y | x in some && y in last ensures Before(x, y) {
        var a :| 0 <= a < j - 1 && ms[a] == x.blockM;
        assert HeightRank(ms[a]) < HeightRank(ms[j - 1]);
      }
      OrderedConcat(some, last);
    }
  }

  lemma NoneOrdered()
    ensures Ordered([])
  {
  }

  lemma Heights(m: int, masked: bool)
    ensures var ms := BlockMs(m, masked);
            && (forall i | 0 <= i < |ms| :: ms[i] > 0)
            && (forall a, b | 0 <= a < b < |ms| :: HeightRank(ms[a]) < HeightRank(ms[b]))
            && (forall h :: h in ms <==>
                  h in {64, 128} || (!masked && (h == 256 || (h == 16 && m <= 16) || (h == 32 && m <= 32))))
  {
  }

  /** One cluster's part of the list. */
  ghost predicate FromCluster(s: Site, m: int, c: (int, int), l: Layout)
    requires c.0 > 0 && c.1 > 0
  {
    && l == Layout(l.blockM, l.blockN, c.0, c.1) && s.sms % (c.0 * c.1) == 0
    && l.blockM in BlockMs(m, s.masked) && Width(l.blockN, 12)
    && (Heights(m, s.masked); Legal(s, l))
  }

  lemma {:induction false} OverClustersHolds(s: Site, m: int, h: nat)
    requires h <= 3
    ensures forall i | 0 <= i < |BlockMs(m, s.masked)| :: BlockMs(m, s.masked)[i] > 0
    ensures forall l :: l in OverClusters(s, BlockMs(m, s.masked), h) <==>
              exists g | 0 <= g < h :: FromCluster(s, m, CLUSTERS[g], l)
    ensures Ordered(OverClusters(s, BlockMs(m, s.masked), h))
  {
    Heights(m, s.masked);
    hide Legal, OverM, Width, Ordered, BlockMs, HeightRank;
    var ms := BlockMs(m, s.masked);
    if h == 0 {
      NoneOrdered();
    } else {
      OverClustersHolds(s, m, h - 1);
      var c, some := CLUSTERS[h - 1], OverClusters(s, ms, h - 1);
      OverMHolds(s, ms, c, |ms|);
      assert ms[..|ms|] == ms;
      var last := if s.sms % (c.0 * c.1) != 0 then [] else OverM(s, ms, c, |ms|);
      forall l ensures l in last <==> FromCluster(s, m, c, l) {}
      NoneOrdered();
      forall x, y | x in some && y in last ensures Before(x, y) {
        var g :| 0 <= g < h - 1 && FromCluster(s, m, CLUSTERS[g], x);
      }
      OrderedConcat(some, last);
    }
  }

  /** The candidates are exactly the layouts that qualify, each once, in DeepGEMM's order. */
  lemma CandidatesAre(s: Site, m: int)
    ensures forall l :: l in Layouts(s, m) <==> Candidate(s, m, l)
    ensures Ordered(Layouts(s, m))
  {
    OverClustersHolds(s, m, 3);
    Heights(m, s.masked);
    hide Legal, OverClusters, Ordered, SharedBytes, BlockMs, LeastMultiple, HeightRank;
    forall l ensures l in Layouts(s, m) <==> Candidate(s, m, l) {
      if l in Layouts(s, m) {
        var g :| 0 <= g < 3 && FromCluster(s, m, CLUSTERS[g], l);
        LegalIff(s, l, l.blockN / 16);
      }
      if Candidate(s, m, l) {
        LegalIff(s, l, l.blockN / 16);
        assert FromCluster(s, m, CLUSTERS[ClusterRank(l)], l);
      }
    }
  }

  ghost predicate IsCeil(a: int, b: int, q: int) { (q - 1) * b < a <= q * b }

  ghost predicate IsFloor(a: int, b: int, q: int) { q * b <= a < (q + 1) * b }

  /**
   The cost model, by what its quotients mean: blocks of the output, waves of
   blocks over the SMs, and the cycles to move the bytes through L2 and L1.
   */
  lemma CyclesAre(cost: Cost, s: Site, em: int, l: Layout, rows: int, cols: int, waves: int, l1: int, l2: int)
    requires l.blockM > 0 && l.blockN > 0 && l.clusterM > 0 && l.clusterN > 0 && s.sms > 0
    requires l.blockM % l.clusterN == 0 && l.blockN % l.clusterM == 0
    requires IsCeil(em, l.blockM, rows) && IsCeil(s.n, l.blockN, cols)
    requires IsCeil(rows * cols * s.groups, s.sms, waves)
    requires var tile := 2 * l.blockM * l.blockN;
             && IsFloor((s.k * (l.blockM / l.clusterN) + s.k * (l.blockN / l.clusterM) + tile) * (rows * cols * s.groups),
                        if 64 * s.sms < 6153 then 64 * s.sms else 6153, l2)
             && IsFloor((s.k * l.blockM + s.k * l.blockN + s.k * (if l.blockM < 64 then 64 else l.blockM) + s.k * l.blockN
                         + tile + tile) * (rows * cols * s.groups), 128 * s.sms, l1)
    ensures Cycles(cost, s, em, l) ==
            if l.clusterM * l.clusterN > 1 && waves <= 1 then NEVER
            else cost(if l1 >= l2 then l1 else l2, rows * cols * s.groups, waves * s.sms)
  {
    CeilIs(em, l.blockM, rows);
    CeilIs(s.n, l.blockN, cols);
    var blocks := rows * cols * s.groups;
    CeilIs(blocks, s.sms, waves);
    L2BytesAre(s, l);
    L1BytesAre(s, l);
    FloorIs(L2Bytes(s, l) * blocks, Min(64 * s.sms, L2_BANDWIDTH), l2);
    FloorIs(L1Bytes(s, l) * blocks, 128 * s.sms, l1);
    hide L1Bytes, L2Bytes, CeilDiv, IsCeil, IsFloor;
  }

  lemma CeilIs(a: int, b: int, q: int)
    requires b > 0 && IsCeil(a, b, q)
    ensures CeilDiv(a, b) == q && FloorDiv(a + b - 1, b) == q
  {
    assert (q - 1) * b == q * b - b;
    CeilDivIs(a, b, q);
  }

  lemma FloorIs(a: int, b: int, q: int)
    requires b > 0 && IsFloor(a, b, q)
    ensures FloorDiv(a, b) == q
  {
    assert (q + 1) * b == q * b + b;
    DivIs(a, b, q);
  }

  lemma L2BytesAre(s: Site, l: Layout)
    requires l.clusterM > 0 && l.clusterN > 0
    ensures L2Bytes(s, l) == s.k * (l.blockM / l.clusterN) + s.k * (l.blockN / l.clusterM) + 2 * l.blockM * l.blockN
  {
    Distribute(l.blockM / l.clusterN, l.blockN / l.clusterM, s.k);
    assert l.blockM * l.blockN * CD_BYTES == 2 * l.blockM * l.blockN;
  }

  lemma L1BytesAre(s: Site, l: Layout)
    ensures L1Bytes(s, l) == s.k * l.blockM + s.k * l.blockN + s.k * (if l.blockM < 64 then 64 else l.blockM)
                             + s.k * l.blockN + 2 * l.blockM * l.blockN + 2 * l.blockM * l.blockN
  {
    Distribute(l.blockM, l.blockN, s.k);
    Distribute(Max(WGMMA_M, l.blockM), l.blockN, s.k);
    assert l.blockM * l.blockN * CD_BYTES == 2 * l.blockM * l.blockN;
  }

  // ---- the selected config --------------------------------------------------------------------------

  function LayoutOf(c: Config): Layout { Layout(c.blockM, c.blockN, c.clusterM, c.clusterN) }

  /** No candidate costs less, and of equally cheap ones it is the first. */
  ghost predicate Cheapest(cost: Cost, s: Site, m: int, em: int, l: Layout) {
    && Candidate(s, m, l)
    && forall o | Candidate(s, m, o) ::
         Cycles(cost, s, em, l) <= Cycles(cost, s, em, o)
         && (Cycles(cost, s, em, l) == Cycles(cost, s, em, o) ==> o == l || Before(l, o))
  }

  ghost predicate Winner(cost: Cost, s: Site, m: int, em: int, c: Config) {
    Cheapest(cost, s, m, em, LayoutOf(c)) && Describes(c, LayoutOf(c), s.k)
  }

  /** When something is selected, and what it is. */
  lemma SelectedIs(cost: Cost, s: Site, m: int, em: int)
    ensures Selected(cost, s, m, em).Some? <==> s.sms % 2 == 0 && exists l :: Candidate(s, m, l)
    ensures Selected(cost, s, m, em).Some? ==> Winner(cost, s, m, em, Selected(cost, s, m, em).value)
  {
    hide Candidate, Describes, Cycles, Layouts, Before, ConfigOf;
    CandidatesAre(s, m);
    LayoutsBlocks(s, m);
    var ls := Layouts(s, m);
    if ls != [] {
      assert Candidate(s, m, ls[0]);
      var costs := Costs(cost, s, em, ls);
      ScanIsFirstMinimum(costs);
      var best := ls[Scan(costs)];
      ConfigDescribes(best, s.k);
      LayoutOfConfig(best, s.k);
      forall o | Candidate(s, m, o)
        ensures o.blockM > 0 && o.blockN > 0 && o.clusterM > 0 && o.clusterN > 0
        ensures Cycles(cost, s, em, best) <= Cycles(cost, s, em, o)
        ensures Cycles(cost, s, em, best) == Cycles(cost, s, em, o) ==> o == best || Before(best, o)
      {
        var j :| 0 <= j < |ls| && ls[j] == o;
        assert costs[j] == Cycles(cost, s, em, ls[j]);
      }
    }
  }

  lemma LayoutOfConfig(l: Layout, k: int)
    requires l.blockM > 0 && l.blockN > 0 && l.blockN % 16 == 0
    ensures LayoutOf(ConfigOf(l, k)) == l
  {
  }

  lemma BestIs(cost: Cost, s: Site, m: int, em: int)
    ensures Best(cost, s, m, em).Some? <==>
              m >= 1 && s.n >= 1 && s.k >= 1 && s.groups >= 1 && s.sms != 0 && s.sms % 2 == 0 && exists l :: Candidate(s, m, l)
    ensures Best(cost, s, m, em).Some? ==> Winner(cost, s, m, em, Best(cost, s, m, em).value)
  {
    hide Candidate, Winner, Selected;
    SelectedIs(cost, s, m, em);
  }

  /** At one site the kernel key tells configs apart: equal keys are equal configs. */
  lemma KeyIdentifies(s: Site, m: int, m': int, a: Layout, b: Layout)
    requires Candidate(s, m, a) && Candidate(s, m', b)
    ensures ConfigOf(a, s.k).Key() == ConfigOf(b, s.k).Key() <==> a == b
  {
    hide SharedBytes, NumStages, SwizzleMode;
  }

  lemma SameCosts(cost: Cost, s: Site, em: int, em': int, ls: seq<Layout>)
    requires RowBlocks(ls, s.masked)
    requires var unit := if s.masked then 64 else 16; CeilDiv(em, unit) == CeilDiv(em', unit)
    ensures Costs(cost, s, em, ls) == Costs(cost, s, em', ls)
  {
    hide Cycles;
    forall i | 0 <= i < |ls|
      ensures Cycles(cost, s, em, ls[i]) == Cycles(cost, s, em', ls[i])
    {
      CyclesSeeBlocks(cost, s, em, em', ls[i], if s.masked then 64 else 16);
    }
  }

  /** The Normal config depends on the row count only through its number of 16-row blocks. */
  lemma NormalSeesSixteens(cost: Cost, s: Site, m: int, m': int)
    requires !s.masked && m >= 1 && m' >= 1 && CeilDiv(m, 16) == CeilDiv(m', 16)
    ensures Normal(cost, s, m) == Normal(cost, s, m')
  {
    CeilDivLeast(m, 16, 1);
    CeilDivLeast(m', 16, 1);
    CeilDivLeast(m, 16, 2);
    CeilDivLeast(m', 16, 2);
    assert BlockMs(m, false) == BlockMs(m', false);
    LayoutsBlocks(s, m);
    SameCosts(cost, s, m, m', Layouts(s, m));
  }

  /** The masked config depends on the expected row count only through its 64-row blocks. */
  lemma MaskedSeesSixtyFours(cost: Cost, s: Site, m: int, em: int, em': int)
    requires s.masked && CeilDiv(em, 64) == CeilDiv(em', 64)
    ensures Best(cost, s, m, em) == Best(cost, s, m, em')
  {
    LayoutsBlocks(s, m);
    SameCosts(cost, s, em, em', Layouts(s, m));
  }

  // ---- the selection as the source runs it -----------------------------------------------

  method RowLoop(s: Site, blockM: int, c: (int, int)) returns (out: seq<Layout>)
    requires blockM > 0 && c.0 > 0 && c.1 > 0
    ensures out == OverN(s, blockM, c, 12)
  {
    hide Legal;
    out := [];
    for i := 0 to 12
      invariant out == OverN(s, blockM, c, i)
    {
      var l := Layout(blockM, 16 * (i + 1), c.0, c.1);
      if Legal(s, l) {
        out := out + [l];
      }
    }
  }

  method ClusterLoop(s: Site, ms: seq<int>, c: (int, int)) returns (out: seq<Layout>)
    requires (forall i | 0 <= i < |ms| :: ms[i] > 0) && c.0 > 0 && c.1 > 0
    ensures out == OverM(s, ms, c, |ms|)
  {
    hide OverN;
    out := [];
    for j := 0 to |ms|
      invariant out == OverM(s, ms, c, j)
    {
      var row := RowLoop(s, ms[j], c);
      out := out + row;
    }
  }

  method CandidateLoop(s: Site, m: int) returns (r: Option<seq<Layout>>)
    ensures r == if s.sms % 2 != 0 || Layouts(s, m) == [] then None else Some(Layouts(s, m))
  {
    hide OverM;
    if s.sms % 2 != 0 {
      return None;
    }
    var out: seq<Layout> := [];
    var ms := BlockMs(MClass(m, s.masked), s.masked);
    ClassIsEnough(s, m);
    for h := 0 to 3
      invariant out == OverClusters(s, ms, h)
    {
      var c := CLUSTERS[h];
      if s.sms % (c.0 * c.1) == 0 {
        var rows := ClusterLoop(s, ms, c);
        out := out + rows;
      }
    }
    if out == [] {
      return None;
    }
    r := Some(out);
  }

  method BestConfig(cost: Cost, s: Site, m: int, em: int) returns (r: Option<Config>)
    ensures r == Best(cost, s, m, em)
    ensures r.Some? <==> && m >= 1 && s.n >= 1 && s.k >= 1 && s.groups >= 1 && s.sms != 0 && s.sms % 2 == 0
                         && exists l :: Candidate(s, m, l)
    ensures r.Some? ==> Winner(cost, s, m, em, r.value)
  {
    BestIs(cost, s, m, em);
    hide Legal, Cycles, NumStages, Candidate, Winner;
    if !ShapeOk(s, m) {
      return None;
    }
    if s.sms == 0 {
      return None;
    }
    var ls := CandidateLoop(s, m);
    if ls.None? {
      return None;
    }
    LayoutsBlocks(s, m);
    ghost var costs := Costs(cost, s, em, ls.value);
    var best, bestCycles := 0, Cycles(cost, s, em, ls.value[0]);
    assert costs[..1] == [bestCycles];
    for i := 1 to |ls.value|
      invariant best < i && best == Scan(costs[..i]) && bestCycles == costs[best]
    {
      var cycles := Cycles(cost, s, em, ls.value[i]);
      assert costs[..i + 1][..i] == costs[..i];
      if cycles < bestCycles {
        best, bestCycles := i, cycles;
      }
    }
    assert costs[..|costs|] == costs;
    r := Some(ConfigOf(ls.value[best], s.k));
  }

  /** The winning candidate per expected row count, from the table of vectorised costs. */
  method SelectVector(cost: Cost, s: Site, ems: seq<int>, ls: seq<Layout>) returns (winners: seq<nat>)
    requires RowBlocks(ls, s.masked) && ls != []
    ensures |winners| == |ems|
    ensures forall j | 0 <= j < |ems| :: winners[j] < |ls| && winners[j] == Scan(Costs(cost, s, ems[j], ls))
  {
    hide Cycles;
    var table := CycleTable(cost, s, ems, ls);
    winners := [];
    for j := 0 to |ems|
      invariant |winners| == j
      invariant forall h | 0 <= h < j :: winners[h] < |ls| && winners[h] == Scan(Costs(cost, s, ems[h], ls))
    {
      var column := seq(|table|, i requires 0 <= i < |table| => table[i][j]);
      assert column == Costs(cost, s, ems[j], ls);
      ArgminIsScan(column);
      winners := winners + [FirstIndex(column, MinValue(column))];
    }
  }

  /** The costs of every candidate, one row each. */
  method CycleTable(cost: Cost, s: Site, ems: seq<int>, ls: seq<Layout>) returns (table: seq<seq<int>>)
    requires RowBlocks(ls, s.masked)
    ensures |table| == |ls| && forall h | 0 <= h < |ls| :: |table[h]| == |ems|
    ensures forall h, j | 0 <= h < |ls| && 0 <= j < |ems| :: table[h][j] == Cycles(cost, s, ems[j], ls[h])
  {
    hide Cycles, CyclesVector;
    table := [];
    for i := 0 to |ls|
      invariant |table| == i
      invariant forall h | 0 <= h < i :: |table[h]| == |ems|
      invariant forall h, j | 0 <= h < i && 0 <= j < |ems| :: table[h][j] == Cycles(cost, s, ems[j], ls[h])
    {
      var row := CyclesVector(cost, s, ems, ls[i]);
      VectorLength(cost, s, ems, ls[i]);
      forall j | 0 <= j < |ems| ensures row[j] == Cycles(cost, s, ems[j], ls[i]) { VectorIsScalar(cost, s, ems, ls[i], j); }
      table := table + [row];
    }
  }

  lemma VectorLength(cost: Cost, s: Site, ems: seq<int>, l: Layout)
    requires GoodLayout(l)
    ensures |CyclesVector(cost, s, ems, l)| == |ems|
  {
  }

  /** The configs of all row counts up to `mMax`, by number of 16-row blocks. */
  ghost predicate NormalTable(cost: Cost, s: Site, configs: map<int, Config>, qMax: int)
  {
    && (forall q :: q in configs <==> 1 <= q <= qMax)
    && (forall q | 1 <= q <= qMax :: Normal(cost, s, 16 * q) == Some(configs[q]))
  }

  method SmallConfigs(cost: Cost, s: Site, qMax: int) returns (r: Option<map<int, Config>>)
    requires !s.masked && 1 <= qMax <= 2
    ensures r.Some? <==> forall q | 1 <= q <= qMax :: Normal(cost, s, 16 * q).Some?
    ensures r.Some? ==> NormalTable(cost, s, r.value, qMax)
  {
    hide Best;
    var configs: map<int, Config> := map[];
    for q := 1 to qMax + 1
      invariant NormalTable(cost, s, configs, q - 1)
    {
      var c := BestConfig(cost, s, 16 * q, 16 * q);
      assert Normal(cost, s, 16 * q) == c;
      if c.None? {
        return None;
      }
      configs := configs[q := c.value];
    }
    r := Some(configs);
  }

  lemma LargeIsSelected(cost: Cost, s: Site, q: int, ls: seq<Layout>)
    requires !s.masked && q >= 3 && ls == Layouts(s, 48)
    ensures RowBlocks(ls, false)
    ensures Normal(cost, s, 16 * q) ==
              if !ShapeOk(s, 16 * q) || s.sms == 0 || s.sms % 2 != 0 || ls == [] then None
              else Some(ConfigOf(ls[Scan(Costs(cost, s, 16 * q, ls))], s.k))
  {
    LayoutsBlocks(s, 48);
    assert BlockMs(16 * q, false) == BlockMs(48, false);
  }

  method NormalConfigs(cost: Cost, s: Site, mMax: int) returns (r: Option<map<int, Config>>)
    requires !s.masked
    ensures mMax < 1 ==> r == None
    ensures mMax >= 1 ==>
              (r.Some? <==> forall q | 1 <= q <= CeilDiv(mMax, 16) :: Normal(cost, s, 16 * q).Some?)
    ensures r.Some? ==> NormalTable(cost, s, r.value, CeilDiv(mMax, 16))
    ensures r.Some? ==> forall q | 1 <= q <= CeilDiv(mMax, 16) :: q in r.value && Winner(cost, s, 16 * q, 16 * q, r.value[q])
  {
    forall q | 1 <= q <= CeilDiv(mMax, 16) && Normal(cost, s, 16 * q).Some?
      ensures Winner(cost, s, 16 * q, 16 * q, Normal(cost, s, 16 * q).value)
    {
      BestIs(cost, s, 16 * q, 16 * q);
    }
    hide Winner;
    hide Normal, Costs, Layouts, RowBlocks;
    if mMax < 1 {
      return None;
    }
    var qMax := CeilDiv(mMax, 16);
    CeilDivLeast(mMax, 16, 0);
    var small := SmallConfigs(cost, s, Min(qMax, 2));
    if small.None? || qMax < 3 {
      return small;
    }
    assert Normal(cost, s, 16 * 1).Some?;
    ShapeOfSome(cost, s, 16);
    var ls := CandidateLoop(s, 48);
    LargeIsSelected(cost, s, 3, Layouts(s, 48));
    if ls.None? {
      assert Normal(cost, s, 16 * 3).None?;
      return None;
    }
    var ems := seq(qMax - 2, i => 16 * (i + 3));
    var winners := SelectVector(cost, s, ems, ls.value);
    r := FillLarge(cost, s, small.value, qMax, ls.value, ems, winners);
  }

  lemma ShapeOfSome(cost: Cost, s: Site, m: int)
    requires Normal(cost, s, m).Some?
    ensures ShapeOk(s, m) && s.sms != 0 && s.sms % 2 == 0
  {
  }

  method FillLarge(cost: Cost, s: Site, small: map<int, Config>, qMax: int, ls: seq<Layout>, ems: seq<int>,
                   winners: seq<nat>) returns (r: Option<map<int, Config>>)
    requires !s.masked && qMax >= 3 && ShapeOk(s, 16) && s.sms != 0 && s.sms % 2 == 0
    requires ls == Layouts(s, 48) && ls != [] && RowBlocks(ls, false)
    requires NormalTable(cost, s, small, 2)
    requires |ems| == qMax - 2 == |winners| && forall i | 0 <= i < |ems| :: ems[i] == 16 * (i + 3)
    requires forall j | 0 <= j < |ems| :: winners[j] < |ls| && winners[j] == Scan(Costs(cost, s, ems[j], ls))
    ensures r.Some? && NormalTable(cost, s, r.value, qMax)
  {
    hide Normal, Costs, Layouts;
    var configs := small;
    for q := 3 to qMax + 1
      invariant NormalTable(cost, s, configs, q - 1)
    {
      LargeIsSelected(cost, s, q, ls);
      assert ems[q - 3] == 16 * q;
      configs := configs[q := ConfigOf(ls[winners[q - 3]], s.k)];
    }
    r := Some(configs);
  }

  // ---- representatives ---------------------------------------------------------------------

  /** The kernel a Normal call with `m` rows compiles. */
  ghost function KeyAt(cost: Cost, s: Site, m: int): Option<Key>
  {
    var c := Normal(cost, s, m);
    if c.None? then None else Some(c.value.Key())
  }

  /** `m` is the smallest row count that selects its kernel. */
  ghost predicate FirstOfItsKernel(cost: Cost, s: Site, m: int)
  {
    m >= 1 && forall h | 1 <= h < m :: KeyAt(cost, s, h) != KeyAt(cost, s, m)
  }

  lemma KeyByBlock(cost: Cost, s: Site, m: int)
    requires !s.masked && m >= 1
    ensures CeilDiv(m, 16) >= 1
    ensures KeyAt(cost, s, m) == KeyAt(cost, s, 16 * CeilDiv(m, 16))
    ensures 16 * (CeilDiv(m, 16) - 1) + 1 <= m <= 16 * CeilDiv(m, 16)
    ensures KeyAt(cost, s, m) == KeyAt(cost, s, 16 * (CeilDiv(m, 16) - 1) + 1)
  {
    hide Normal;
    var q := CeilDiv(m, 16);
    CeilDivBounds(m, 16);
    CeilDivIs(16 * q, 16, q);
    CeilDivIs(16 * (q - 1) + 1, 16, q);
    NormalSeesSixteens(cost, s, m, 16 * q);
    NormalSeesSixteens(cost, s, m, 16 * (q - 1) + 1);
  }

  /** Smallest row counts are block starts whose kernel no earlier block selects. */
  lemma FirstIsBlockStart(cost: Cost, s: Site, m: int)
    requires !s.masked && m >= 1
    ensures FirstOfItsKernel(cost, s, m) <==>
              var q := CeilDiv(m, 16);
              m == 16 * (q - 1) + 1 && forall h | 1 <= h < q :: KeyAt(cost, s, 16 * h) != KeyAt(cost, s, 16 * q)
  {
    hide KeyAt;
    var q := CeilDiv(m, 16);
    KeyByBlock(cost, s, m);
    if m == 16 * (q - 1) + 1 && forall h | 1 <= h < q :: KeyAt(cost, s, 16 * h) != KeyAt(cost, s, 16 * q) {
      forall h | 1 <= h < m
        ensures KeyAt(cost, s, h) != KeyAt(cost, s, m)
      {
        KeyByBlock(cost, s, h);
        CeilDivLeast(h, 16, q - 1);
      }
    }
    if FirstOfItsKernel(cost, s, m) {
      forall h | 1 <= h < q
        ensures KeyAt(cost, s, 16 * h) != KeyAt(cost, s, 16 * q)
      {
        assert 1 <= 16 * h < m;
      }
    }
  }

  /** Every row count in range shares its kernel with a smallest one in range. */
  lemma {:induction false} EveryKernelHasAFirst(cost: Cost, s: Site, m: int) returns (rep: int)
    requires m >= 1
    ensures 1 <= rep <= m && FirstOfItsKernel(cost, s, rep) && KeyAt(cost, s, rep) == KeyAt(cost, s, m)
    decreases m
  {
    hide KeyAt;
    if FirstOfItsKernel(cost, s, m) {
      rep := m;
    } else {
      var h :| 1 <= h < m && KeyAt(cost, s, h) == KeyAt(cost, s, m);
      rep := EveryKernelHasAFirst(cost, s, h);
    }
  }

  // ---- the representative lists -----------------------------------------------------------

  predicate IntLe(a: int, b: int) { a <= b }

  /** An insertion-ordered dictionary from kernel to the first row count seen for it. */
  type Chosen = seq<(Key, int)>

  predicate Knows(chosen: Chosen, key: Key) { exists i | 0 <= i < |chosen| :: chosen[i].0 == key }

  function Values(chosen: Chosen): seq<int> { seq(|chosen|, i requires 0 <= i < |chosen| => chosen[i].1) }

  ghost predicate Ascending(xs: seq<int>) { forall i, j | 0 <= i < j < |xs| :: xs[i] < xs[j] }

  /** Values that were collected in ascending order are their own sorted list. */
  lemma SortedAlready(xs: seq<int>)
    requires Ascending(xs)
    ensures SortBy(xs, IntLe) == xs
  {
    SortIsSorted(xs, IntLe);
    SortIsPermutation(xs, IntLe);
    SortMembership(xs, IntLe);
    SortedIsUnique(SortBy(xs, IntLe), xs, IntLe);
  }

  ghost predicate FirstAt(keys: seq<Key>, j: nat)
    requires j < |keys|
  {
    forall i | 0 <= i < j :: keys[i] != keys[j]
  }

  ghost predicate IsPick(ms: seq<int>, keys: seq<Key>, n: nat, m: int)
    requires |ms| == |keys| && n <= |ms|
  {
    exists j | 0 <= j < n :: ms[j] == m && FirstAt(keys, j)
  }

  /** The dictionary after the first `n` rows: the first row count of each kernel, in order. */
  ghost predicate PicksUpTo(chosen: Chosen, ms: seq<int>, keys: seq<Key>, n: nat)
    requires |ms| == |keys| && n <= |ms|
  {
    && Ascending(Values(chosen))
    && (forall i | 0 <= i < |chosen| :: IsPick(ms, keys, n, chosen[i].1))
    && (forall m | IsPick(ms, keys, n, m) :: m in Values(chosen))
    && (forall key :: Knows(chosen, key) <==> key in keys[..n])
  }

  lemma KnowsSnoc(chosen: Chosen, e: (Key, int), key: Key)
    ensures Knows(chosen + [e], key) <==> Knows(chosen, key) || key == e.0
  {
    var chosen' := chosen + [e];
    if Knows(chosen, key) {
      var i :| 0 <= i < |chosen| && chosen[i].0 == key;
      assert chosen'[i].0 == key;
    }
    assert chosen'[|chosen|] == e;
  }

  lemma NewIffFirst(keys: seq<Key>, n: nat)
    requires n < |keys|
    ensures FirstAt(keys, n) <==> keys[n] !in keys[..n]
  {
    if FirstAt(keys, n) { assert forall i | 0 <= i < n :: keys[..n][i] != keys[n]; }
    if keys[n] !in keys[..n] { assert forall i | 0 <= i < n :: keys[..n][i] in keys[..n]; }
  }

  lemma IsPickStep(ms: seq<int>, keys: seq<Key>, n: nat, m: int)
    requires |ms| == |keys| && n < |ms|
    ensures IsPick(ms, keys, n + 1, m) <==> IsPick(ms, keys, n, m) || (m == ms[n] && FirstAt(keys, n))
  {
  }

  lemma IsPickBound(ms: seq<int>, keys: seq<Key>, n: nat, m: int)
    requires |ms| == |keys| && n < |ms| && Ascending(ms) && IsPick(ms, keys, n, m)
    ensures m < ms[n]
  {
  }

  lemma PickStep(chosen: Chosen, ms: seq<int>, keys: seq<Key>, n: nat)
    requires |ms| == |keys| && n < |ms| && Ascending(ms) && PicksUpTo(chosen, ms, keys, n)
    ensures PicksUpTo(if Knows(chosen, keys[n]) then chosen else chosen + [(keys[n], ms[n])], ms, keys, n + 1)
  {
    hide Knows, IsPick, FirstAt;
    assert keys[..n + 1] == keys[..n] + [keys[n]];
    NewIffFirst(keys, n);
    forall m
      ensures IsPick(ms, keys, n + 1, m) <==> IsPick(ms, keys, n, m) || (m == ms[n] && FirstAt(keys, n))
    {
      IsPickStep(ms, keys, n, m);
    }
    if !Knows(chosen, keys[n]) {
      var chosen' := chosen + [(keys[n], ms[n])];
      forall key
        ensures Knows(chosen', key) <==> Knows(chosen, key) || key == keys[n]
      {
        KnowsSnoc(chosen, (keys[n], ms[n]), key);
      }
      assert Values(chosen') == Values(chosen) + [ms[n]];
      forall i | 0 <= i < |chosen|
        ensures Values(chosen)[i] < ms[n]
      {
        IsPickBound(ms, keys, n, chosen[i].1);
      }
      PicksSnoc(chosen, chosen', ms, keys, n, n + 1);
    }
  }

  lemma PicksSnoc(chosen: Chosen, chosen': Chosen, ms: seq<int>, keys: seq<Key>, n: nat, next: nat)
    requires |ms| == |keys| && n < |ms| && next == n + 1 && chosen' == chosen + [(keys[n], ms[n])]
    requires Values(chosen') == Values(chosen) + [ms[n]]
    requires forall i | 0 <= i < |chosen| :: IsPick(ms, keys, n, chosen[i].1)
    requires forall m | IsPick(ms, keys, n, m) :: m in Values(chosen)
    requires FirstAt(keys, n)
    requires forall m :: IsPick(ms, keys, next, m) <==> IsPick(ms, keys, n, m) || m == ms[n]
    ensures forall i | 0 <= i < |chosen'| :: IsPick(ms, keys, next, chosen'[i].1)
    ensures forall m | IsPick(ms, keys, next, m) :: m in Values(chosen')
  {
    hide IsPick, FirstAt;
    forall i | 0 <= i < |chosen'|
      ensures IsPick(ms, keys, next, chosen'[i].1)
    {
      if i < |chosen| { assert IsPick(ms, keys, n, chosen[i].1); }
    }
  }

  /** `chosen.setdefault(key, m)` over rows in ascending order, then the sorted values. */
  method PickFirst(ms: seq<int>, keys: seq<Key>) returns (reps: seq<int>)
    requires |ms| == |keys| && Ascending(ms)
    ensures Ascending(reps) && forall m :: m in reps <==> IsPick(ms, keys, |ms|, m)
  {
    hide PicksUpTo;
    var chosen: Chosen := [];
    NoPicks(ms, keys);
    for n := 0 to |ms|
      invariant PicksUpTo(chosen, ms, keys, n)
    {
      PickStep(chosen, ms, keys, n);
      if !Knows(chosen, keys[n]) {
        chosen := chosen + [(keys[n], ms[n])];
      }
    }
    PicksAreExact(chosen, ms, keys);
    SortedAlready(Values(chosen));
    reps := SortBy(Values(chosen), IntLe);
  }

  lemma NoPicks(ms: seq<int>, keys: seq<Key>)
    requires |ms| == |keys|
    ensures PicksUpTo([], ms, keys, 0)
  {
  }

  lemma PicksAreExact(chosen: Chosen, ms: seq<int>, keys: seq<Key>)
    requires |ms| == |keys| && PicksUpTo(chosen, ms, keys, |ms|)
    ensures Ascending(Values(chosen)) && forall m :: m in Values(chosen) <==> IsPick(ms, keys, |ms|, m)
  {
  }

  lemma RangeIsBlocks(cost: Cost, s: Site, mMax: int)
    requires !s.masked && mMax >= 1
    ensures (forall q | 1 <= q <= CeilDiv(mMax, 16) :: Normal(cost, s, 16 * q).Some?)
            <==> forall m | 1 <= m <= mMax :: KeyAt(cost, s, m).Some?
  {
    hide Normal;
    var qMax := CeilDiv(mMax, 16);
    CeilDivBounds(mMax, 16);
    if forall q | 1 <= q <= qMax :: Normal(cost, s, 16 * q).Some? {
      forall m | 1 <= m <= mMax
        ensures KeyAt(cost, s, m).Some?
      {
        KeyByBlock(cost, s, m);
        CeilDivLeast(m, 16, qMax);
      }
    }
    if forall m | 1 <= m <= mMax :: KeyAt(cost, s, m).Some? {
      forall q | 1 <= q <= qMax
        ensures Normal(cost, s, 16 * q).Some?
      {
        var m := 16 * (q - 1) + 1;
        CeilDivIs(m, 16, q);
        KeyByBlock(cost, s, m);
      }
    }
  }

  /** The picks over block starts are the smallest row counts of their kernels. */
  lemma BlockPicksAreFirst(cost: Cost, s: Site, mMax: int, ms: seq<int>, keys: seq<Key>, m: int)
    requires !s.masked && mMax >= 1 && |ms| == |keys| == CeilDiv(mMax, 16)
    requires forall i | 0 <= i < |ms| :: ms[i] == 16 * i + 1 && KeyAt(cost, s, 16 * (i + 1)) == Some(keys[i])
    ensures IsPick(ms, keys, |ms|, m) <==> 1 <= m <= mMax && FirstOfItsKernel(cost, s, m)
  {
    hide KeyAt, FirstOfItsKernel;
    var qMax := CeilDiv(mMax, 16);
    CeilDivBounds(mMax, 16);
    if m >= 1 {
      var q := CeilDiv(m, 16);
      FirstIsBlockStart(cost, s, m);
      CeilDivBounds(m, 16);
      CeilDivLeast(m, 16, qMax);
      CeilDivLeast(m, 16, 0);
      if q <= qMax && m == 16 * (q - 1) + 1 {
        assert FirstAt(keys, q - 1) <==> forall h | 1 <= h < q :: KeyAt(cost, s, 16 * h) != KeyAt(cost, s, 16 * q) by {
          SameKeys(cost, s, keys, q);
        }
        assert ms[q - 1] == m;
      }
    }
    if IsPick(ms, keys, |ms|, m) {
      var j :| 0 <= j < |ms| && ms[j] == m && FirstAt(keys, j);
      CeilDivIs(m, 16, j + 1);
    }
  }

  lemma SameKeys(cost: Cost, s: Site, keys: seq<Key>, q: int)
    requires 1 <= q <= |keys|
    requires forall i | 0 <= i < |keys| :: KeyAt(cost, s, 16 * (i + 1)) == Some(keys[i])
    ensures FirstAt(keys, q - 1) <==> forall h | 1 <= h < q :: KeyAt(cost, s, 16 * h) != KeyAt(cost, s, 16 * q)
  {
    hide KeyAt;
    if FirstAt(keys, q - 1) {
      forall h | 1 <= h < q
        ensures KeyAt(cost, s, 16 * h) != KeyAt(cost, s, 16 * q)
      {
        assert keys[h - 1] != keys[q - 1];
        assert KeyAt(cost, s, 16 * (h - 1 + 1)) == Some(keys[h - 1]) && KeyAt(cost, s, 16 * (q - 1 + 1)) == Some(keys[q - 1]);
      }
    }
    if forall h | 1 <= h < q :: KeyAt(cost, s, 16 * h) != KeyAt(cost, s, 16 * q) {
      forall i | 0 <= i < q - 1
        ensures keys[i] != keys[q - 1]
      {
        assert KeyAt(cost, s, 16 * (i + 1)) != KeyAt(cost, s, 16 * q);
        assert KeyAt(cost, s, 16 * (q - 1 + 1)) == Some(keys[q - 1]);
      }
    }
  }

  /**
   One call per returned row count compiles every kernel the range selects: the
   list holds exactly the smallest row count of each kernel, in order.
   */
  method NormalRepresentatives(cost: Cost, s: Site, mMax: int) returns (r: Option<seq<int>>)
    requires !s.masked
    ensures r.Some? <==> mMax >= 1 && forall m | 1 <= m <= mMax :: KeyAt(cost, s, m).Some?
    ensures r.Some? ==> Ascending(r.value)
    ensures r.Some? ==> forall m :: m in r.value <==> 1 <= m <= mMax && FirstOfItsKernel(cost, s, m)
  {
    hide Normal, KeyAt, FirstOfItsKernel, IsPick;
    var configs := NormalConfigs(cost, s, mMax);
    if mMax >= 1 { RangeIsBlocks(cost, s, mMax); }
    if configs.None? {
      return None;
    }
    var qMax := CeilDiv(mMax, 16);
    CeilDivLeast(mMax, 16, 0);
    var ms := seq(qMax, i => 16 * i + 1);
    var keys := seq(qMax, i requires 0 <= i < qMax => configs.value[i + 1].Key());
    forall i | 0 <= i < qMax
      ensures KeyAt(cost, s, 16 * (i + 1)) == Some(keys[i])
    {
      KeyOfConfig(cost, s, 16 * (i + 1), configs.value[i + 1]);
    }
    var reps := PickFirst(ms, keys);
    forall m
      ensures m in reps <==> 1 <= m <= mMax && FirstOfItsKernel(cost, s, m)
    {
      BlockPicksAreFirst(cost, s, mMax, ms, keys, m);
    }
    r := Some(reps);
  }

  lemma KeyOfConfig(cost: Cost, s: Site, m: int, c: Config)
    requires Normal(cost, s, m) == Some(c)
    ensures KeyAt(cost, s, m) == Some(c.Key())
  {
  }

  /** Prewarming covers serving: any row count in range compiles a kernel some representative compiled. */
  lemma PrewarmCovers(cost: Cost, s: Site, mMax: int, reps: seq<int>, m: int)
    requires 1 <= m <= mMax
    requires forall h :: h in reps <==> 1 <= h <= mMax && FirstOfItsKernel(cost, s, h)
    ensures exists rep | rep in reps :: rep <= m && KeyAt(cost, s, rep) == KeyAt(cost, s, m)
  {
    hide KeyAt, FirstOfItsKernel;
    var rep := EveryKernelHasAFirst(cost, s, m);
  }

  /** No kernel is compiled twice. */
  lemma PrewarmIsMinimal(cost: Cost, s: Site, a: int, b: int)
    requires FirstOfItsKernel(cost, s, a) && FirstOfItsKernel(cost, s, b)
    requires KeyAt(cost, s, a) == KeyAt(cost, s, b)
    ensures a == b
  {
    hide KeyAt;
  }

  // ---- the masked kernel --------------------------------------------------------------------

  /** The kernel of an expected row count; the shape is not looked at here. */
  ghost function MaskedKeyAt(cost: Cost, s: Site, em: int): Option<Key>
  {
    KeyOf(Selected(cost, s, 64, em))
  }

  function KeyOf(c: Option<Config>): Option<Key> {
    if c.None? then None else Some(c.value.Key())
  }

  /** `em` is the smallest of the given expected row counts with its kernel. */
  ghost predicate FirstMasked(cost: Cost, s: Site, expected: seq<int>, em: int)
  {
    em in expected && forall h | h in expected && h < em :: MaskedKeyAt(cost, s, h) != MaskedKeyAt(cost, s, em)
  }

  lemma {:induction false} InsertAscending(x: int, ys: seq<int>)
    requires Ascending(ys) && x !in ys
    ensures Ascending(Insert(x, ys, IntLe))
    ensures forall y :: y in Insert(x, ys, IntLe) <==> y == x || y in ys
  {
    if ys != [] && !IntLe(x, ys[0]) {
      InsertAscending(x, ys[1..]);
      var rest := Insert(x, ys[1..], IntLe);
      assert ys == [ys[0]] + ys[1..];
      forall i | 0 <= i < |rest|
        ensures ys[0] < rest[i]
      {
        assert rest[i] in rest;
      }
    }
  }

  /** `sorted({...})`. */
  method SortedDistinct(xs: seq<int>) returns (values: seq<int>)
    ensures Ascending(values) && forall x :: x in values <==> x in xs
  {
    values := [];
    for n := 0 to |xs|
      invariant Ascending(values) && forall x :: x in values <==> x in xs[..n]
    {
      assert xs[..n + 1] == xs[..n] + [xs[n]];
      if xs[n] !in values {
        InsertAscending(xs[n], values);
        values := Insert(xs[n], values, IntLe);
      }
    }
    assert xs[..|xs|] == xs;
  }

  lemma MaskedPicksAreFirst(cost: Cost, s: Site, expected: seq<int>, values: seq<int>, keys: seq<Key>, m: int)
    requires |values| == |keys| && Ascending(values) && (forall x :: x in values <==> x in expected)
    requires forall i | 0 <= i < |values| :: MaskedKeyAt(cost, s, values[i]) == Some(keys[i])
    ensures IsPick(values, keys, |values|, m) <==> FirstMasked(cost, s, expected, m)
  {
    hide MaskedKeyAt;
    if FirstMasked(cost, s, expected, m) {
      var j :| 0 <= j < |values| && values[j] == m;
      forall i | 0 <= i < j
        ensures keys[i] != keys[j]
      {
        assert values[i] in expected && values[i] < m;
      }
    }
    if IsPick(values, keys, |values|, m) {
      var j :| 0 <= j < |values| && values[j] == m && FirstAt(keys, j);
      forall h | h in expected && h < m
        ensures MaskedKeyAt(cost, s, h) != MaskedKeyAt(cost, s, m)
      {
        var i :| 0 <= i < |values| && values[i] == h;
        assert keys[i] != keys[j];
      }
    }
  }

  /** The smallest expected row count per masked kernel. */
  method MaskedRepresentatives(cost: Cost, s: Site, expected: seq<int>) returns (r: Option<seq<int>>)
    requires s.masked
    ensures expected == [] ==> r == Some([])
    ensures expected != [] ==>
              (r.Some? <==> forall em | em in expected :: em >= 1 && MaskedKeyAt(cost, s, em).Some?)
    ensures r.Some? ==> Ascending(r.value) && forall em :: em in r.value <==> FirstMasked(cost, s, expected, em)
    ensures ShapeOk(s, 64) && s.sms != 0 ==> forall em :: MaskedKeyAt(cost, s, em) == KeyOf(Best(cost, s, 64, em))
  {
    hide Layouts, Costs, Legal, NumStages, IsPick;
    var values := SortedDistinct(expected);
    if values == [] {
      if expected != [] { assert expected[0] in expected; }
      return Some([]);
    }
    assert values[0] in values;
    if values[0] < 1 {
      return None;
    }
    forall em | em in expected ensures em >= 1 {
      var i :| 0 <= i < |values| && values[i] == em;
      assert i == 0 || values[0] < values[i];
    }
    var ls := CandidateLoop(s, 64);
    LayoutsBlocks(s, 64);
    if ls.None? {
      assert MaskedKeyAt(cost, s, values[0]).None?;
      return None;
    }
    var winners := SelectVector(cost, s, values, ls.value);
    var keys := seq(|values|, i requires 0 <= i < |values| => ConfigOf(ls.value[winners[i]], s.k).Key());
    forall em | em in expected ensures MaskedKeyAt(cost, s, em).Some? {}
    forall i | 0 <= i < |values| ensures MaskedKeyAt(cost, s, values[i]) == Some(keys[i]) {}
    var reps := PickFirst(values, keys);
    forall em
      ensures em in reps <==> FirstMasked(cost, s, expected, em)
    {
      MaskedPicksAreFirst(cost, s, expected, values, keys, em);
    }
    r := Some(reps);
  }
}
