/**
 Host and GPU page reservations of one decoding sequence: at every boundary the
 scheduler grows the host reservation when it runs short and tops up the GPU
 pages, then lets the sequence decode until the next boundary.
 */
module PageRunway {
  import opened Arith

  const PAGE_SIZE: nat := 64

  /**
   Pages reserved on a first load and on an extension, the pages decoded between
   two boundaries, and the smallest host growth chunk (in tokens) ever in force.
   */
  datatype Config = Config(initial: nat, extension: nat, interval: nat, leastChunk: nat)

  datatype Entry = Entry(prompt: nat, budget: nat, ctx: nat, hostPages: nat, gpuPages: nat,
                         decoding: bool, hadInitial: bool, stretch: nat)

  function Pages(tokens: nat): nat { CeilDiv(tokens, PAGE_SIZE) }

  // ---- page counts --------------------------------------------------------------------

  function HostCapacity(e: Entry): nat { e.hostPages * PAGE_SIZE }

  function PagesRequired(e: Entry): nat { Pages(e.budget) }

  function GpuPagesForLoad(cfg: Config, e: Entry): nat {
    var buffer := if e.hadInitial then cfg.extension else cfg.initial;
    var pages := Pages(Min(e.ctx + buffer * PAGE_SIZE, e.budget));
    if e.hostPages > 0 then Min(pages, e.hostPages) else pages
  }

  function AdditionalGpuPages(cfg: Config, e: Entry): nat {
    Max(0, Pages(Min(e.ctx + cfg.extension * PAGE_SIZE, e.budget)) - e.gpuPages)
  }

  predicate NeedsHostGrowth(cfg: Config, e: Entry) {
    HostCapacity(e) > 0 && HostCapacity(e) - e.ctx <= cfg.extension * PAGE_SIZE
  }

  function HostGrowthPages(e: Entry, chunk: nat): nat {
    var left := e.budget - HostCapacity(e);
    if left <= 0 then 0 else Pages(Min(chunk, left))
  }

  function InitialHostPages(cfg: Config, prompt: nat, budget: nat, chunk: nat): nat {
    var gpuTokens := (Pages(prompt + 1) + cfg.initial) * PAGE_SIZE;
    Pages(Min(Max(prompt + chunk, gpuTokens), budget))
  }

  /** A load takes the fewest pages that reach past its buffer, its budget, or what the host holds. */
  lemma LoadPagesIff(cfg: Config, e: Entry, p: nat)
    ensures p >= GpuPagesForLoad(cfg, e) <==>
              || p * PAGE_SIZE >= e.ctx + (if e.hadInitial then cfg.extension else cfg.initial) * PAGE_SIZE
              || p * PAGE_SIZE >= e.budget
              || (e.hostPages > 0 && p >= e.hostPages)
  {
    PagesIff(Min(e.ctx + (if e.hadInitial then cfg.extension else cfg.initial) * PAGE_SIZE, e.budget), p);
  }

  lemma PagesIff(tokens: nat, p: nat)
    ensures p >= Pages(tokens) <==> p * PAGE_SIZE >= tokens
  {
  }

  /** An extension adds the fewest pages that reach past its buffer or the budget. */
  lemma ExtensionPagesIff(cfg: Config, e: Entry, p: nat)
    ensures p >= AdditionalGpuPages(cfg, e) <==>
              || (e.gpuPages + p) * PAGE_SIZE >= e.ctx + cfg.extension * PAGE_SIZE
              || (e.gpuPages + p) * PAGE_SIZE >= e.budget
  {
    PagesIff(Min(e.ctx + cfg.extension * PAGE_SIZE, e.budget), e.gpuPages + p);
  }

  /** Growth adds the fewest pages that hold a chunk or reach the budget. */
  lemma GrowthPagesIff(e: Entry, chunk: nat, p: nat)
    ensures p >= HostGrowthPages(e, chunk) <==> p * PAGE_SIZE >= chunk || (e.hostPages + p) * PAGE_SIZE >= e.budget
  {
    if e.budget > HostCapacity(e) { PagesIff(Min(chunk, e.budget - HostCapacity(e)), p); }
  }

  /** The first reservation takes the fewest pages that hold a chunk past the prompt and the first load, or the budget. */
  lemma InitialPagesIff(cfg: Config, prompt: nat, budget: nat, chunk: nat, p: nat)
    ensures p >= InitialHostPages(cfg, prompt, budget, chunk) <==>
              || p * PAGE_SIZE >= budget
              || (p * PAGE_SIZE >= prompt + chunk && p >= cfg.initial && (p - cfg.initial) * PAGE_SIZE >= prompt + 1)
  {
    var gpuTokens := (Pages(prompt + 1) + cfg.initial) * PAGE_SIZE;
    PagesIff(Min(Max(prompt + chunk, gpuTokens), budget), p);
    if p >= cfg.initial { PagesIff(prompt + 1, p - cfg.initial); }
  }

  // ---- steps --------------------------------------------------------------------------

  datatype Step = Boundary(chunk: nat) | Decode(tokens: nat) | Hold

  /** After prefill: one decoded token, host pages reserved, nothing on the GPU. */
  function Prefilled(cfg: Config, prompt: nat, budget: nat, chunk: nat): Entry {
    Entry(prompt, budget, prompt + 1, InitialHostPages(cfg, prompt, budget, chunk), 0, false, false, 0)
  }

  predicate Enabled(cfg: Config, e: Entry, step: Step) {
    match step
    case Boundary(chunk) => chunk >= cfg.leastChunk
    case Decode(tokens) => e.decoding && tokens <= e.stretch && e.ctx + tokens <= e.budget
    case Hold => e.decoding
  }

  function GrowHost(cfg: Config, e: Entry, chunk: nat): Entry {
    if NeedsHostGrowth(cfg, e) then e.(hostPages := e.hostPages + HostGrowthPages(e, chunk)) else e
  }

  /** Extends a decoding sequence, loads a waiting one. */
  function TopUpGpu(cfg: Config, e: Entry): Entry {
    if e.decoding then e.(gpuPages := e.gpuPages + AdditionalGpuPages(cfg, e), stretch := cfg.interval * PAGE_SIZE)
    else e.(gpuPages := GpuPagesForLoad(cfg, e), hadInitial := true, decoding := true,
            stretch := cfg.interval * PAGE_SIZE)
  }

  function Apply(cfg: Config, e: Entry, step: Step): Entry
    requires Enabled(cfg, e, step)
  {
    match step
    case Boundary(chunk) => TopUpGpu(cfg, GrowHost(cfg, e, chunk))
    case Decode(tokens) => e.(ctx := e.ctx + tokens, stretch := e.stretch - tokens)
    case Hold => e.(decoding := false, gpuPages := 0, hadInitial := false, stretch := 0)
  }

  predicate CanRun(cfg: Config, e: Entry, run: seq<Step>)
    decreases |run|
  {
    run == [] || (Enabled(cfg, e, run[0]) && CanRun(cfg, Apply(cfg, e, run[0]), run[1..]))
  }

  function Run(cfg: Config, e: Entry, run: seq<Step>): Entry
    requires CanRun(cfg, e, run)
    decreases |run|
  {
    if run == [] then e else Run(cfg, Apply(cfg, e, run[0]), run[1..])
  }

  // ---- safety ---------------------------------------------------------------------------

  /** The context fits both reservations, and the host never holds more pages than it can need. */
  predicate Fits(e: Entry) {
    && e.ctx <= HostCapacity(e)
    && e.hostPages <= PagesRequired(e)
    && (e.decoding ==> e.ctx <= e.gpuPages * PAGE_SIZE && e.gpuPages <= PagesRequired(e))
  }

  /** Buffers and chunks cover a whole interval. */
  predicate Covers(cfg: Config) {
    && cfg.interval <= cfg.extension
    && cfg.interval <= cfg.initial
    && cfg.interval <= Pages(cfg.leastChunk)
  }

  predicate Invariant(cfg: Config, e: Entry) {
    && 0 < e.ctx <= PagesRequired(e) * PAGE_SIZE
    && Fits(e)
    && e.hadInitial == e.decoding
    && (e.decoding ==> Min(e.ctx + e.stretch, e.budget) <= Min(HostCapacity(e), e.gpuPages * PAGE_SIZE))
    && (!e.decoding ==> e.stretch == 0 && e.gpuPages == 0)
  }

  /** There is something to decode, or the prompt leaves its last page a token. */
  predicate Roomy(prompt: nat, budget: nat) { budget > prompt || prompt % PAGE_SIZE != 0 }

  /**
   Prefill always adds one token.  It has room, and the invariant starts, unless
   there is nothing to decode and the prompt fills its pages.
   */
  lemma StartsSafe(cfg: Config, prompt: nat, budget: nat, chunk: nat)
    requires budget >= prompt
    ensures Fits(Prefilled(cfg, prompt, budget, chunk)) <==> Roomy(prompt, budget)
    ensures Roomy(prompt, budget) ==> Invariant(cfg, Prefilled(cfg, prompt, budget, chunk))
  {
  }

  /** The host grows exactly when it holds pages, short of the budget, and no more than an extension is left. */
  lemma GrowsIff(cfg: Config, e: Entry, chunk: nat)
    requires chunk > 0
    ensures GrowHost(cfg, e, chunk).hostPages > e.hostPages <==>
              && e.hostPages > 0 && e.hostPages * PAGE_SIZE < e.budget
              && e.hostPages * PAGE_SIZE <= e.ctx + cfg.extension * PAGE_SIZE
  {
    GrowthPagesIff(e, chunk, 0);
  }

  lemma GrowthReaches(cfg: Config, e: Entry, chunk: nat)
    requires Covers(cfg) && Invariant(cfg, e) && chunk >= cfg.leastChunk
    ensures var g := GrowHost(cfg, e, chunk);
            && Min(e.ctx + cfg.interval * PAGE_SIZE, e.budget) <= HostCapacity(g)
            && g.hostPages <= PagesRequired(g) && g == e.(hostPages := g.hostPages) && e.hostPages <= g.hostPages
  {
  }

  lemma StepKeeps(cfg: Config, e: Entry, step: Step)
    requires Covers(cfg) && Invariant(cfg, e) && Enabled(cfg, e, step)
    ensures Invariant(cfg, Apply(cfg, e, step))
  {
    if step.Boundary? { GrowthReaches(cfg, e, step.chunk); }
  }

  lemma {:induction false} RunKeeps(cfg: Config, e: Entry, run: seq<Step>)
    requires Covers(cfg) && Invariant(cfg, e) && CanRun(cfg, e, run)
    ensures Invariant(cfg, Run(cfg, e, run))
    decreases |run|
  {
    hide Invariant, Apply, Enabled, Covers;
    if run != [] {
      StepKeeps(cfg, e, run[0]);
      RunKeeps(cfg, Apply(cfg, e, run[0]), run[1..]);
    }
  }

  // ---- exactly when every run is safe ------------------------------------------------------

  ghost predicate Safe(cfg: Config) {
    forall prompt: nat, budget: nat, chunk: nat, run: seq<Step>
      | budget >= prompt && Roomy(prompt, budget) && chunk >= cfg.leastChunk
        && CanRun(cfg, Prefilled(cfg, prompt, budget, chunk), run) ::
      Fits(Run(cfg, Prefilled(cfg, prompt, budget, chunk), run))
  }

  /** `run` is possible from `e` and ends with the context past a reservation. */
  predicate Overruns(cfg: Config, e: Entry, run: seq<Step>) {
    CanRun(cfg, e, run) && !Fits(Run(cfg, e, run))
  }

  lemma Prepend(cfg: Config, e: Entry, step: Step, run: seq<Step>)
    requires Enabled(cfg, e, step) && Overruns(cfg, Apply(cfg, e, step), run)
    ensures Overruns(cfg, e, [step] + run)
  {
    assert ([step] + run)[1..] == run;
  }

  /** The context fills whole pages, `runway` short of the host reservation, and the budget lies `spare` pages beyond. */
  predicate Aligned(e: Entry, runway: nat, spare: nat) {
    && 0 < e.ctx && e.ctx + runway * PAGE_SIZE == HostCapacity(e)
    && (e.hostPages + spare) * PAGE_SIZE <= e.budget
  }

  /** A boundary and a full interval of decoding, away from the end of the budget. */
  lemma FullRound(cfg: Config, e: Entry, runway: nat, spare: nat)
    requires Aligned(e, runway, spare) && spare >= Pages(cfg.leastChunk) + cfg.interval
    ensures var boundary, decode := Boundary(cfg.leastChunk), Decode(cfg.interval * PAGE_SIZE);
            && Enabled(cfg, e, boundary) && Enabled(cfg, Apply(cfg, e, boundary), decode)
            && var next := Apply(cfg, Apply(cfg, e, boundary), decode);
               var left := runway - cfg.interval + (if runway <= cfg.extension then Pages(cfg.leastChunk) else 0);
            && (left < 0 ==> next.ctx > HostCapacity(next))
            && (left >= 0 ==> Aligned(next, left, spare - Pages(cfg.leastChunk)))
  {
  }

  /** Budget, in pages, for a round per page of runway and one more. */
  function RoundsLeft(runway: nat, pages: nat): nat { (runway + 1) * pages }

  lemma RoundsShrink(left: nat, runway: nat, pages: nat)
    ensures left < runway ==> RoundsLeft(left, pages) + pages <= RoundsLeft(runway, pages)
    ensures RoundsLeft(runway, pages) >= pages
  {
    Distribute(left + 1, 1, pages);
    if left < runway { MulMonotone(left + 2, runway + 1, pages); }
    MulMonotone(1, runway + 1, pages);
  }

  /** Chunks shorter than the interval: every round eats into the host runway. */
  lemma {:induction false} HostRunsOut(cfg: Config, e: Entry, runway: nat, spare: nat) returns (run: seq<Step>)
    requires Pages(cfg.leastChunk) < cfg.interval
    requires Aligned(e, runway, spare) && spare >= RoundsLeft(runway, Pages(cfg.leastChunk) + cfg.interval)
    ensures Overruns(cfg, e, run)
    decreases runway
  {
    var boundary, decode := Boundary(cfg.leastChunk), Decode(cfg.interval * PAGE_SIZE);
    var growth, pages := Pages(cfg.leastChunk), Pages(cfg.leastChunk) + cfg.interval;
    RoundsShrink(0, runway, pages);
    FullRound(cfg, e, runway, spare);
    hide Apply, Enabled, Overruns, Pages, RoundsLeft, Aligned, HostCapacity;
    var loaded := Apply(cfg, e, boundary);
    var next := Apply(cfg, loaded, decode);
    var left := runway - cfg.interval + (if runway <= cfg.extension then growth else 0);
    var rest: seq<Step> := [];
    if left < 0 {
      NoRoomLeft(cfg, next);
    } else {
      RoundsShrink(left, runway, pages);
      rest := HostRunsOut(cfg, next, left, spare - growth);
    }
    Prepend(cfg, loaded, decode, rest);
    Prepend(cfg, e, boundary, [decode] + rest);
    run := [boundary] + ([decode] + rest);
  }

  lemma NoRoomLeft(cfg: Config, e: Entry)
    requires e.ctx > HostCapacity(e) || (e.decoding && e.ctx > e.gpuPages * PAGE_SIZE)
    ensures Overruns(cfg, e, [])
  {
  }

  /** An initial buffer shorter than the interval: the first stretch runs past the GPU pages. */
  lemma FirstLoadRunsOut(cfg: Config, e: Entry) returns (run: seq<Step>)
    requires cfg.initial < cfg.interval
    requires !e.decoding && !e.hadInitial && e.hostPages > 0 && e.ctx % PAGE_SIZE == 0
    requires e.ctx + cfg.interval * PAGE_SIZE <= e.budget
    ensures Overruns(cfg, e, run)
  {
    var boundary, decode := Boundary(cfg.leastChunk), Decode(cfg.interval * PAGE_SIZE);
    var loaded := Apply(cfg, e, boundary);
    NoRoomLeft(cfg, Apply(cfg, loaded, decode));
    Prepend(cfg, loaded, decode, []);
    Prepend(cfg, e, boundary, [decode]);
    run := [boundary, decode];
  }

  /** A boundary adds no GPU pages while an extension buffer is still free. */
  lemma NoExtension(cfg: Config, e: Entry, headroom: nat, pages: nat)
    requires e.decoding && e.ctx % PAGE_SIZE == 0 && cfg.extension <= headroom && pages <= cfg.interval
    requires e.gpuPages * PAGE_SIZE == e.ctx + headroom * PAGE_SIZE
    requires e.ctx + (headroom + cfg.interval) * PAGE_SIZE <= e.budget
    ensures var boundary, decode := Boundary(cfg.leastChunk), Decode(pages * PAGE_SIZE);
            && Enabled(cfg, e, boundary) && Enabled(cfg, Apply(cfg, e, boundary), decode)
            && var next := Apply(cfg, Apply(cfg, e, boundary), decode);
            && next.ctx == e.ctx + pages * PAGE_SIZE && next.budget == e.budget && next.decoding
            && next.gpuPages == e.gpuPages
  {
  }

  /** An extension buffer shorter than the interval: decode page by page until it no longer covers a stretch. */
  lemma {:induction false} GpuRunsOut(cfg: Config, e: Entry, headroom: nat) returns (run: seq<Step>)
    requires e.decoding && e.ctx % PAGE_SIZE == 0 && cfg.extension <= headroom && cfg.extension < cfg.interval
    requires e.gpuPages * PAGE_SIZE == e.ctx + headroom * PAGE_SIZE
    requires e.ctx + (headroom + cfg.interval) * PAGE_SIZE <= e.budget
    ensures Overruns(cfg, e, run)
    decreases headroom
  {
    var pages := if headroom < cfg.interval then cfg.interval else 1;
    var boundary, decode := Boundary(cfg.leastChunk), Decode(pages * PAGE_SIZE);
    NoExtension(cfg, e, headroom, pages);
    hide Apply, Enabled, Overruns;
    var loaded := Apply(cfg, e, boundary);
    var next := Apply(cfg, loaded, decode);
    var rest: seq<Step> := [];
    if headroom < cfg.interval {
      NoRoomLeft(cfg, next);
    } else {
      rest := GpuRunsOut(cfg, next, headroom - 1);
    }
    Prepend(cfg, loaded, decode, rest);
    Prepend(cfg, e, boundary, [decode] + rest);
    run := [boundary] + ([decode] + rest);
  }

  lemma LoadedPages(cfg: Config, e: Entry)
    requires !e.decoding && !e.hadInitial && e.ctx % PAGE_SIZE == 0
    requires e.hostPages * PAGE_SIZE >= e.ctx + cfg.initial * PAGE_SIZE && e.ctx + cfg.initial * PAGE_SIZE <= e.budget
    requires e.hostPages > 0
    ensures var loaded := Apply(cfg, e, Boundary(cfg.leastChunk));
            && loaded.decoding && loaded.ctx == e.ctx && loaded.budget == e.budget
            && loaded.gpuPages * PAGE_SIZE == e.ctx + cfg.initial * PAGE_SIZE
  {
  }

  /** With a prompt ending one token short of a page, the start is page-aligned. */
  lemma AlignedStart(cfg: Config, budget: nat, hostPages: nat)
    requires hostPages == Pages(Max(63 + cfg.leastChunk, (1 + cfg.initial) * PAGE_SIZE))
    requires budget >= hostPages * PAGE_SIZE
    ensures var e := Prefilled(cfg, 63, budget, cfg.leastChunk);
            && e == Entry(63, budget, 64, hostPages, 0, false, false, 0)
            && hostPages >= 1 + cfg.initial
  {
  }

  lemma UncoveredOverruns(cfg: Config) returns (budget: nat, run: seq<Step>)
    requires !Covers(cfg)
    ensures budget > 63 && Overruns(cfg, Prefilled(cfg, 63, budget, cfg.leastChunk), run)
  {
    hide Overruns, Apply;
    var hostPages := Pages(Max(63 + cfg.leastChunk, (1 + cfg.initial) * PAGE_SIZE));
    var rounds := hostPages * (Pages(cfg.leastChunk) + cfg.interval);
    assert rounds >= 0;
    budget := (hostPages + rounds + 1 + cfg.initial + cfg.interval) * PAGE_SIZE;
    AlignedStart(cfg, budget, hostPages);
    var e := Prefilled(cfg, 63, budget, cfg.leastChunk);
    if cfg.initial < cfg.interval {
      run := FirstLoadRunsOut(cfg, e);
    } else if cfg.extension < cfg.interval {
      LoadedPages(cfg, e);
      var rest := GpuRunsOut(cfg, Apply(cfg, e, Boundary(cfg.leastChunk)), cfg.initial);
      Prepend(cfg, e, Boundary(cfg.leastChunk), rest);
      run := [Boundary(cfg.leastChunk)] + rest;
    } else {
      run := HostRunsOut(cfg, e, hostPages - 1, rounds);
    }
  }

  /**
   No run, of any sequence, takes the context past its host capacity or its GPU
   pages exactly when both buffers and every growth chunk cover an interval.
   */
  lemma SafeIff(cfg: Config)
    ensures Safe(cfg) <==> Covers(cfg)
  {
    if Covers(cfg) {
      forall prompt: nat, budget: nat, chunk: nat, run: seq<Step>
        | budget >= prompt && Roomy(prompt, budget) && chunk >= cfg.leastChunk
        && CanRun(cfg, Prefilled(cfg, prompt, budget, chunk), run)
        ensures Fits(Run(cfg, Prefilled(cfg, prompt, budget, chunk), run))
      {
        StartsSafe(cfg, prompt, budget, chunk);
        RunKeeps(cfg, Prefilled(cfg, prompt, budget, chunk), run);
      }
    } else {
      var budget, run := UncoveredOverruns(cfg);
      assert CanRun(cfg, Prefilled(cfg, 63, budget, cfg.leastChunk), run);
    }
  }
}
