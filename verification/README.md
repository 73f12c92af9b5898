# batchgen scheduling core: a verified model

batchgen serves long batches of sequences on several GPUs. Its ranks share no
scheduler: each rank keeps its own books and must come to the same decisions.
This project models the parts where a wrong step silently corrupts or loses a
sequence, and proves what they promise.

| file | what it models |
|---|---|
| `Extents.dfy`, `TokenBook.dfy`, `TurnLedger.dfy` | the paged token store as values: first-fit page extents, slots and names, tokens and turn ledger |
| `BookTables.dfy`, `QueryBook.dfy`, `MirroredBooks.dfy` | the `QueryBook` class over one flat buffer, with its dictionaries and cached tails, and two ranks' books over shared pages |
| `HostGrowthPlanner.dfy`, `LoadSelector.dfy`, `BoundaryValidator.dfy` | the boundary scheduler: eviction planning, GPU load selection, and the check of gathered rank states |
| `DeepGemmConfigs.dfy` | which kernels a range of row counts selects, and the row counts that prewarm all of them |
| `PersistentMatmul.dfy` | the persistent matmul: tile swizzle, strided programs, K loop, stores |
| `PageRunway.dfy`, `SequenceBatch.dfy` | host and GPU page reservations of a sequence over whole runs; the batch with its three indexes and its membership stamp |
| `LeastLoad.dfy`, `DecodeGroups.dfy`, `PlanDigest.dfy`, `AdmissionReplay.dfy` | balancing sequences over decode groups, the digest that compares group maps, and the workload builder's replay of admission |
| `SmoothWrr.dfy` | the smooth weighted round robin that interleaves strata |
| `LaneAdmission.dfy` | lane start, stop and crash steps over the manifests of one host |
| `Arith.dfy`, `Reals.dfy`, `Options.dfy`, `Sorting.dfy` | division and real arithmetic, optional values, stable sorting |

Objects whose methods update fields are classes; loops are methods with
invariants, proved against functions on values, and the theorems are stated
about those functions. A call that raises returns `None` or `false` and leaves
the state as it was. The dot product of the matmul and the float32
wave-efficiency quotient of the kernel cost are arbitrary functions. Float loads
and weights are rounded by an arbitrary function after every operation; the
bounds are proved of the exact schedules, which the rounded ones equal on whole
numbers within 2^53. File locks are assumed to make each lane start and stop one
step.

`dafny verify dfyconfig.toml` checks the whole project.

## Where the code and its documentation part

* `restore` validates a ledger without asking that its last turn ends at the
  last token. A shorter ledger is accepted, and the next sampled token is then
  reported as an older one (`RestoredLedgerLogsIff`, `RestoreAcceptsShortLedger`).
* `synchronize_metadata` does not check that token and decoded length advance
  together. The ledger stays aligned exactly when they do
  (`SynchronizeKeepsAlignmentIff`, `SynchronizeAcceptsUnequalAdvance`). A mirror
  that never saw a prompt refuses once the owner moved its prompt boundary
  (`EmptyMirrorCatchesUpIff`, `EmptyMirrorRefuses`).
* The growth planner lists a uuid requested twice two times but owes it once, so
  the list adds up for all candidates exactly when the request names no growing
  row twice (`ReportedGrowthAddsUpIff`, `DoubledGrowthIsListedTwice`). The caller
  at `batchgen/worker/boundary.py:218-227` builds the request from the active
  uuids, so a repeat needs a repeated decode uuid.
* Load selection promises that all ranks select the same sequences. Whatever the
  free pages and limits, that holds exactly when no two different wanted
  candidates tie for one capacity group; of two that tie, the one the dictionary
  was filled with first is selected (`SelectionIgnoresInsertionOrderIff`,
  `RivalsSelectApart`, `TiedPairSelectsApart`).
* `_smooth_wrr` promises every prefix within one row of its shares. That holds
  for all weights exactly up to three strata (`WithinOneRowIff`, `FloatsStray`).
* `add_sequence` says a gid collision resolves like a dictionary comprehension.
  After the newer entry is removed the older one is not found
  (`CollisionHidesOlder`). The gid index is exact until the first live collision;
  a member is lost exactly when another entry was added with its gid after it
  (`HiddenIffOvertaken`), and the index is exact again exactly when the last lost
  member is removed or added anew without colliding.
* Stopping a lane that is already stopped can mark it failed, because GPU
  processes of a later lane on the same GPU count as its residue. The lane is
  then active again beside the later one (`StoppingTwiceRevives`); nothing else
  breaks exclusion (`StepKeepsIff`).
* A sequence with nothing to decode still receives one token from prefill, for
  which no page is reserved when the prompt fills its pages (`StartsSafe`).

## Model

| member | source | states |
|---|---|---|
| `Extents.CanonicalIsUnique` | batchgen/query_book.py:1067-1085 | a set of free pages has exactly one sorted, maximally coalesced free list |
| `Extents.TakeSucceedsIff` | batchgen/query_book.py:1051-1065 | first fit finds a range if and only if some free extent is long enough |
| `Extents.TakeReserves` | batchgen/query_book.py:1051-1065 | the pages taken were free, lie in the lowest extent with room, leave exactly the other free pages, and the list stays canonical |
| `Extents.ReturnIsCanonicalUnion` | batchgen/query_book.py:1067-1085 | returning pages yields the canonical list of the old free pages plus the returned ones |
| `Extents.TakeAllReserves` | batchgen/query_book.py:161-182 | a batch of reservations splits the free pages into disjoint ranges of the requested sizes and a canonical rest |
| `Extents.ReleaseOrderIsIrrelevant` | batchgen/query_book.py:285-328 | reserving any batch and returning its ranges in any order restores the identical free list |
| `Extents.TakeDropsCountByOne` | batchgen/query_book.py:195-204 | a reservation of `k` pages succeeds iff the free count for `k` is positive, and lowers it by exactly one |
| `Extents.EqualRequestsFitIff` | batchgen/query_book.py:195-204 | `m` equal requests all fit iff `m` is at most the advertised free count, however fragmented the pool is |
| `TokenBook.BindKeepsInv` | batchgen/query_book.py:285-314 | a bind keeps pages, slots and names partitioned, uses a slot nobody holds and pages that were free, and changes no other entry |
| `TokenBook.BindSucceedsIff` | batchgen/query_book.py:285-314 | a bind succeeds iff the name is non-empty and new, the length is positive and some free extent is long enough |
| `TokenBook.PagesForIff` | batchgen/query_book.py:152-154 | a reservation takes the fewest pages that hold its tokens |
| `TokenBook.ReleaseKeepsInv` | batchgen/query_book.py:316-328 | a release keeps the partition of pages, slots and names |
| `TokenBook.FreeListIsDetermined` | batchgen/query_book.py:1051-1085 | two valid books with the same reserved pages have the same free list: no history shows |
| `TokenBook.BatchIsSequential` | batchgen/query_book.py:218-283 | a batch bind and one bind per member in order succeed together and give the same slots, ranges and book |
| `TokenBook.PreflightTakesAll` | batchgen/query_book.py:161-182 | the preflight answers yes iff every length is positive and first fit places all of them in turn |
| `TokenBook.PreflightIsExact` | batchgen/query_book.py:161-182 | the preflight answers yes iff binding the batch one by one would succeed, for any lengths, also non-positive ones |
| `TokenBook.EqualBindsFitIff` | batchgen/query_book.py:195-204 | `k` equal requests under new names can be bound iff `k` is at most `reservation_free_count` |
| `TokenBook.BindAllKeepsInv` | batchgen/query_book.py:218-283 | a successful batch adds exactly its members, fresh and under new slots, and keeps every other entry |
| `TokenBook.SetTrajectoryKeepsInv` | batchgen/query_book.py:356-408 | changing one slot's tokens, lengths and ledger within its reservation keeps the partition |
| `TokenBook.OnEachKeeps` | batchgen/query_book.py:654-702 | operations on distinct slots that each accept theirs are never refused as a batch and touch no other slot |
| `TokenBook.RangesApart` | batchgen/query_book.py:1016-1049 | the flat positions reserved for two slots never meet |
| `TokenBook.TailIsFlat` | batchgen/query_book.py:1007-1014 | the cached tail names flat position `page_start*page_tokens + token_length`, also when the chain is full, and lies in the slot's own pages |
| `TokenBook.StepLogsIff` | batchgen/query_book.py:285-652 | a step keeps every slot's generated tokens equal to the observer's log iff it is not a restore whose ledger stops short or marks other tokens than were sampled, and not a synchronisation whose lengths advance unequally or whose pages no longer hold what the slot marked |
| `TokenBook.EveryRunLogs` | batchgen/query_book.py:285-761 | over every run of binds, releases, slot operations, restores and synchronisations from an empty book: pages stay partitioned, and if the imports were faithful each bound slot's generated tokens are exactly those sampled for it here, by its owner, or before it migrated |
| `TokenBook.SlotOpAcceptedIff` | batchgen/query_book.py:356-479 | an operation on a bound slot is accepted iff the lengths heard so far leave it room in the reservation |
| `TokenBook.EveryRunHolds` | batchgen/query_book.py:218-702 | over every run of binds, releases, slot operations, restores and synchronisations each slot holds exactly the tokens and prompt boundary that an observer of the accepted calls notes for it |
| `TokenBook.RestoreReadsBackIff` | batchgen/query_book.py:591-631 | a restored slot reads back the log of the migrated sequence iff the given ledger marks it and ends at the last token |
| `TokenBook.SyncReadsBackIff` | batchgen/query_book.py:481-554 | a synchronised slot reads back its old log and then the tokens the owner added iff the lengths advance together over pages that still hold the old log |
| `TokenBook.MigrationIsFaithful` | batchgen/query_book.py:591-631 | the encoded ledger of any slot that reads back its log is accepted by any slot with room, and restoring it is faithful to that log |
| `TokenBook.HandoverIsFaithful` | batchgen/query_book.py:481-554 | a mirror that takes over an owner's lengths after any decode phase does so faithfully, and its log grows by exactly what the owner sampled |
| `TokenBook.EveryRunIsForward` | batchgen/query_book.py:285-652 | over every run, faithful imports or not, no span of any ledger starts before the trajectory or runs backwards |
| `TokenBook.DrainedBookIsWhole` | batchgen/query_book.py:316-328 | after any run that released every slot the free list is the one extent it started as |
| `TurnLedger.AppendTokenKeeps` | batchgen/query_book.py:931-951 | a sampled token extends the generated tokens by itself and keeps the ledger aligned with the trajectory |
| `TurnLedger.PromptOpKeeps` | batchgen/query_book.py:378-479 | later prompts, re-entries and prompt-boundary moves keep the generated tokens and the alignment |
| `TurnLedger.WritePromptKeeps` | batchgen/query_book.py:356-376 | writing a prompt leaves exactly its tokens and length, and starts an aligned ledger with nothing generated |
| `TurnLedger.TellsNext` | batchgen/query_book.py:356-479 | every operation is accepted iff the lengths of an observer who only hears the calls allow it, and slot and observer go on together: tokens, prompt length, and each turn as the stretch of tokens heard for it |
| `TurnLedger.EveryRunTells` | batchgen/query_book.py:356-479 | over every run from a fresh slot the tokens are what the observer heard, the prompt ends at the last boundary heard, and the ledger lists the answers heard, turn by turn |
| `TurnLedger.LedgerIsLog` | batchgen/query_book.py:356-479 | over every interleaving of the five ledger operations, accepted or refused, the generated tokens are the log of appended tokens, the ledger sums to `decoded_length`, and its last turn ends at `token_length` |
| `TurnLedger.GeneratedLength` | batchgen/query_book.py:721-737 | the number of generated tokens is the sum of the ledger |
| `TurnLedger.LastGeneratedIsEndOfLog` | batchgen/query_book.py:739-761 | walking the ledger backwards finds the last sampled token, or the last prompt token when nothing was sampled, or raises when there is neither |
| `TurnLedger.PayloadRoundTrip` | batchgen/query_book.py:763-815 | every ledger survives encoding and decoding |
| `TurnLedger.DecodedPayloadIsEncoding` | batchgen/query_book.py:784-815 | a payload that decodes is the encoding of its ledger |
| `TurnLedger.MigrationRoundTrip` | batchgen/query_book.py:591-631 | any ledger reachable by the operations, encoded, decoded and restored into a slot with room, is accepted and rebuilds the same tokens, turns, lengths and generated tokens |
| `TurnLedger.RestoreSpans` | batchgen/query_book.py:591-631 | an accepted restore leaves a valid ledger whose spans lie inside the trajectory |
| `TurnLedger.AppendReads` | batchgen/query_book.py:931-951 | for any valid ledger, the next append makes the ledger report the token right after its last span |
| `TurnLedger.RestoredLedgerLogsIff` | batchgen/query_book.py:953-1005 | a restored slot reports every next token correctly iff its ledger is empty or ends at the last token; the validation does not demand that |
| `TurnLedger.RestoreAcceptsShortLedger` | batchgen/query_book.py:953-1005 | a concrete accepted ledger that stops short, after which appending 30 is reported as 20 |
| `TurnLedger.ValidateTurns` | batchgen/query_book.py:953-1005 | the loop, which compares neighbours, accepts exactly the ledgers whose turns are numbered, with each prompt before its answer, all answers apart, in order and inside the trajectory, and sum to the decoded length |
| `TurnLedger.SynchronizeIsExactIff` | batchgen/query_book.py:481-554 | taking over the owner's lengths rebuilds the owner's slot iff the ledgers already agreed up to the last count |
| `TurnLedger.MirrorCatchesUp` | batchgen/query_book.py:481-554 | after any decode phase on the owner, one synchronisation makes an equal mirror equal again |
| `TurnLedger.EmptyMirrorCatchesUpIff` | batchgen/query_book.py:481-554 | a mirror without turns catches up iff the owner's prompt boundary is still zero, and otherwise refuses |
| `TurnLedger.EmptyMirrorRefuses` | batchgen/query_book.py:525-554 | a concrete owner that appended one token and moved its boundary to it, which a mirror without turns refuses |
| `TurnLedger.MirrorsStayEqual` | batchgen/query_book.py:410-554 | across any number of decode phases and re-entries both ranks hold the same slot |
| `TurnLedger.SynchronizeKeepsAlignmentIff` | batchgen/query_book.py:481-554 | a synchronisation leaves an aligned ledger iff both lengths moved by the same amount; the call does not check it |
| `TurnLedger.SynchronizedReads` | batchgen/query_book.py:481-554 | the ledger after such a call reads the old spans and then everything beyond the old end of the trajectory |
| `TurnLedger.SynchronizeAcceptsUnequalAdvance` | batchgen/query_book.py:481-554 | a concrete call, accepted, that adds two tokens and one decoded token and leaves the ledger misaligned |
| `TurnLedger.SynchronizeAlignsIff` | batchgen/query_book.py:481-554 | the same condition including slots without turns, which a call always leaves aligned |
| `TurnLedger.RestoreAlignsIff` | batchgen/query_book.py:591-631 | an accepted restore leaves an aligned ledger iff the given ledger is absent, empty or ends at the last token |
| `BookTables.PublishAgrees` | batchgen/query_book.py:285-314 | installing a slot's dictionary entries describes the abstract book with that entry added |
| `BookTables.DropAgrees` | batchgen/query_book.py:316-328 | dropping a slot's dictionary entries describes the abstract book without it |
| `BookTables.UpdateAgrees` | batchgen/query_book.py:356-408 | rewriting one slot's record, tail, ledger and bytes describes the abstract update of that slot and no other |
| `BookTables.TailIsSpare` | batchgen/query_book.py:633-652 | the position the next token goes to belongs to no slot's tokens |
| `BookTables.SpareBytes` | batchgen/query_book.py:1016-1031 | bytes no slot's tokens reach may change without changing what the book holds |
| `BookTables.ReadSpansIsGenerated` | batchgen/query_book.py:721-737 | reading a ledger's spans from the pages yields the generated tokens whenever the spans lie inside the trajectory |
| `BookTables.ReadLastIsLastGenerated` | batchgen/query_book.py:739-761 | the same for the last generated token |
| `QueryBooks.Open` | batchgen/query_book.py:68-121 | opening succeeds iff both sizes are positive, the capacity holds a page and a given buffer has the exact size; the book then is valid and empty |
| `QueryBooks.QueryBook.TakeExtent` | batchgen/query_book.py:1051-1065 | the loop takes what first fit takes, or changes nothing |
| `QueryBooks.QueryBook.ReturnExtent` | batchgen/query_book.py:1067-1085 | sorting and merging in place yields the canonical free list with the pages added |
| `QueryBooks.QueryBook.LargestFreeExtent` | batchgen/query_book.py:142-147 | a request fits iff it is at most the largest free extent |
| `QueryBooks.QueryBook.ReservationFreeCount` | batchgen/query_book.py:195-204 | the sum of quotients is the free count; a non-positive length raises |
| `QueryBooks.QueryBook.CanReserveBatch` | batchgen/query_book.py:161-182 | replays first fit on a copy: yes, no, or an error at the first non-positive length reached |
| `QueryBooks.QueryBook.Bind` | batchgen/query_book.py:285-314 | the dictionaries become those of the abstract bind, or nothing changes |
| `QueryBooks.QueryBook.Release` | batchgen/query_book.py:316-328 | the dictionaries become those of the abstract release, or nothing changes |
| `QueryBooks.QueryBook.BindBatch` | batchgen/query_book.py:218-283 | the dictionaries become those of the abstract batch, or nothing at all changes |
| `QueryBooks.QueryBook.WriteSpan` | batchgen/query_book.py:1016-1031 | the page-by-page copy writes exactly the span, everywhere else the buffer is as before |
| `QueryBooks.QueryBook.CopySpan` | batchgen/query_book.py:1033-1049 | the page-by-page copy reads exactly the span |
| `QueryBooks.QueryBook.UpdateTail` | batchgen/query_book.py:1007-1014 | the cached page and offset are those of the given length |
| `QueryBooks.QueryBook.WritePrompt` | batchgen/query_book.py:356-376 | accepted iff the slot is bound and the prompt fits; then the slot holds exactly the prompt, its length is the boundary and the ledger one unanswered turn; or nothing changes |
| `QueryBooks.QueryBook.AppendPrompt` | batchgen/query_book.py:378-408 | accepted iff the slot is bound and has room; then the slot holds its tokens followed by the prompt, with the boundary at the end; returns the turn it opened or extended |
| `QueryBooks.QueryBook.BeginReentryTurn` | batchgen/query_book.py:410-461 | records a re-entry as the abstract operation does; repeated before a token it adds no turn |
| `QueryBooks.QueryBook.SetPromptLength` | batchgen/query_book.py:463-479 | moves the prompt boundary as the abstract operation does, or changes nothing |
| `QueryBooks.QueryBook.SynchronizeMetadata` | batchgen/query_book.py:481-554 | takes over lengths over the shared bytes exactly as specified, or changes nothing |
| `QueryBooks.QueryBook.SyncLedger` | batchgen/query_book.py:481-554 | the ledger after taking over lengths, or a refusal |
| `QueryBooks.QueryBook.WritePrompts` | batchgen/query_book.py:556-589 | all prompts or none; refused iff lengths differ, a slot repeats, is unbound or too short; each row then holds its own prompt |
| `QueryBooks.PromptsReadBack` | batchgen/query_book.py:356-408 | a client that writes a prompt and appends another reads back the two prompts joined, with the boundary at the end |
| `QueryBooks.QueryBook.Restore` | batchgen/query_book.py:591-631 | accepts exactly what the abstract restore accepts, and then holds the restored trajectory |
| `QueryBooks.QueryBook.AppendToken` | batchgen/query_book.py:633-652 | writes one position through the cached tail and counts it, or changes nothing; returns the token's index |
| `QueryBooks.QueryBook.AppendTokens` | batchgen/query_book.py:654-702 | equals one append per distinct slot, or changes nothing; writes no position but the slots' own next ones; refused iff lengths differ, a slot repeats or a row has no room |
| `QueryBooks.QueryBook.Tokens` | batchgen/query_book.py:704-719 | returns exactly the slot's abstract tokens, or the prefix asked for |
| `QueryBooks.QueryBook.GeneratedTokens` | batchgen/query_book.py:721-737 | returns the bytes under the ledger's spans, in order; these are the generated tokens when the spans lie inside the trajectory; an unbound slot or a span that leaves the buffer raises |
| `QueryBooks.QueryBook.LastGeneratedToken` | batchgen/query_book.py:739-761 | the backward scan returns the byte before the end of the last non-empty span, or the last prompt token; that is the last sampled token when the spans lie inside the trajectory |
| `MirroredBooks.OwnerAppends` | batchgen/query_book.py:633-702 | a decode step of one rank on any of its slots leaves the other rank's book over the same pages valid, its abstract contents unchanged, although that rank has decoded other slots meanwhile |
| `MirroredBooks.BothDecode` | batchgen/query_book.py:633-702 | two ranks that run their own slots' steps in any interleaving stay valid, and together hold what one rank running all steps in that order would hold |
| `MirroredBooks.CatchUpAll` | batchgen/query_book.py:481-554 | synchronising the slots of the other rank takes over exactly their trajectories |
| `MirroredBooks.DecodePhase` | batchgen/query_book.py:410-702 | two equal books over one buffer, each decoding its own slots for an interval and then synchronised with the other and re-entered, are equal and valid again, and equal to the book of one rank that did everything |
| `MirroredBooks.Serve` | batchgen/query_book.py:410-702 | the same over any number of intervals |
| `HostGrowthPlanner.ShortestSufficientPrefix` | batchgen/continuous_batching.py:493-576 | the plan evicts the shortest sufficient prefix of the eviction order; infeasible means all eligible candidates were evicted |
| `HostGrowthPlanner.EvictionOrderIsByPriority` | batchgen/continuous_batching.py:505-529 | the order holds exactly the eligible candidates, once each, sorted by strategy; `PlanIsLawful` says what that means in candidate fields |
| `HostGrowthPlanner.SoonerIff` | batchgen/continuous_batching.py:505-529 | the sort key in candidate fields: priority, then decoded length up or down by strategy, then a present index before a larger or missing one, then the name by first difference |
| `HostGrowthPlanner.PlanIsLawful` | batchgen/continuous_batching.py:463-576 | in request and candidate fields: only uncompleted candidates with pages are evicted, each once; each precedes, by priority, length, index and name, every eligible one evicted later or not at all; each row is owed its last positive request; sums, free pages and the required margin are right; no shorter eviction is feasible and an infeasible plan leaves no candidate |
| `HostGrowthPlanner.NoDebtNoEviction` | batchgen/continuous_batching.py:493-576 | without growth debt nothing is evicted and the plan is feasible |
| `HostGrowthPlanner.FeasibleKeepsMargin` | batchgen/continuous_batching.py:559-576 | a feasible plan with debt leaves at least the safety margin after growth |
| `HostGrowthPlanner.PlanIgnoresCandidateOrder` | batchgen/continuous_batching.py:493-576 | distinct candidates in any order give the same plan |
| `HostGrowthPlanner.ReportedGrowthAddsUpIff` | batchgen/continuous_batching.py:559-576 | the listed growth adds up to the reported total for all candidates iff the request lists no growing row twice |
| `HostGrowthPlanner.PlanAddsUpIff` | batchgen/continuous_batching.py:559-576 | one plan's list adds up iff no row of it is listed twice |
| `HostGrowthPlanner.DoubledGrowthIsListedTwice` | batchgen/continuous_batching.py:559-576 | a concrete request that names a row twice: 3 pages owed, 6 listed |
| `HostGrowthPlanner.SearchEvictions` | batchgen/continuous_batching.py:531-557 | the nested loops stop exactly at the first prefix that passes the headroom test |
| `HostGrowthPlanner.PlanHostGrowthEvictions` | batchgen/continuous_batching.py:463-576 | the method returns the specified plan, and the plan keeps every promise of `PlanIsLawful`; mismatched lists raise |
| `LoadSelector.ChoiceFits` | batchgen/continuous_batching.py:653-694 | no capacity group is charged more pages or rows than it has |
| `LoadSelector.ChoiceIsMaximal` | batchgen/continuous_batching.py:653-694 | no eligible candidate left out would still fit at the end |
| `LoadSelector.ChoiceIsSound` | batchgen/continuous_batching.py:653-694 | only eligible candidates of the order are chosen |
| `LoadSelector.RanksNotOverdrawn` | batchgen/continuous_batching.py:610-694 | no physical rank is asked for more pages than it has free, whatever the group size |
| `LoadSelector.ChoiceByGroup` | batchgen/continuous_batching.py:653-694 | capacity groups do not interfere: what a group gets is the greedy choice from its own candidates |
| `LoadSelector.SelectionIsGreedy` | batchgen/continuous_batching.py:610-694 | in candidate fields: the chosen come in order of length by strategy, index and name; each found room on every rank of its group, and a row, next to the ones before it; each wanted one left out had its turn and found none |
| `LoadSelector.LoadedComesFirst` | batchgen/continuous_batching.py:636-694 | a loaded sequence is, by strategy, not shorter, not longer or not after in index than one of its group that asks for no more pages and is not loaded; at equal lengths the index decides |
| `LoadSelector.SelectionIgnoresInsertionOrderIff` | batchgen/continuous_batching.py:579-694 | every filling of the candidate dictionary selects the same sequences, whatever the free pages and row limits of these ranks, iff no two different wanted candidates tie for one capacity group |
| `LoadSelector.RivalsSelectApart` | batchgen/continuous_batching.py:636-694 | any two candidates that tie for a group: with suitable free pages each filling selects the one inserted first and not the other |
| `LoadSelector.TiedPairSelectsApart` | batchgen/continuous_batching.py:636-694 | one rank with one free page and two tied one-page sequences: the two fillings select different ones |
| `LoadSelector.LoadOrderIgnoresInsertionOrderIff` | batchgen/continuous_batching.py:636-651 | the sort order is the same for every filling iff the strategy ties no two different wanted candidates |
| `LoadSelector.SelectionIgnoresInsertionOrder` | batchgen/continuous_batching.py:636-651 | in particular with distinct indexes, or distinct names under FIFO, the order depends on the candidate set only |
| `LoadSelector.CapacityPages` | batchgen/continuous_batching.py:626-634 | each group's capacity is that of its tightest rank |
| `LoadSelector.SelectForLoading` | batchgen/continuous_batching.py:579-694 | returns a selection that keeps every promise of `SelectionIsGreedy`, with its names in order and the pages of each group; raises iff some candidate is wanted and the group size does not divide the ranks, or a wanted candidate lacks its group or row limit |
| `BoundaryValidator.NoComplaintIffConsistent` | batchgen/continuous_batching.py:140-326 | none of the fifteen complaints applies iff the gather is consistent in the sense the documentation states |
| `BoundaryValidator.PromisedIff` | batchgen/continuous_batching.py:118-140 | consistency in payload fields: all payloads there; the active uuids are the decode list and no candidate is on it; candidates are prefilled, on hold or without status; each uuid is held by its whole group and names it, or by its rank alone; one total and free counts within it, or no totals |
| `BoundaryValidator.Validate` | batchgen/continuous_batching.py:118-326 | the loops raise exactly the complaints that apply, and none iff the gather is what `PromisedIff` states |
| `BoundaryValidator.GroupsPartition` | batchgen/continuous_batching.py:105-115 | in an accepted gather with groups, a uuid is reported exactly by the ranks of the group its state names, and that group lies in the world |
| `BoundaryValidator.GroupsAgree` | batchgen/continuous_batching.py:140-230 | ranks of one group report identical sets |
| `BoundaryValidator.OneHostKvOwner` | batchgen/decode_dp_group.py:47-78 | exactly one reporter of each uuid is its host-KV owner, the lowest rank of its group |
| `BoundaryValidator.OneRankEach` | batchgen/continuous_batching.py:140-230 | without groups each uuid is reported once, by its assigned rank |
| `DeepGemmConfigs.ClassIsEnough` | batchgen_kernels/deepgemm_sm90_configs.py:130-178 | the candidate layouts depend on the row count only through its block class |
| `DeepGemmConfigs.CandidateLoop` | batchgen_kernels/deepgemm_sm90_configs.py:142-178 | the nested loops build the specified candidate list, or raise on an odd SM count or no layout |
| `DeepGemmConfigs.CandidatesAre` | batchgen_kernels/deepgemm_sm90_configs.py:130-178 | the list holds exactly the layouts whose block sizes, clusters, shared memory and SM count are allowed, stated in those numbers, each once, by cluster, then block height, then block width |
| `DeepGemmConfigs.StagesFitIff` | batchgen_kernels/deepgemm_sm90_configs.py:119-127 | a number of pipeline stages up to 16 is at most the computed one iff its shared memory fits the capacity |
| `DeepGemmConfigs.ConfigDescribes` | batchgen_kernels/deepgemm_sm90_configs.py:231-238 | a config has 128 threads iff its blocks have at most 64 rows and 256 otherwise, the widest swizzle that divides a row of the output block, and the most stages whose shared memory fits |
| `DeepGemmConfigs.CyclesAre` | batchgen_kernels/deepgemm_sm90_configs.py:206-228 | the cost from blocks, waves, L1 and L2 cycles, each given as the quotient it is: tiles per dimension, waves per SM, bytes per bandwidth |
| `DeepGemmConfigs.BestIs` | batchgen_kernels/deepgemm_sm90_configs.py:249-267 | a config is selected iff the shape and SM count are valid and a candidate exists; no candidate costs less, and equally cheap ones come later in the list |
| `DeepGemmConfigs.KeyIdentifies` | batchgen_kernels/deepgemm_sm90_configs.py:107-116 | two candidates of a site have one kernel key iff they are the same layout |
| `DeepGemmConfigs.VectorIsScalar` | batchgen_kernels/deepgemm_sm90_configs.py:181-228 | the vectorised cost equals the scalar cost element by element |
| `DeepGemmConfigs.ArgminIsScan` | batchgen_kernels/deepgemm_sm90_configs.py:241-246 | the first minimum of a cost row is the winner of the scalar best-so-far scan |
| `DeepGemmConfigs.BestConfig` | batchgen_kernels/deepgemm_sm90_configs.py:249-267 | returns the first cheapest candidate with its threads, swizzle and stages as `ConfigDescribes` states; raises iff a dimension is not positive, the SM count is zero or odd, or there is no candidate |
| `DeepGemmConfigs.SelectVector` | batchgen_kernels/deepgemm_sm90_configs.py:241-246 | the table selects for every row count what the scalar scan selects |
| `DeepGemmConfigs.NormalSeesSixteens` | batchgen_kernels/deepgemm_sm90_configs.py:249-290 | row counts with the same number of 16-row blocks select the same config |
| `DeepGemmConfigs.MaskedSeesSixtyFours` | batchgen_kernels/deepgemm_sm90_configs.py:303-319 | masked row counts with the same number of 64-row blocks select the same config |
| `DeepGemmConfigs.NormalConfigs` | batchgen_kernels/deepgemm_sm90_configs.py:270-290 | the table holds for every block count up to the maximum the first cheapest candidate at that many rows, or raises when one of them does |
| `DeepGemmConfigs.FirstIsBlockStart` | batchgen_kernels/deepgemm_sm90_configs.py:293-300 | the smallest row count of a kernel is the start of the first block that selects it |
| `DeepGemmConfigs.EveryKernelHasAFirst` | batchgen_kernels/deepgemm_sm90_configs.py:293-300 | every row count shares its kernel with a smallest row count not above it |
| `DeepGemmConfigs.NormalRepresentatives` | batchgen_kernels/deepgemm_sm90_configs.py:293-300 | the list holds exactly the smallest row count of each kernel selected in `[1, m_max]`, ascending |
| `DeepGemmConfigs.PrewarmCovers` | batchgen_kernels/deepgemm_sm90_configs.py:293-300 | every row count in range selects a kernel that some representative selects |
| `DeepGemmConfigs.PrewarmIsMinimal` | batchgen_kernels/deepgemm_sm90_configs.py:293-300 | no two representatives select the same kernel |
| `DeepGemmConfigs.MaskedRepresentatives` | batchgen_kernels/deepgemm_sm90_configs.py:303-319 | the list holds exactly the smallest expected row count of each masked kernel, ascending; raises iff a row count is not positive or no layout can be selected |
| `PersistentMatmul.SwizzleThenInverse` | batchgen/batch_invariant_matmul.py:51-58 | the swizzle of every tile id lies in the grid and is undone by an explicit inverse, short last group included |
| `PersistentMatmul.InverseThenSwizzle` | batchgen/batch_invariant_matmul.py:51-58 | every tile of the grid is the swizzle of one id in range, so the swizzle is a bijection |
| `PersistentMatmul.TileVisitedOnce` | batchgen/batch_invariant_matmul.py:79-92 | every tile is visited by exactly one launched program in exactly one of its rounds |
| `PersistentMatmul.OneTileCovers` | batchgen/batch_invariant_matmul.py:95-128 | an output element lies in exactly one tile |
| `PersistentMatmul.SwizzleByGroups` | batchgen/batch_invariant_matmul.py:51-58 | tile ids run through one group of rows after another, and inside a group down its rows before the next column |
| `PersistentMatmul.ElementStoredOnce` | batchgen/batch_invariant_matmul.py:90-132 | an output element is stored by exactly one program in exactly one round |
| `PersistentMatmul.AccumulateFolds` | batchgen/batch_invariant_matmul.py:95-117 | one more K block extends every lane's fold over its own row and column, edge rows clamped to row 0 |
| `PersistentMatmul.BlocksAreRow` | batchgen/batch_invariant_matmul.py:105-117 | the K blocks of a row, joined, are the row followed by less than a block of masked zeros |
| `PersistentMatmul.ElementIsInner` | batchgen/batch_invariant_matmul.py:95-132 | with an exact dot product the fold is the inner product of row and column, finished with the bias of that column |
| `PersistentMatmul.StoreLane` | batchgen/batch_invariant_matmul.py:119-132 | a masked store writes the final value of the one element of its lane and tile, and nothing else |
| `PersistentMatmul.Advance` | batchgen/batch_invariant_matmul.py:90-132 | one turn of a program, a K block, the move to the store tile or one store, keeps its registers right for its tile and stores at most that lane's element |
| `PersistentMatmul.StoredStep` | batchgen/batch_invariant_matmul.py:90-132 | a turn adds exactly the stored lane to what counts as stored |
| `PersistentMatmul.Launch` | batchgen/batch_invariant_matmul.py:79-132 | under any interleaving of single K blocks and stores, the lanes of each tile stored in any order, each element is untouched or final at every moment, and final once every program has had its turns; `LaunchIsProduct` says what final is |
| `PersistentMatmul.LaunchIsProduct` | batchgen/batch_invariant_matmul.py:79-132 | with an exact dot product a complete launch stores in every element the finished inner product of its row and column |
| `PersistentMatmul.SameRowSameResult` | batchgen/batch_invariant_matmul.py:172-175 | launches with different batch sizes, group sizes, SM counts, schedules and store orders agree wherever their rows agree |
| `PageRunway.StartsSafe` | batchgen/sequence.py:596-610 | the initial host reservation has room for the token prefill produces, and the run starts safe, iff something is to be decoded or the prompt does not fill its last page |
| `PageRunway.InitialPagesIff` | batchgen/sequence.py:596-610 | the first host reservation is the fewest pages that hold a chunk past the prompt and the first GPU load, or the whole budget |
| `PageRunway.LoadPagesIff` | batchgen/sequence.py:472-501 | a GPU load takes the fewest pages that reach past its buffer or the budget, never more than the host holds |
| `PageRunway.ExtensionPagesIff` | batchgen/sequence.py:503-517 | an extension adds the fewest pages that reach past its buffer or the budget |
| `PageRunway.GrowthPagesIff` | batchgen/sequence.py:584-594 | growth adds the fewest pages that hold a chunk or reach the budget |
| `PageRunway.GrowsIff` | batchgen/sequence.py:568-594 | the host grows at a boundary iff it holds pages, short of the budget, with at most an extension buffer left |
| `PageRunway.GrowthReaches` | batchgen/sequence.py:568-594 | after a boundary's growth the host covers the next interval or the whole budget, and never more pages than required |
| `PageRunway.StepKeeps` | batchgen/sequence.py:472-517 | each boundary, decode stretch and hold keeps the context within host and GPU pages until the next boundary; a held sequence keeps no GPU pages |
| `PageRunway.RunKeeps` | batchgen/sequence.py:472-610 | the same over every run |
| `PageRunway.HostRunsOut` | batchgen/sequence.py:584-594 | a chunk shorter than the interval lets some run pass the host capacity |
| `PageRunway.GpuRunsOut` | batchgen/sequence.py:503-517 | an extension buffer shorter than the interval lets some run pass the GPU pages |
| `PageRunway.FirstLoadRunsOut` | batchgen/sequence.py:472-501 | an initial buffer shorter than the interval lets the first stretch pass the GPU pages |
| `PageRunway.SafeIff` | batchgen/sequence.py:440-610 | no run of any sequence that had room after prefill passes its reservations iff both buffers and every growth chunk cover a decision interval |
| `SequenceBatches.SequenceEntry.StatusTransition` | batchgen/sequence.py:429-436 | moves along an allowed edge only, stated by where each status may be entered from; a refused move changes nothing |
| `SequenceBatches.PrefillsPayEvictions` | batchgen/sequence.py:129-137 | over every life of allowed moves a sequence that has started was prefilled once more often than evicted, unless it is evicted now, and every prefill but a running one was finished |
| `SequenceBatches.CompletionIsFinal` | batchgen/sequence.py:129-137 | over every life nothing follows completion, and decoding follows only a finished prefill or a hold |
| `SequenceBatches.EpochSource.Draw` | batchgen/sequence.py:659-663 | a stamp never issued before, recorded without disturbing earlier ones |
| `SequenceBatches.EqualEpochsSameMembers` | batchgen/sequence.py:683-697 | two observations of stamped batches, at any two moments, with equal stamps are of one batch with the same members |
| `SequenceBatches.EpochsIdentifyMembers` | batchgen/sequence.py:659-745 | observe several batches, create any batches and run any additions and removals, observe again: equal stamps still mean one batch with the same members |
| `SequenceBatches.OtherBatchesStayValid` | batchgen/sequence.py:659-663 | a batch stays valid while other batches draw stamps |
| `SequenceBatches.EnrolHides` | batchgen/sequence.py:699-745 | what an addition or removal does to the set of members the gid index has lost, from any state of it |
| `SequenceBatches.HiddenIffOvertaken` | batchgen/sequence.py:699-745 | over every history of additions and removals a live member is lost to the gid index iff another entry was added with its gid since it was added, still live or not |
| `SequenceBatches.SequenceBatch.constructor` | batchgen/sequence.py:672-692 | an empty batch whose indexes agree with a scan, under a new stamp |
| `SequenceBatches.SequenceBatch.AddSequence` | batchgen/sequence.py:699-727 | members gain or replace the entry, all indexes stay what a scan computes, the stamp is new; the gid index is exact afterwards iff nobody but this uuid was lost and no other live member holds the gid |
| `SequenceBatches.SequenceBatch.RemoveSequence` | batchgen/sequence.py:729-745 | the member leaves the dictionary and every index, the stamp is new even when nothing was found, the gid index is exact afterwards iff nobody but this uuid was lost |
| `SequenceBatches.SequenceBatch.UpdateStatus` | batchgen/sequence.py:754-764 | a missing uuid or forbidden edge changes nothing; otherwise only that member's status and the status index move, in step |
| `SequenceBatches.SequenceBatch.AssignRank` | batchgen/sequence.py:766-780 | a missing uuid changes nothing; otherwise only that member's rank and the rank index move, in step |
| `SequenceBatches.SequenceBatch.AllCompleted` | batchgen/sequence.py:869-870 | comparing two sizes decides exactly whether every member is completed |
| `SequenceBatches.SequenceBatch.GetByGlobalIdx` | batchgen/sequence.py:750-752 | an index hit is a live member with that gid; with an exact index a miss means there is none |
| `SequenceBatches.CollisionHidesOlder` | batchgen/sequence.py:719-745 | after a live gid collision, removing the newer entry leaves a live member the gid index cannot find |
| `LeastLoad.WithoutOneIsLeast` | batchgen/decode_dp_group.py:130-142 | in placement order: a group without any one of its new jobs carries no more than any other group |
| `LeastLoad.GrahamBound` | batchgen/decode_dp_group.py:130-142 | `m*(load - w) + w` is at most the total weight, for any prior loads |
| `LeastLoad.BigJobsFit` | batchgen/decode_dp_group.py:130-142 | while jobs exceed a third of what some placement allows, longest first stays within it |
| `LeastLoad.FourThirdsOptimal` | batchgen/decode_dp_group.py:130-142 | in placement order and from empty groups: `3m*load <= (4m-1)*bound` for the bound of any placement |
| `LeastLoad.GreedyIsUnique` | batchgen/decode_dp_group.py:135-141 | a least-load placement of given jobs is unique |
| `DecodeGroups.AssignDecodeDpGroups` | batchgen/decode_dp_group.py:100-142 | for any rounding of float sums and products, returns in input order the longest-first placement on the first least-loaded group; where rounding changes nothing, the assignment of `BalancedIff`; raises iff the group count is not positive or the prior loads have another length |
| `DecodeGroups.AssignedIffBalanced` | batchgen/decode_dp_group.py:100-142 | while prior loads are whole and no group could pass 2^53, the rounded loop returns exactly the balanced assignment, to which the bounds below apply |
| `DecodeGroups.BalancedIff` | batchgen/decode_dp_group.py:100-142 | without its order of placement: a groups list is the balanced assignment iff each sequence is on the first group that prior loads, longer sequences and earlier equals load least, a sequence weighing its squared length or one |
| `DecodeGroups.FairAssignment` | batchgen/decode_dp_group.py:100-142 | for any groups a, b and any sequence placed in a: load(a) minus its weight is at most load(b), for any prior loads |
| `DecodeGroups.AtMostTwice` | batchgen/decode_dp_group.py:100-142 | a group given a sequence carries at most `2 - 1/m` times what any other assignment must allow (Graham) |
| `DecodeGroups.AtMostFourThirds` | batchgen/decode_dp_group.py:100-142 | from empty groups, at most `4/3 - 1/(3m)` times what any other assignment must allow |
| `PlanDigest.DigestIgnoresOrder` | batchgen/decode_dp_group.py:145-168 | the digest depends on the map of sequences to groups, not on the order it was enumerated in |
| `PlanDigest.DigestSeesGroup` | batchgen/decode_dp_group.py:145-168 | two maps that differ in one sequence's group have different digests iff the two group codes differ modulo 2^61 - 1 |
| `PlanDigest.UnstampedShows` | batchgen/decode_dp_group.py:145-168 | a sequence not yet stamped on one rank shows in the digest iff its group on the other is not -1 modulo 2^61 - 1 |
| `PlanDigest.FoldIsNumeral` | batchgen/decode_dp_group.py:162-168 | reducing after every digit is reducing the whole number once |
| `PlanDigest.PlanDigest` | batchgen/decode_dp_group.py:145-168 | the loop returns the list sorted by index, read as one number in base 1000003, modulo 2^61 - 1 |
| `SmoothWrr.SmoothOrder` | benchmarks/decode_workload.py:72-85 | for any rounding the loops produce the specified rows, the total added up in dictionary order; drawing from no strata raises |
| `SmoothWrr.WholeWeightsAreExact` | benchmarks/decode_workload.py:72-85 | with whole weights whose total times the number of strata is at most 2^53 the float rows are those of the exact schedule, to which the bounds below apply |
| `SmoothWrr.CreditIsDeviation` | benchmarks/decode_workload.py:72-85 | a stratum's running credit is its weighted share minus its rows, times the total weight |
| `SmoothWrr.EveryRunOwes` | benchmarks/decode_workload.py:72-85 | after any number of rows, any `j` of `k` strata together are owed at most `j*(H_k - H_j)` rows |
| `SmoothWrr.StaysNearShare` | benchmarks/decode_workload.py:72-85 | every stratum is less than one row ahead of its share and at most `H_k - 1` rows behind |
| `SmoothWrr.WithinOneRowIff` | benchmarks/decode_workload.py:72-85 | every prefix is within one row of its shares, for all weights over `k` strata, iff `k <= 3` |
| `SmoothWrr.LopsidedRun` | benchmarks/decode_workload.py:72-85 | weights 1, 5, 37, 37 leave the fourth stratum 82/80 of a row behind after 26 rows, also beside weightless strata |
| `SmoothWrr.FloatsStray` | benchmarks/decode_workload.py:72-85 | the source's floats draw exactly that run |
| `SmoothWrr.ShorterIsPrefix` | benchmarks/decode_workload.py:72-85 | a shorter build is a prefix of a longer one, however floats round |
| `AdmissionReplay.ReservedPages` | benchmarks/decode_workload.py:342-343 | the least number of pages that holds the prompt plus the first buffer or the completion, whichever is shorter |
| `AdmissionReplay.ReplayTotals` | benchmarks/decode_workload.py:335-343 | whatever is added up per row, and however float loads round, the replay's ranks and the balancer's groups hold the same totals |
| `AdmissionReplay.AdmissionCheck` | benchmarks/decode_workload.py:332-355 | rows and pages per rank are those of the balancer's groups; the capacity is the pool share cut toward zero; `fits` iff every rank is within both limits; raises iff there is no rank or no capacity |
| `AdmissionReplay.ReplayMatchesBalancer` | benchmarks/decode_workload.py:335-343 | the balancer run on the same lengths yields groups the replay agrees with, however floats round |
| `LaneAdmission.RangesOverlapIff` | scripts/lane_runtime.py:318-319 | two ranges overlap iff they share a number |
| `LaneAdmission.PathsOverlapIff` | scripts/lane_runtime.py:322-329 | two paths overlap iff some location lies under both |
| `LaneAdmission.CompatibleIff` | scripts/lane_runtime.py:342-382 | two lanes are compatible iff no GPU, no port (listeners and PyNccl range), no root below another and no writable location belongs to both |
| `LaneAdmission.ActiveManifests` | scripts/lane_runtime.py:245-265 | returns the active manifests iff each has an exact live owner and no stopped one has a live owner |
| `LaneAdmission.CheckLaneRoot` | scripts/lane_runtime.py:332-339 | passes iff the root overlaps no active lane's root |
| `LaneAdmission.CheckNoOverlap` | scripts/lane_runtime.py:342-382 | passes iff the candidate's paths are apart and it shares no id, GPU, port, PyNccl range or nested path with an active lane |
| `LaneAdmission.CheckMemory` | scripts/lane_runtime.py:385-408 | passes iff reservations and current use with the candidate, plus the largest safety reserve, stay within the host |
| `LaneAdmission.Admit` | scripts/lane_runtime.py:730-739 | the checks in order admit exactly the admissible candidates |
| `LaneAdmission.InstanceIdIff` | scripts/lane_runtime.py:542-544 | a name is accepted iff it is a lower-case letter or digit followed by up to 47 of those, underscores or hyphens |
| `LaneAdmission.WellFormedIff` | scripts/lane_runtime.py:464-594 | the accepted arguments in fields and numbers: GPU counts and names, ports within 1..65535 and apart, the memory floors, the seven directories under the root |
| `LaneAdmission.AdmissibleIff` | scripts/lane_runtime.py:716-739 | a start with valid arguments is admitted iff, in manifest fields: every lane not stopped has an exact live owner, another id and nothing in common; no stopped lane has a live owner; its own paths are apart; committed and used memory leave every safety reserve; no process is on its GPUs |
| `LaneAdmission.StartWrites` | scripts/lane_runtime.py:741-813 | an admitted start writes one manifest under its id, first unowned, then with a fresh live owner, and touches no other |
| `LaneAdmission.StopMarks` | scripts/lane_runtime.py:977-1042 | what a stop does by what it sees; only a lane whose process group is gone, with no files left and no other group on its GPUs, is marked stopped |
| `LaneAdmission.RecordedMeans` | scripts/lane_runtime.py:464-594 | every manifest of a reachable host has 1, 2, 4 or 8 GPUs, valid ports apart from its own range, writable paths apart and under its root, and the memory floors |
| `LaneAdmission.LanesAreBounded` | scripts/lane_runtime.py:547-594 | every lane not stopped commits more than 150 GiB, so the host bounds their number |
| `LaneAdmission.JoinIff` | scripts/lane_runtime.py:342-408 | making a lane active keeps the host safe iff it is compatible with every active lane and memory holds them all |
| `LaneAdmission.SafeIff` | scripts/lane_runtime.py:342-408 | a host is safe iff, in manifest fields, lanes not marked stopped share nothing and their memory with any of their safety reserves fits the host |
| `LaneAdmission.StepKeepsIff` | scripts/lane_runtime.py:716-1042 | every start, launcher crash, owner death and stop keeps the host safe, except exactly a stop that revives a stopped lane whose resources are taken |
| `LaneAdmission.RunKeeps` | scripts/lane_runtime.py:716-1042 | over every run without such a stop, manifests not marked stopped are pairwise disjoint and fit the host's memory |
| `LaneAdmission.StoppingOnceIsGuarded` | scripts/lane_runtime.py:977-1042 | runs that never stop an already stopped lane contain no such stop |
| `LaneAdmission.StoppingTwiceRevives` | scripts/lane_runtime.py:1027-1038 | for any two lanes on a shared GPU that an empty host would each admit: start the first, stop it, start the second and let it open the GPU, stop the first again, and both are active |
| `LaneAdmission.ExamplesClash` | scripts/lane_runtime.py:1027-1038 | such lanes exist on every empty host with 215 GiB: two that start accepts, with the seven canonical paths and the least memory it demands, apart in ports and root and on the same GPU |
| `LaneAdmission.AbandonedBlocks` | scripts/lane_runtime.py:798-813 | a manifest whose launcher died before recording an owner survives every run, and no lane is admitted while it does |
| `Sorting.SortIgnoresInputOrder` | batchgen/continuous_batching.py:651-651 | with distinct keys a sort depends on the elements, not on their order |
| `Sorting.SortIgnoresInputOrderIff` | batchgen/continuous_batching.py:651-651 | a stable sort depends on the elements only iff no two different ones tie |
| `Sorting.TiesKeepInputOrder` | batchgen/continuous_batching.py:651-651 | two tied elements in front come out side by side in input order |

## Left out

- GeneratedTokens: takes ledgers whose spans do not run backwards, which every run keeps (`EveryRunIsForward`).
- LastGeneratedToken: the same condition on the ledger.
- AssignDecodeDpGroups: lengths are non-negative, as prompt lengths are.
- StepKeepsIff: a lane root counts as recorded from the first manifest write; the code adds it with the second, before any other start can pass.
- Exceptions are not told apart by type or text.
- Tensor dtypes, devices, pinned memory and the `copy_to` variants of `QueryBook`.
- `select_sequences_for_eviction`, `check_extension_feasibility`, `validate_decode_uuid_sync` and the adaptive chunk sizer: easy members or floating-point averages.
- `SequenceBatch.create_view`, a second batch over the same entries, and the sorted listings by status and rank, which read the indexes proved exact here.
- The part of `SequenceEntry` that validates metadata and tracks repetition and lifespan.
- Bias and cast of the matmul are one arbitrary function of the sum and the column; dtype dispatch and int64 overflow of the kernel cost are not modelled.
- The probe for free ports before a start: it only refuses more starts.
- File locks, pidfds, process signalling, `/proc` parsing and GPU queries of the lane runtime appear only as what a step may observe.
- The C++ core, the server loop, sampling, clients, dataset sources and build scripts.
