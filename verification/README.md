# A verified model of the lossless context engine

The engine keeps every message of a conversation, folds old stretches into a DAG of
summaries, and assembles a bounded transcript for a model provider. This project states
what those parts promise and proves it with Dafny 4.11. `dafny verify dfyconfig.toml`
checks everything.

What is modelled, one group of modules per part of the program:

- **Compaction** (`SummaryDag`, `ChunkSelection`, `CompactionSteps`, `Lossless`,
  `CompactionRuns`, `CompactionTail`, `CompactionProgress`, `CompactionMeasure`,
  `ContextTable`, `CompactionEngine`, `CompactionFolds`, `CompactionSweep`,
  `CompactionRounds`, `CompactionDrivers`, `CompactionPromises`). A `Store` value holds the
  ordered context, the tables and the lineage edges. A step appends a message, folds the
  oldest raw messages into a leaf, or condenses summaries of one depth; the summarizer may
  answer anything. `Engine` is the class that changes its tables in place; each of its
  methods is proved against the step functions, so the theorems about all runs hold for it.
  The drivers (sweep and bounded rounds) are proved equal to `CompactionRounds.Sweep` and
  `UntilUnder`, and the promises about them are lemmas about those functions.
- **Integrity checks** (`Integrity`, `IntegrityScans`), used as predicates that passes keep
  and as scans that report exactly the defects.
- **Transcript repair** (`TranscriptRepair`, `TranscriptPairing`, `TranscriptGuarantees`,
  `TranscriptSanitizer`, `TranscriptShortcut`, `TranscriptFlag`, `TranscriptPromises`).
  `Rebuild` is the list the repair builds, `Paired` says independently what a paired
  transcript is.
- **Assembly** (`BudgetWalk`, `AssemblySelection`, `Assembly`, `AssemblyPromises`): fresh
  tail, budget walk in three modes, stripping of orphan calls, cleaning, pairing.
- **Soft prune** (`Prune`, `PruneDatabase`): the six-statement cascade, its closed form,
  order independence and safety.
- **Transactions** (`Transactions`, `Exclusion`, `ExclusionProgress`): the savepoint machine
  against a tree of scopes, and the lock protocol over every interleaving of threads.
- **Summarizer chain** (`SummaryCascade`, `CascadePromises`) and **token arithmetic**
  (`TokenEstimate`).

Where a theorem is stated through the model's own functions, a `Promises` module or a
`Meaning` lemma says the same of blocks, ids, positions, counts and replies alone.

Results where the code does less than its documentation says; each has a concrete input
and the exact condition:

- The repair's `changed` flag misses a second result for one id inside one span
  (`TranscriptShortcut.RepeatUnflagged`) and results in the wrong order inside a block
  (`OrderUnflagged`). What is handed back is the rebuilt list up to block order exactly when
  flagged or free of repeats (`HandedBackIff`), and paired exactly when flagged or in call
  order already (`HandedBackPairedIff`).
- The repair promises the original list when no change is needed. The flag is raised exactly
  when something is out of place (`TranscriptFlag.QuietIff`), which a user message after the
  results of a turn is, although nothing changes (`NeedlessIff`, `FlaggedUnchanged`).
- A failed `BEGIN` leaves the thread's depth at one with the lock released; later calls of
  that thread then skip the lock (`Exclusion.OwnershipExact`, `FailedBeginBreaksExclusion`).
- The prune cuts a message out of the context even when another unsuppressed leaf holds it
  (`Prune.CutHidesIff`, `SharedMessageVanishes`), and leaves gaps in the ordinals unless
  everything cut stands at the end (`PruneContiguousIff`, `PruneLeavesGap`).
- The summarizer documents that an auth error is raised only when every candidate fails to
  authenticate; one such failure suffices when the chain then runs dry
  (`SummaryCascade.RaisesIff`, `OneAuthRaises`). A retry of the last candidate that is
  rejected or fails on authentication throws a usable partial summary away
  (`PartialKeptIff`, `PartialDiscarded`).
- The sweep's running count misses the store's total by the drift of what it folded. It is
  exact exactly when every folded message has a positive stored count or is empty with a
  count of zero (`CompactionRounds.SweepCountExact`, `CompactionProgress.LeafCountExact`);
  a message with no stored count drifts (`UncountedMessageDrifts`).

Threads on one connection never wait for each other forever; calls that cross on two
connections can (`ExclusionProgress.NoDeadlock`, `CrossedCallsWait`).

The comments of `transaction_mutex.py` mention a clean-up of unused locks that the code does
not have; the model follows the code. The comments of the orphan filter in `assembler.py`
report that its issue text inverts one branch; the model follows the code there too.

## Model

| member | source | states |
|---|---|---|
| CompactionRuns.Losslessness | src/lossless_hermes/compaction.py:3539-3713 | after any interleaving of arrivals and passes, with any summarizer and settings, drilling the context down gives every message ever said, in order |
| CompactionRuns.LeafKeepsInv | src/lossless_hermes/compaction.py:3539-3713 | a leaf pass keeps lineage, bookkeeping, losslessness, completeness, exact counters and shape |
| CompactionRuns.CondensedKeepsInv | src/lossless_hermes/compaction.py:2504-2786 | a condensed pass keeps the same invariant |
| CompactionRuns.AppendKeepsInv | src/lossless_hermes/store/summary.py:1390-1413 | appending a message keeps the same invariant |
| CompactionRuns.DrilledOnce | src/lossless_hermes/compaction.py:3675-3713 | drilling a reachable context down meets no message twice |
| CompactionRuns.ReachableShape | src/lossless_hermes/compaction.py:2227-2280 | in every reachable state summaries of non-increasing depth precede raw messages |
| CompactionRuns.ReachableCounters | src/lossless_hermes/compaction.py:2701-2746 | in every reachable state the stored counters of every summary equal their definitions over its whole subtree, and it is met exactly once |
| CompactionRuns.ShapeStep | src/lossless_hermes/compaction.py:2282-2349 | folding a chunk keeps the context ordered by falling depth |
| Lossless.ReplaceRun | src/lossless_hermes/compaction.py:3675-3713 | replacing a run of items by a summary that stands for it leaves the expansion unchanged and adds the summary once |
| Lossless.TotalsExact | src/lossless_hermes/compaction.py:2701-2746 | adding up the children's stored counters counts the whole forest below them |
| Lossless.LeafAddsRow | src/lossless_hermes/compaction.py:3685-3699 | the new leaf stands for exactly its chunk and its counters are exact |
| Lossless.CondensedAddsRow | src/lossless_hermes/compaction.py:2701-2771 | the new condensed summary stands for exactly its chunk and its counters are exact |
| SummaryDag.TreeFrame | src/lossless_hermes/compaction.py:2748-2771 | rows added later do not change what an old summary expands to |
| ChunkSelection.SelectMeaning | src/lossless_hermes/compaction.py:1798-1838 | the walk takes the oldest eligible run, always one item, within the cap otherwise, and not one item fewer |
| ChunkSelection.OldestChunkUnique | src/lossless_hermes/compaction.py:1798-1838 | those conditions determine the chunk |
| ChunkSelection.ProtectedMeaning | src/lossless_hermes/compaction.py:1564-1651 | the tail holds at most the configured count, respects the cap unless it is the newest message alone, and is maximal |
| ChunkSelection.ProtectedStable | src/lossless_hermes/compaction.py:1605-1651 | dropping old unprotected messages does not move the tail |
| CompactionTail.LeafKeepsTail | src/lossless_hermes/compaction.py:1605-1651 | from any store, a leaf pass protects the same messages before and after |
| CompactionTail.CondensedKeepsTail | src/lossless_hermes/compaction.py:1605-1651 | from any store, a condensed pass protects the same messages before and after |
| CompactionPromises.TailMeaning | src/lossless_hermes/compaction.py:1564-1651 | the tail holds at most the configured count and fits the cap unless it is the newest message alone; a negative cap is none |
| CompactionTail.DriftFree | src/lossless_hermes/compaction.py:3729-3749 | a message's resolved count equals its stored one exactly when that is positive or equals the estimate |
| CompactionProgress.LeafDelta | src/lossless_hermes/compaction.py:3656-3664 | a leaf pass moves the store's total by its reported delta plus the drift of what it folded, and leaves fewer raw messages |
| CompactionProgress.LeafCountExact | src/lossless_hermes/compaction.py:3656-3664 | the total after a leaf pass is the reported one exactly when every folded message has a positive stored count or is an empty one stored as zero |
| CompactionProgress.UncountedMessageDrifts | src/lossless_hermes/compaction.py:3656-3664 | a concrete store where a pass reports no change and the total rises by one |
| CompactionProgress.CondensedDelta | src/lossless_hermes/compaction.py:2774-2786 | a condensed pass moves the store's total by exactly its reported delta |
| CompactionProgress.DriftOverZeroIff | src/lossless_hermes/compaction.py:2916-3057 | the drift of a run of passes is zero exactly when every message they fold is counted exactly |
| CompactionMeasure.LeafLeavesFewer | src/lossless_hermes/compaction.py:3539-3713 | from any store a leaf pass leaves fewer raw messages, which bounds the first phase |
| CompactionMeasure.MassDelta | src/lossless_hermes/compaction.py:2993-3057 | the tokens of the summaries in the context change by the reported delta, which bounds the second phase |
| CompactionSteps.CandidateMeaning | src/lossless_hermes/compaction.py:2282-2349 | the candidate depth is the shallowest of all eligible ones |
| CompactionFolds.LeafFolds | src/lossless_hermes/compaction.py:3539-3713 | a leaf pass makes a summary exactly when a message lies outside the tail and the reply is no blank text; it folds the oldest messages, as many as the cap admits, under the reply text |
| CompactionFolds.CondensedFolds | src/lossless_hermes/compaction.py:2087-2349 | a condensed pass makes a summary exactly when at some depth the oldest chunk has enough summaries and tokens; it folds the shallowest such chunk in place, under the reply text |
| CompactionFolds.EligibleIff | src/lossless_hermes/compaction.py:2087-2148 | enough means two when hard, else eight leaves or four deeper ones, unless configured, with at least the target tokens and a tenth of the chunk size |
| ContextTable.ReplaceRange | src/lossless_hermes/store/summary.py:1486-1542 | on any table the range becomes one summary row, the other rows keep their order, ordinals become gapless, and every single update respects uniqueness |
| ContextTable.Resequence | src/lossless_hermes/store/summary.py:1523-1542 | two passes through negative ordinals renumber the rows without changing their order |
| CompactionEngine.Engine.ResolveFreshTailOrdinal | src/lossless_hermes/compaction.py:1564-1651 | the backward walk finds the ordinal that separates exactly the protected tail |
| CompactionEngine.Engine.SelectOldestLeafChunk | src/lossless_hermes/compaction.py:1739-1838 | the loop returns the chunk of the step function |
| CompactionEngine.Engine.SelectOldestChunkAtDepth | src/lossless_hermes/compaction.py:2150-2280 | the loop returns the chunk at a depth and its tokens |
| CompactionEngine.Engine.DistinctDepths | src/lossless_hermes/store/summary.py:1267-1315 | in ascending order exactly the depths of the summaries below the tail |
| CompactionEngine.Engine.SelectShallowestCandidate | src/lossless_hermes/compaction.py:2282-2349 | the loop over depths finds the shallowest eligible one and its chunk |
| CompactionEngine.Engine.RunLeafPass | src/lossless_hermes/compaction.py:3539-3727 | the pass on the tables is the leaf step, for success, skip and auth failure; without a summary nothing changes |
| CompactionEngine.Engine.RunCondensedPass | src/lossless_hermes/compaction.py:2504-2786 | the pass on the tables is the condensed step, for success, skip and auth failure; without a summary nothing changes |
| CompactionDrivers.LeafPhase | src/lossless_hermes/compaction.py:2916-2988 | the loop on the tables is the leaf sweep: the same store, passes, count, replies used and reason to stop |
| CompactionDrivers.CondensedPhase | src/lossless_hermes/compaction.py:2993-3057 | the loop on the tables is the condensed sweep, forced or not |
| CompactionSweep.LeafSweepEnds | src/lossless_hermes/compaction.py:2916-2988 | the leaf sweep stops for every summarizer: on a refusal, after a pass without progress or, unless forced, with the first pass that reaches the threshold and never later; every pass but perhaps the last lowers the count |
| CompactionSweep.CondensedSweepEnds | src/lossless_hermes/compaction.py:2993-3057 | the same for the condensed sweep, which unforced makes no pass when the floor is at or under the threshold |
| CompactionSweep.LeafSweepTracks | src/lossless_hermes/compaction.py:2916-2988 | the store is the run of the recorded passes, each record starts where the last ended, and the count is the store total short of the drift |
| CompactionSweep.CondensedSweepTracks | src/lossless_hermes/compaction.py:2993-3057 | the same for the condensed sweep |
| CompactionRounds.LeafScript | src/lossless_hermes/compaction.py:2916-2945 | the i-th leaf pass uses the i-th reply, and only a pass that makes nothing uses one more |
| CompactionRounds.CondensedScript | src/lossless_hermes/compaction.py:2993-3017 | the condensed passes use the replies from where the leaf phase stopped |
| CompactionPromises.SweepScript | src/lossless_hermes/compaction.py:2916-3017 | the passes of a sweep use the replies one after another from the first, a refusal between the phases using one |
| CompactionRounds.TriggerHasChunk | src/lossless_hermes/compaction.py:1510-1559 | when the leaf trigger fires there is a chunk to take |
| CompactionPromises.TriggerIff | src/lossless_hermes/compaction.py:1510-1732 | the trigger fires exactly when the messages outside the tail reach the chunk size, 20000 unless configured |
| CompactionPromises.ThresholdMeaning | src/lossless_hermes/compaction.py:2864 | the threshold is the configured share of the budget, cut off toward zero |
| CompactionDrivers.EvaluateLeafTrigger | src/lossless_hermes/compaction.py:1695-1732 | the walk up to the boundary sums the raw tokens outside the tail and compares them with the chunk size |
| CompactionDrivers.FullSweep | src/lossless_hermes/compaction.py:2793-3067 | the store and the report, down to the newest summary and the auth flag, are those of the sweep function, for every reply |
| CompactionPromises.ReportMeaning | src/lossless_hermes/compaction.py:3059-3072 | the report says action exactly when the store changed, counts the new summaries, names the newest and says condensed exactly when a pass condensed |
| CompactionRounds.SweepKeeps | src/lossless_hermes/compaction.py:2793-3067 | a sweep keeps the invariant, the protected tail, the messages and the chronicle |
| CompactionRounds.SweepPhases | src/lossless_hermes/compaction.py:2793-3067 | unforced, with the total at or under the threshold and no trigger, or with an empty context, nothing happens; otherwise both phases run to their end |
| CompactionRounds.IdleSweep | src/lossless_hermes/compaction.py:2793-3067 | a sweep that makes no pass leaves the store and the count as they were |
| CompactionRounds.SweepRefusals | src/lossless_hermes/compaction.py:2928-2946 | auth failure is reported exactly when a phase had something to fold and its last reply failed on authentication; a refusal means nothing to fold or no usable reply |
| CompactionRounds.SweepCountExact | src/lossless_hermes/compaction.py:2793-3067 | the count of a sweep is the store total exactly when every message it folded is counted exactly |
| CompactionDrivers.CompactUntilUnder | src/lossless_hermes/compaction.py:3075-3214 | the tables and the result are those of the round function over the sweeps actually made, and just those sweeps are made |
| CompactionRounds.RoundsVerdict | src/lossless_hermes/compaction.py:3151-3214 | at most the configured rounds, floors above the goal that fall until the last, and success exactly at or under the goal without auth failure |
| CompactionRounds.FloorsAreSweeps | src/lossless_hermes/compaction.py:3166-3206 | each floor is the count its sweep ended with; only the last may be at the goal, fail to fall or report an auth failure, and it is that sweep that reports it |
| CompactionPromises.RoundsGoOn | src/lossless_hermes/compaction.py:3166-3206 | the rounds go on exactly while a sweep ends below the count before it, above the goal, with some pass and no auth failure, and rounds are left |
| CompactionPromises.RoundIsForced | src/lossless_hermes/compaction.py:3166-3174 | every round is a forced sweep with its own replies, from the store the one before it left |
| CompactionPromises.EntryMeaning | src/lossless_hermes/compaction.py:3140-3164 | the goal is a positive target or else the budget, the start the larger of the stored and a positive live count |
| CompactionRounds.SuccessIsASweep | src/lossless_hermes/compaction.py:3166-3214 | past the entry check, success is a last sweep at or under the goal; every earlier one ended above it |
| CompactionRounds.RoundsKeep | src/lossless_hermes/compaction.py:3075-3214 | after any number of rounds the invariant, the protected tail, the messages and the chronicle are kept |
| CompactionRounds.RoundsCount | src/lossless_hermes/compaction.py:3075-3214 | when every message has a positive stored count, or is empty with a count of zero, each round ends with the true total of the store |
| Integrity.LeafKeepsChecks | src/lossless_hermes/integrity.py:252-535 | from any state where the checks pass, reachable or not, they pass after a leaf pass |
| Integrity.CondensedKeepsChecks | src/lossless_hermes/integrity.py:252-535 | the same for a condensed pass |
| IntegrityScans.ReachablePasses | src/lossless_hermes/integrity.py:252-535 | after any run the checks pass |
| IntegrityScans.OrdinalGaps | src/lossless_hermes/integrity.py:223-250 | reports exactly the gaps; none exactly when ordinals are gapless |
| IntegrityScans.DanglingRefs | src/lossless_hermes/integrity.py:252-294 | reports exactly the rows whose reference does not resolve |
| IntegrityScans.DuplicateRefs | src/lossless_hermes/integrity.py:493-535 | reports exactly the items referenced more than once, with all their ordinals |
| IntegrityScans.TokenSumsAgree | src/lossless_hermes/integrity.py:399-462 | the joined sum and the sum of scalar subqueries agree whenever ids are primary keys |
| IntegrityScans.TokenSumsAreTotals | src/lossless_hermes/integrity.py:399-462 | and then both are the total that the store reports |
| IntegrityScans.TokenSumsDiffer | src/lossless_hermes/integrity.py:399-462 | without primary keys they can differ |
| IntegrityScans.SeqContiguousReachable | src/lossless_hermes/integrity.py:464-491 | message sequence numbers are 0 to n-1, each once |
| TranscriptRepair.NormalizeMeaning | src/lossless_hermes/transcript_repair.py:127-185 | hoisting permutes the blocks of one turn, keeps its calls and settles at once |
| TranscriptPromises.HoistMeaning | src/lossless_hermes/transcript_repair.py:127-185 | a turn is reordered exactly when it holds only reasoning and calls, one OpenAI call and reasoning after a call; then reasoning comes first and each kind keeps its order |
| TranscriptPairing.RebuildIsPaired | src/lossless_hermes/transcript_repair.py:340-426 | whatever goes in, what is rebuilt is paired |
| TranscriptPairing.FixedIffPaired | src/lossless_hermes/transcript_repair.py:266-429 | rebuilding leaves a transcript alone exactly when it is paired |
| TranscriptPairing.RebuildIdempotent | src/lossless_hermes/transcript_repair.py:266-429 | rebuilding twice is rebuilding once, with repeated ids, halted turns and synthetic results included |
| TranscriptPairing.CollectMeaning | src/lossless_hermes/transcript_repair.py:357-399 | the span's collected result for an id is the first one, and an id is collected exactly when a result exists |
| TranscriptGuarantees.ResultStands | src/lossless_hermes/transcript_repair.py:340-426 | every result stands in the block directly after a live turn that calls its id |
| TranscriptPromises.NoResultAfterHalted | src/lossless_hermes/transcript_repair.py:345-352 | no result stands between an errored or aborted turn and the next assistant turn |
| TranscriptPromises.OnlyHaltedCalls | src/lossless_hermes/transcript_repair.py:345-352 | an id that only errored and aborted turns call has no result anywhere |
| TranscriptGuarantees.ResultsUnique | src/lossless_hermes/transcript_repair.py:310-320 | no two results answer the same id |
| TranscriptGuarantees.CallAnswered | src/lossless_hermes/transcript_repair.py:408-420 | every call of a live turn is answered in its block or before |
| TranscriptPromises.CallsAreAnswered | src/lossless_hermes/transcript_repair.py:354-420 | a turn neither errored nor aborted has a result for every id its blocks call |
| TranscriptGuarantees.NonResultsKept | src/lossless_hermes/transcript_repair.py:323-426 | everything that is not a tool result stays, in order, up to the hoist |
| TranscriptGuarantees.RecordedWasThere | src/lossless_hermes/transcript_repair.py:384-420 | no recorded result is invented |
| TranscriptPromises.ResultsSourced | src/lossless_hermes/transcript_repair.py:384-420 | every result was in the input or says of a call of a turn neither errored nor aborted that it is missing, with the tool name or "unknown" |
| TranscriptGuarantees.FirstAnswerKept | src/lossless_hermes/transcript_repair.py:384-420 | the first result in its turn's span for an id not called before is kept |
| TranscriptSanitizer.NormalizeTurn | src/lossless_hermes/transcript_repair.py:127-185 | the block scan decides the hoist and reports it exactly |
| TranscriptSanitizer.ScanSpan | src/lossless_hermes/transcript_repair.py:363-403 | the inner loop finds the span, its first results and the remainder |
| TranscriptSanitizer.Repair | src/lossless_hermes/transcript_repair.py:266-429 | the pass builds the rebuilt list, and flags a change exactly when some turn is not quiet |
| TranscriptSanitizer.TurnFlag | src/lossless_hermes/transcript_repair.py:363-420 | a turn goes unflagged exactly when its calls are new and distinct and its span holds results for just them |
| TranscriptFlag.QuietIff | src/lossless_hermes/transcript_repair.py:340-429 | no change is flagged exactly when no turn needs a hoist, every result stands in the span of a calling turn, such a span holds nothing but results for its calls, each call has one, and no id is called twice |
| TranscriptFlag.NeedlessIff | src/lossless_hermes/transcript_repair.py:404-429 | a change is flagged although none is made exactly for a paired transcript with something out of place |
| TranscriptFlag.FlaggedUnchanged | src/lossless_hermes/transcript_repair.py:404-429 | a concrete transcript that is flagged and comes back the same |
| TranscriptShortcut.QuietPermuted | src/lossless_hermes/transcript_repair.py:428-429 | an unflagged transcript without repeated results differs from the rebuilt one only inside blocks |
| TranscriptShortcut.HandedBackIff | src/lossless_hermes/transcript_repair.py:428-429 | what is handed back matches the rebuilt list up to block order exactly unless it is unflagged and two results share an id |
| TranscriptShortcut.HandedBackPairedIff | src/lossless_hermes/transcript_repair.py:428-429 | what is handed back is paired exactly when it was flagged or its results stood in call order |
| TranscriptShortcut.RepeatUnflagged | src/lossless_hermes/transcript_repair.py:391-394 | a concrete transcript that stays unpaired without a flag |
| TranscriptShortcut.OrderUnflagged | src/lossless_hermes/transcript_repair.py:363-429 | a concrete transcript without repeats whose results stay in the wrong order without a flag |
| BudgetWalk.WalkChronological | src/lossless_hermes/assembler.py:2051-2107 | keeps exactly the longest fitting suffix |
| BudgetWalk.WalkRanked | src/lossless_hermes/assembler.py:1974-2048 | an item is chosen exactly when it fits beside the chosen ones ranked ahead of it |
| BudgetWalk.GreedyUnique | src/lossless_hermes/assembler.py:1974-2048 | the greedy choice is unique |
| BudgetWalk.RejectedDoNotFit | src/lossless_hermes/assembler.py:2034-2042 | no rejected item could be added to the final choice |
| BudgetWalk.FullFitAgrees | src/lossless_hermes/assembler.py:1943-1951 | when everything fits both walks keep everything |
| AssemblyPromises.SelectedMeaning | src/lossless_hermes/assembler.py:1794-1971 | the mode follows from what fits and whether there are scores; all entries, the longest fitting run of the newest, or each that fits beside those of a higher score, or newer at the same |
| AssemblySelection.ResolveFreshTailOrdinal | src/lossless_hermes/assembler.py:187-313 | the backward walk finds the boundary of the protected messages |
| AssemblySelection.TailIsProtected | src/lossless_hermes/assembler.py:187-313 | the raw messages at or past the boundary are exactly the protected ones |
| AssemblyPromises.TailMeaning | src/lossless_hermes/assembler.py:187-313 | the tail holds at most the configured count and fits the cap unless it is the newest message alone; a negative cap is none |
| AssemblySelection.NewestSurvives | src/lossless_hermes/assembler.py:187-313 | the newest message is kept whatever the cap |
| AssemblySelection.SplitIsCut | src/lossless_hermes/assembler.py:1481-1483 | the boundary cuts the entries in two, losing none |
| AssemblySelection.SelectWithinBudget | src/lossless_hermes/assembler.py:1794-1971 | in every mode the kept entries are an ordered selection within the remaining budget, chosen as the mode says |
| AssemblySelection.InsertIsPick | src/lossless_hermes/assembler.py:2044-2048 | sorting the picked entries by ordinal gives the ordered selection |
| Assembly.StripCalls | src/lossless_hermes/assembler.py:2252-2583 | a call with an id survives exactly when a later result was selected, or at or past the boundary no result exists; nothing else is touched |
| Assembly.StayingMeaning | src/lossless_hermes/assembler.py:2480-2540 | the surviving blocks are exactly the staying ones |
| Assembly.CleanedSubstantial | src/lossless_hermes/assembler.py:3236-3314 | no assistant turn is left empty, blank or thinking-only |
| Assembly.DroppedMeaning | src/lossless_hermes/assembler.py:3290-3313 | the drop test removes exactly the turns a provider would refuse |
| AssemblyPromises.SentEntries | src/lossless_hermes/assembler.py:2252-2583 | exactly the entries with something of substance left are sent, in order, an assistant turn with just its remaining blocks: no blank text, and no call without a later selected result, but past the boundary one without any |
| Assembly.RebuildKeepsSubstance | src/lossless_hermes/assembler.py:1536-1564 | pairing does not bring such turns back |
| Assembly.SelectEntries | src/lossless_hermes/assembler.py:1481-1514 | the fresh tail whole and, before it, what the mode keeps; the estimate is at most the larger of budget and tail |
| Assembly.Assemble | src/lossless_hermes/assembler.py:1343-1600 | selection, stripping, cleaning and pairing in order; the estimate is at most the larger of budget and tail |
| AssemblyPromises.AssembledSends | src/lossless_hermes/assembler.py:1343-1600 | results apart, what is sent are exactly the selected entries that go, in order, up to the hoist |
| AssemblyPromises.OthersAreSent | src/lossless_hermes/assembler.py:3290-3314 | every selected message that is neither an assistant turn nor a result is sent as it is, in order |
| Assembly.AssembledIsAcceptable | src/lossless_hermes/assembler.py:1343-1600 | what is sent has only substantial turns and is paired up to block order, unless repeated results slipped through |
| Prune.CascadeMeaning | src/lossless_hermes/prune.py:512-643 | the six statements in order have a closed form, table by table |
| Prune.PruneMeaning | src/lossless_hermes/prune.py:263-308 | just the shown leaves that are asked for get suppressed; what is flagged, hidden, dropped and cut follows table by table, and the other context rows keep their order and ordinals |
| Prune.CascadesJoin | src/lossless_hermes/prune.py:512-643 | two cascades are one over both target sets |
| Prune.PrunesJoin | src/lossless_hermes/prune.py:457-498 | any sequence of prunes is one cascade over everything any of them selects |
| Prune.PrunesCommute | src/lossless_hermes/prune.py:457-498 | the order of prunes does not matter |
| Prune.PruneUnion | src/lossless_hermes/prune.py:263-308 | pruning two id sets after one another is pruning their union |
| Prune.PrunesAreSafe | src/lossless_hermes/prune.py:585-612 | starting with nothing suppressed, after any prunes a message is hidden exactly when every summary linking to it is suppressed, and the context shows nothing suppressed |
| Prune.PrunesKeepSafe | src/lossless_hermes/prune.py:585-612 | from any tables, prunes keep each of: no message hidden that an unsuppressed summary holds, hidden exactly when all are suppressed, nothing suppressed shown |
| Prune.CascadeKeepsSafe | src/lossless_hermes/prune.py:585-612 | no message is hidden while an unsuppressed summary links to it |
| Prune.CutHidesIff | src/lossless_hermes/prune.py:563-583 | the ungated context cut removes only hidden messages exactly when no shown target message is held elsewhere |
| Prune.SharedMessageVanishes | src/lossless_hermes/prune.py:573-583 | a concrete shared message leaves the context while it stays visible |
| Prune.PruneContiguousIff | src/lossless_hermes/prune.py:551-583 | ordinals stay gapless exactly when everything cut stands at the end |
| Prune.PruneLeavesGap | src/lossless_hermes/prune.py:551-583 | a concrete prune that leaves a gap |
| PruneDatabase.Database.RunCascade | src/lossless_hermes/prune.py:501-643 | the statements run one after another on the tables give the cascade; the counts are the suppressed, flagged and hidden rows, the rows cut and the caches dropped |
| PruneDatabase.Database.SoftPrune | src/lossless_hermes/prune.py:431-498 | refused without a reason or selector and then unchanged, else exactly the prune of the resolved leaves with the counts of the rows touched |
| PruneDatabase.Database.SoftPruneSession | src/lossless_hermes/prune.py:372-423 | also refused for a blank session or the main session without permission, each with its own error |
| Transactions.Connection.Execute | src/lossless_hermes/transaction_mutex.py:147-164 | the depth is the nesting level throughout, and the uncommitted rows grow by exactly the writes no failed scope encloses |
| Transactions.Connection.Nested | src/lossless_hermes/transaction_mutex.py:147-164 | a savepoint scope keeps its writes exactly when it does not raise, and leaves depth and stack as they were |
| Transactions.Connection.Outermost | src/lossless_hermes/transaction_mutex.py:166-201 | commits the surviving writes or nothing, returns the depth to zero, and leaves it at one exactly when BEGIN fails |
| Transactions.Connection.WithTransaction | src/lossless_hermes/transaction_mutex.py:113-201 | either path, also after a leaked depth, is atomic |
| Transactions.FindNewest | src/lossless_hermes/transaction_mutex.py:147-164 | a rollback or release by name acts on the newest savepoint of that name |
| Transactions.SurvivorsOf | src/lossless_hermes/transaction_mutex.py:147-201 | the writes outside failed scopes follow the tree of scopes |
| Transactions.RaisesIff | src/lossless_hermes/transaction_mutex.py:147-201 | a program raises exactly when some Raise stands under no Try, in however many scopes |
| Transactions.AllOrNothing | src/lossless_hermes/transaction_mutex.py:147-201 | without any Try one Raise anywhere loses every write, and without any Raise all writes survive in order |
| Exclusion.OwnershipExact | src/lossless_hermes/transaction_mutex.py:166-201 | over every interleaving a positive depth means owning the lock, except exactly for a leaked depth whose failing call has gone |
| Exclusion.Exclusive | src/lossless_hermes/transaction_mutex.py:70-201 | when every BEGIN succeeds, an open scope owns the lock |
| Exclusion.OneWriter | src/lossless_hermes/transaction_mutex.py:70-201 | at most one thread has an unleaked scope open on a connection |
| Exclusion.FinishedLetsGo | src/lossless_hermes/transaction_mutex.py:166-201 | a thread in no call owns no lock, and its depth is zero unless it leaked |
| Exclusion.FailedBeginBreaksExclusion | src/lossless_hermes/transaction_mutex.py:170-201 | a concrete run with two threads inside scopes on one connection |
| ExclusionProgress.OuterCallReturns | src/lossless_hermes/transaction_mutex.py:166-201 | a whole outermost call leaves every thread and every lock as they were |
| ExclusionProgress.NestedCallReturns | src/lossless_hermes/transaction_mutex.py:147-164 | and so does a whole nested call |
| ExclusionProgress.RefusedCallReturns | src/lossless_hermes/transaction_mutex.py:150-151 | and one whose SAVEPOINT fails |
| ExclusionProgress.FailedCallLeaks | src/lossless_hermes/transaction_mutex.py:166-201 | a call whose BEGIN fails gives the lock back and leaves the depth at one |
| ExclusionProgress.NoDeadlock | src/lossless_hermes/transaction_mutex.py:60-201 | with one connection, while some call is open some thread moves, over every interleaving |
| ExclusionProgress.CrossedCallsWait | src/lossless_hermes/transaction_mutex.py:166-168 | with two connections a concrete interleaving leaves both threads waiting for good |
| SummaryCascade.RunChain | src/lossless_hermes/summarize.py:1983-2263 | the loop with all its exits equals the closed form, with exact calls and waits |
| SummaryCascade.TryCandidate | src/lossless_hermes/summarize.py:1992-2248 | one candidate settles with its text, or is passed over for the stated reason |
| SummaryCascade.Summarize | src/lossless_hermes/summarize.py:1908-2263 | blank text and an empty chain end at once with their own verdicts, and no others do; at most four completion calls per candidate |
| SummaryCascade.Try | src/lossless_hermes/summarize.py:2320-2501 | an auth failure remains exactly when the provider is managed, has no direct key or fails on it again; a second call follows only such a failure and its answer is final |
| SummaryCascade.VerdictHasText | src/lossless_hermes/summarize.py:1983-2263 | the answer is a non-empty summary, a marked fallback or an auth error |
| CascadePromises.OneCandidate | src/lossless_hermes/summarize.py:1992-2263 | what comes back of a lone candidate for every pair of answers it may give |
| SummaryCascade.RaisesIff | src/lossless_hermes/summarize.py:2250-2263 | when exactly an auth error is raised |
| SummaryCascade.FirstGoodWins | src/lossless_hermes/summarize.py:2231-2248 | the first candidate with a usable text decides, whatever the others do |
| SummaryCascade.AllAuthRaises | src/lossless_hermes/summarize.py:2001-2017 | it is raised when every candidate fails to authenticate |
| SummaryCascade.OneAuthRaises | src/lossless_hermes/summarize.py:2250-2263 | a concrete chain with a single auth failure that raises |
| SummaryCascade.PartialKeptIff | src/lossless_hermes/summarize.py:2110-2206 | when no candidate is usable, the partial text of the last one is returned exactly unless its retry is rejected or fails on authentication |
| SummaryCascade.RejectedRetryDiscards | src/lossless_hermes/summarize.py:2170-2206 | after a rejected last retry the partial summary gives way to the last auth error of the chain or else the fallback, after one failing on authentication to that error |
| SummaryCascade.PartialDiscarded | src/lossless_hermes/summarize.py:2170-2183 | a concrete candidate whose usable partial text is thrown away |
| SummaryCascade.MarkedMeaning | src/lossless_hermes/summarize.py:725-780 | the fallback is always marked and holds the stripped text or its longest allowed prefix |
| CascadePromises.TrimMeaning | src/lossless_hermes/summarize.py:755-770 | trimming takes the spaces at both ends away and nothing else |
| CascadePromises.FallbackSize | src/lossless_hermes/summarize.py:725-780 | the fallback holds the trimmed text up to four characters a token, at least 256 |
| SummaryCascade.TargetBounds | src/lossless_hermes/summarize.py:949-983 | the aggressive target is at most the normal one and both stay in their bounds |
| CascadePromises.TargetsInWholeNumbers | src/lossless_hermes/summarize.py:949-983 | the target sizes as whole-number shares of the input and of the leaf target, within fixed bounds |
| SummaryCascade.BackoffMeaning | src/lossless_hermes/summarize.py:1781-1796 | waits double from half a second up to eight seconds |
| CascadePromises.WaitsMeaning | src/lossless_hermes/summarize.py:1983-2248 | each candidate passed over is followed by its wait, but for one whose retry just failed |
| CascadePromises.CallsStep | src/lossless_hermes/summarize.py:2320-2501 | one call a candidate, one more when it is retried, and one more for each repeated with direct credentials |
| TokenEstimate.EstimateTokens | src/lossless_hermes/estimate_tokens.py:95-105 | the loop computes the exact estimate |
| TokenEstimate.CostOfCopies | src/lossless_hermes/estimate_tokens.py:61-105 | one and a half tokens for a code point of the listed blocks, two beyond the basic plane, else a quarter, rounded up |
| TokenEstimate.Truncate | src/lossless_hermes/estimate_tokens.py:108-128 | the result is the longest prefix within the cap |
| TokenEstimate.EstimateMonotone | src/lossless_hermes/estimate_tokens.py:95-105 | a longer prefix never costs less |
| TokenEstimate.EstimateSplit | src/lossless_hermes/estimate_tokens.py:95-105 | splitting a text never saves tokens and costs at most one more |
| TokenEstimate.TruncateCompose | src/lossless_hermes/estimate_tokens.py:108-128 | truncating twice is truncating once to the smaller cap |

## Left out

- SQLite itself, full-text and vector search, migrations and row mapping: tables are maps, sets and sequences with the store's contract.
- The conversation row behind `conversation_exists`: no modelled step touches it.
- Prompt wording, id hashing, timestamps, telemetry and the debug envelope: they do not feed back into the state.
- The summarizer's escalation levels inside a pass: the model sees only the reply a pass ends with, or that there is none.
- Block reconstruction, media annotation and stub substitution in the assembler: blocks are given by kind, id and text.
- The relevance scorer: any real-valued score; rounding and not-a-number scores are not modelled.
- `repair_transcript` counts: a structural difference of two lists the model already relates.
- Timeouts and sleeping: a timeout is an outcome, a wait is its length.
- The classification of provider errors: each completion call ends in one of five outcomes.
- The lock registry: one lock for each connection, present from the start; reuse of object identities is not modelled.
- Rollback of a prune whose own statement fails: the six statements are modelled as succeeding.
- CompactionDrivers.LeafPhase: the summarizer is a finite script of replies that skips when it runs out; since phases end, every summarizer is covered.
- SummaryCascade.TargetBounds: uses exact reals where the program multiplies floating-point numbers.
- Transactions.Connection.Nested: a SAVEPOINT, RELEASE or ROLLBACK TO statement that itself fails is not modelled.
- Transactions.Connection.Outermost: the commit of an implicit transaction is modelled as succeeding.
