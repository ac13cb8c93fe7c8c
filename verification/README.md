# Rustock: a verified model

Rustock is an RSK node written in Rust. This project models six parts of it in Dafny and proves what they are for:

- **The work ceiling** (`WorkCeiling`, `UncleAllowance`, `Judge`, `JudgeExact`). Above a checkpoint a peer's claimed total difficulty
  is compared with the most work any chain through some sampled headers can carry.
- **The trie tools** (`Trie`, `DiffWalk`, `KeyPacking`, `DiffTools`, `Repair`). Two state roots are compared by walking
  both tries and skipping equal hashes; a chunk of trie nodes is completed from an archive by a batched descent.
- **The gas estimator** (`Gas`). One execution, watched by an inspector, replaces a binary search for the gas limit.
- **The health alarms** (`Health`, `HealthPause`). Three alarms with timers, cooldowns and an arming latch.
- **The watcher** (`Transfers`, `DedupKeys`, `Movement`, `Watcher`, `WatchRuns`, `WatchMail`). It follows a chain that may
  reorganise at any time, extracts value transfers from call trees, and mails each alert once.
- **Two run protocols** (`Segments`, `SegmentRuns`, `Coverage`, `CoverageRuns`, `CoverageVerdicts`, `CoverageCounts`).
  Workers claim chunks of blocks by renaming files, and a replay records which blocks it verified.

`Options`, `Words` and `Strings` hold what the others share: optional values, saturating 256-bit arithmetic, decimal and
hexadecimal numerals. Code that changes fields or loops is modelled by classes and methods, each proved equal to a
function of its inputs or its old state; the theorems are about those functions. Concurrency is a state machine over the
steps of all processes. Hashes are collision-free. The head, the canonical chain, failing reads, the outcome of executing
a block and the readings of the clock are parameters, and the theorems hold for all of them.

Verify everything with `dafny verify dfyconfig.toml`.

## What does not hold

Twelve statements suggested by the code or its comments are false of it. Each has a lemma with a failing input, and one
that says exactly when it holds.

- The work bound assumes that difficulty moves by one quotient a block. While RSKIP97 is not active, which on testnet and
  regtest is always, a block ten minutes late resets to the minimum, and a chain can carry more than the bound:
  `WorkCeiling.ResetBreaksBound`, `WorkCeiling.BoundHoldsIffNoReset`.
- The retarget rule is meant to ease off as a block comes later and to tighten with its uncles. Both fail for a parent
  below the minimum difficulty, whose own difficulty is carried over unclamped at exactly the due time, and hold exactly
  otherwise, or where the ten-minute reset (or a limit of zero) rules that time out: `WorkCeiling.UnclampedThenClamped`,
  `WorkCeiling.LaterIsNoHarderIff`, `WorkCeiling.UnclesNeverEaseIff`.
- `judge` multiplies by the allowance, saturating, before it divides. Honest claims are all accepted exactly when they
  are at most (2^256-1)/1000: `Judge.OneBlockImpossible`, `Judge.HonestClaimAcceptedIff`.
- The uncle allowance covers the sampled blocks themselves only up to 654,630 samples; beyond that a floor in the range
  term loses it: `UncleAllowance.OneUncleUncovered`, `UncleAllowance.CoversIff`.
- Skipping equal hashes loses a subtree that hangs under different prefixes in the two tries. The report is exact if and
  only if that never happens: `DiffWalk.SharedSubtreeMissed`, `DiffWalk.ExactIffAligned`.
- `docs/gas-estimation.md` calls the estimate the exact minimum for keeping every callee's allowance. The peak is that
  minimum for the root frame of every tree, but the estimate does not add the intrinsic cost, and sets the peak aside
  where everything is handed over: `Gas.IntrinsicShortfall`, `Gas.EstimateKeepsAllowancesIff`.
- `gas_estimator.rs` calls the estimate the smallest limit at which the transaction is expected to succeed. It is never
  below that, and usually above it: `Gas.EstimateIsNotLeast`, `Gas.EstimateIsLeastIff`.
- `movement.rs` says that a transfer the filter misses must have come back to where it started. It need not: payments can
  be gathered, passed on and shared out. A transfer on no cycle is at most the filter times the accounts upstream of its
  sender, and cycles are exactly what escapes that; the bound is attained for every filter and every number of accounts,
  and nothing above the filter is missed exactly where the sender is alone: `Movement.FilterGuarantee`,
  `Movement.BoundedIff`, `Movement.BoundIsAttained`, `Movement.HidesNothingIff`.
- `movement.rs` says that a filter of zero re-executes every block. It skips those recorded as moving nothing, and only
  those: `Movement.ZeroFilterSkipsIff`.
- A comment in `health.rs` says that the comparison timers stand still without peers. The code resets them. However
  standing still is understood, the two raise the same alerts exactly when no alert of a standing timer has a peerless
  reading within its wait: `HealthPause.ResetDelays`, `HealthPause.BehindPauseIff`, `HealthPause.AheadPauseIff`.
- The watcher logs that a withdrawn alert describes a transfer that did not happen. One that a reorganisation moved to
  another height is withdrawn all the same; the line is true exactly when no other height gives the alert. True here
  means of the blocks the watcher holds, which after a failed read may be stale: `WatchMail.MovedIsWithdrawn`,
  `WatchMail.WithdrawalTrueIff`.
- Coverage spans are stored under their first block and gaps beside them. A later, shorter session can shrink what an
  earlier one recorded, and a block that fails later can be covered and a gap at once:
  `CoverageRuns.ShorterSessionForgets`, `CoverageRuns.LaterSession`, `CoverageRuns.CoveredAndGap`,
  `CoverageRuns.LaterGaps`, `CoverageRuns.FailedYetCovered`.

## Model

| member | source | states |
|---|---|---|
| `WorkCeiling.ValidatorRetargets` | crates/core/src/validation/difficulty.rs:49-120 | with RSKIP97 active, the difficulty the validator demands is the parent's or one quotient away, clamped up to the minimum |
| `WorkCeiling.RetargetDirection` | crates/core/src/validation/difficulty.rs:75-120 | short of the reset, the difficulty demanded rises if and only if the block is not before its parent and sooner than the limit times one more than its uncles, and falls if and only if it is later than that and the parent above the minimum |
| `WorkCeiling.LaterIsNoHarderIff` | crates/core/src/validation/difficulty.rs:49-120 | over all timestamps and uncles a later block needs no more difficulty if and only if the parent is not below the minimum, or the reset is on and the limit at least ten minutes |
| `WorkCeiling.UnclesNeverEaseIff` | crates/core/src/validation/difficulty.rs:49-120 | over all timestamps and uncles more uncles never lower the difficulty demanded if and only if the parent is not below the minimum, or the limit is zero, or the reset is on and twice the limit at least ten minutes |
| `WorkCeiling.UnclampedThenClamped` | crates/core/src/validation/difficulty.rs:92-120 | a parent below the minimum passes its difficulty on at the due time, and the minimum after it |
| `WorkCeiling.UnfallExact` | crates/core/src/checkpoint.rs:188-199 | floor(y*div/(div-1)) is the largest difficulty from which one maximal fall reaches y or less, rounding included |
| `WorkCeiling.BuildCaps` | crates/core/src/checkpoint.rs:191-199 | the vector filled backwards holds, at each block, the closed cap for the blocks that remain |
| `WorkCeiling.MaxWorkBetween` | crates/core/src/checkpoint.rs:159-213 | the greedy loop returns the saturated sum of the recursive bound, zero for a span of nothing |
| `WorkCeiling.ChainUnderCap` | crates/core/src/checkpoint.rs:171-199 | a block of a chain that ends at or below `to` is never above its cap, or the cap has saturated |
| `WorkCeiling.WorkCoversChain` | crates/core/src/checkpoint.rs:200-212 | the unsaturated greedy sum is at least the sum of any chain obeying the rule |
| `WorkCeiling.BoundIsSound` | crates/core/src/checkpoint.rs:144-213 | for every divisor, minimum and chain from `from` to `to`, the chain's work is at most the bound, or the bound has saturated |
| `WorkCeiling.GreedyIsRelaxed` | crates/core/src/checkpoint.rs:171-212 | without saturation the computed sequence itself moves at most one quotient a step and ends at or below `to` |
| `WorkCeiling.BoundIsMaximum` | crates/core/src/checkpoint.rs:171-212 | hence the bound is attained: it is the maximum over all such sequences, flat steps included |
| `WorkCeiling.SampleTightens` | crates/core/src/checkpoint.rs:419-433 | a true sample never loosens the bound: the bounds of the two parts sum to at most the bound of the whole |
| `WorkCeiling.WorkTightens` | crates/core/src/checkpoint.rs:191-212 | the same before saturation |
| `WorkCeiling.BoundHoldsWithoutReset` | crates/core/src/checkpoint.rs:38-58 | with the reset off, the bound covers the chain the validator demands over every choice of timestamps, in order or not, and uncles |
| `WorkCeiling.BoundHoldsIffNoReset` | crates/core/src/checkpoint.rs:38-58 | over every choice of uncles and ascending timestamps, the bound covers the chain the validator demands if and only if the ten-minute reset is off, for minimums far enough below 2^256 that one step back from them does not overflow |
| `WorkCeiling.ResetBreaksBound` | crates/core/src/validation/difficulty.rs:52-72 | with the reset on, two headers with ascending timestamps carry more work than the bound, at every duration limit and divisor |
| `WorkCeiling.DemandedIsValid` | crates/core/src/validation/difficulty.rs:49-120 | the difficulties demanded of any headers, the reset off, form a chain obeying the rule |
| `UncleAllowance.AllowanceFits` | crates/core/src/checkpoint.rs:348-381 | for at most ten uncles a sample the allowance is in 1000..=11000 and every intermediate value fits 128 bits |
| `UncleAllowance.AllowanceIsBernstein` | crates/core/src/checkpoint.rs:348-381 | for two samples or more the allowance is 1000 plus the floored mean, a deviation e and 654,630/k, capped at 11000, where 1000k(k-1)e² is at most 2·21,821 times the squared deviations about the floored mean, and 1000k(k-1)(e+1)² above 2·21,821 times those less k-2 |
| `UncleAllowance.CappedIff` | crates/core/src/checkpoint.rs:348-381 | k samples get the full allowance whatever they hold if and only if k is at most 65 |
| `UncleAllowance.CoversSampled` | crates/core/src/checkpoint.rs:348-381 | up to 654,630 samples the allowance covers what was sampled, despite every floor |
| `UncleAllowance.CoversIff` | crates/core/src/checkpoint.rs:348-381 | and for every larger number of samples some list is not covered |
| `UncleAllowance.FlooredMeanNeverUnderstates` | crates/core/src/checkpoint.rs:358-372 | squared deviations about the floored mean are never below those about the true mean |
| `Judge.CeilingFor` | crates/core/src/checkpoint.rs:404-448 | the loop over the samples returns the recursive ceiling: out-of-order samples skipped, the tail after the last one bounded with a free end; `JudgeExact.ImpossibleIff` says what that ceiling is |
| `Judge.Verify` | crates/core/src/checkpoint.rs:451-465 | the verdict on a claim is the one the ceiling gives, with both figures; `JudgeExact.ImpossibleIff` says which claims are refused |
| `Judge.ScalePays` | crates/core/src/checkpoint.rs:419-433 | scaling a bound by the allowance covers the uncle-inclusive work it stands for, or has saturated past the largest claim considered |
| `Judge.GapPaid` | crates/core/src/checkpoint.rs:419-433 | on an honest chain each gap's scaled bound pays for the gap |
| `Judge.CeilingCovers` | crates/core/src/checkpoint.rs:404-448 | by induction over the samples, the ceiling pays for the whole chain |
| `Judge.HonestIsPlausible` | crates/core/src/checkpoint.rs:404-465 | no honest claim up to (2^256-1)/1000 is ever judged Impossible |
| `Judge.HonestClaimAcceptedIff` | crates/core/src/checkpoint.rs:404-465 | a claim is accepted of every honest chain if and only if it is at most (2^256-1)/1000 |
| `JudgeExact.OnlyUsedCount` | crates/core/src/checkpoint.rs:419-433 | a sample not above the checkpoint and every sample used before it changes nothing |
| `JudgeExact.ClimbIsWork` | crates/core/src/checkpoint.rs:436-447 | past the last sample the bound is the work of a chain that rises by one quotient at every block |
| `JudgeExact.CeilingIsHeaviest` | crates/core/src/checkpoint.rs:404-448 | where a chain of the relaxed rule runs through the samples and no step of it overflows, the ceiling is the checkpoint total plus, for every gap and the tail, the allowance times the heaviest such chain over 1000, clipped to a word |
| `JudgeExact.ImpossibleIff` | crates/core/src/checkpoint.rs:404-465 | there are chains, one down to each sampled difficulty and a free one for the tail, that no other chain outweighs, such that a claim is Impossible if and only if it exceeds the checkpoint total plus the sum of floor(allowance·work/1000) over them; the figures reported are the claim and that sum |
| `DiffWalk.SameHashSameLeaves` | crates/trie/src/node.rs:158-164 | references with equal hashes have the same leaves below any prefix, embedded or not |
| `DiffWalk.ListedIffFound` | crates/cli/examples/diff_roots.rs:43-50 | collecting a subtree lists a key with a value if and only if looking the key up there finds that value |
| `DiffWalk.NeverStuck` | crates/cli/examples/diff_roots.rs:71-71 | on complete tries the walk never meets the case the code declares unreachable |
| `DiffWalk.WalkIsAll` | crates/cli/examples/diff_roots.rs:52-73 | shown and skipped leaves together are all leaves of the side, each at its own key |
| `DiffWalk.ReportPartition` | crates/cli/examples/diff_roots.rs:52-73 | every leaf of a side is either reported or skipped, never both, and every reported one is real |
| `DiffWalk.PassedAgreeIff` | crates/cli/examples/diff_roots.rs:54-56 | the two sides skip the same leaves if and only if every skipped pair with leaves hangs at equal prefixes |
| `DiffWalk.ExactIffAligned` | crates/cli/examples/diff_roots.rs:52-73 | the reports disagree exactly where the tries do if and only if every skipped pair is aligned |
| `DiffWalk.SharedSubtreeMissed` | crates/cli/examples/diff_roots.rs:54-56 | two tries of one-byte keys, each a branch over two leaves, that differ and of which neither report shows anything |
| `KeyPacking.Pack` | crates/cli/examples/diff_roots.rs:33-39 | setting bits in place gives the packed bytes, most significant bit first |
| `KeyPacking.PackRoundTrip` | crates/trie/src/path.rs:8-26 | unpacking the packed bits gives them back |
| `KeyPacking.PackedSameIff` | crates/cli/examples/diff_roots.rs:33-39 | two keys pack to the same bytes if and only if they agree once padded with zeros to the same number of bytes |
| `KeyPacking.PackedInjective` | crates/cli/examples/diff_roots.rs:33-39 | so packing is injective on whole-byte keys |
| `DiffTools.Side.Collect` | crates/cli/examples/diff_roots.rs:43-50 | appends exactly the leaves below the node, in order, and restores the prefix |
| `DiffTools.Diff` | crates/cli/examples/diff_roots.rs:52-73 | both reports grow by what the walk shows of their side and both prefixes are restored; it fails exactly in the unreachable case |
| `DiffTools.DiffPair` | crates/cli/examples/diff_roots.rs:57-69 | the same for two resolved nodes |
| `DiffTools.Classify` | crates/cli/examples/diff_self.rs:131-151 | the printed lines are, key by key, what the two maps of rows call for |
| `DiffTools.DeltaIsExact` | crates/cli/examples/diff_self.rs:131-151 | on complete tries with whole-byte keys, every key is printed as added, removed or changed exactly as the two tries differ there, if and only if the walk is aligned |
| `Repair.BatchIsUnion` | crates/cli/examples/repair_chunk.rs:184-207 | the batched descent visits a position if and only if the separate descent of some key does |
| `Repair.BatchVisitsOnce` | crates/cli/examples/repair_chunk.rs:184-207 | and no position twice |
| `Repair.SplitKeys` | crates/cli/examples/repair_chunk.rs:186-200 | each key goes on, less the bits consumed, on the side its next bit names, in order |
| `Repair.WalkAll` | crates/cli/examples/repair_chunk.rs:184-207 | the recursion writes back exactly what the archive holds of the hashes it asks for, and nothing in a dry run |
| `Repair.PatchStore.Get` | crates/cli/examples/repair_chunk.rs:97-129 | answers as chunk and archive together would; afterwards every cached key is in the chunk, chunk and archive agree, and the cache is within its cap, or one entry under a cap of zero; lookups, hits and archive reads are each counted when they happen |
| `Repair.RepairRoot` | crates/cli/examples/repair_chunk.rs:264-270 | one root: the root node and every path below it, counting what was added |
| `Repair.PassRepairs` | crates/cli/examples/repair_chunk.rs:247-283 | a real pass leaves the root repaired, and a pass over a repaired root adds nothing |
| `Repair.RepairedAnswers` | crates/cli/examples/repair_chunk.rs:184-207 | on a repaired root the chunk alone reads, for every key, the same nodes as chunk and archive together |
| `Repair.RepairedAsArchive` | crates/cli/examples/repair_chunk.rs:184-207 | and the same nodes as the archive, where the archive holds the root and what it is asked for along the path |
| `Repair.SameReads` | crates/cli/examples/repair_chunk.rs:184-207 | two stores that agree on the hashes of a path read the same nodes along it |
| `Repair.Interrupted` | crates/cli/examples/repair_chunk.rs:96-132 | killed after any lookups of a root, the store still holds its invariant and the roots already marked stay repaired |
| `Repair.Pass` | crates/cli/examples/repair_chunk.rs:247-283 | the checkpoint on disk always marks repaired roots, fewer than 2,000 behind the walk, wherever the run is killed; it stops early only at a kill or a missing root; a finished run without a limit is past `end` and has every root on the stride up to `end` present and repaired; one with a limit is past `end` or has covered its limit, and never goes beyond either; a dry run changes nothing |
| `Gas.RunIff` | crates/execution/src/rsk_instructions.rs:766-797 | a call tree succeeds with a limit if and only if the limit reaches its need, and then leaves the limit less the gas used |
| `Gas.UsedWithinNeed` | crates/execution/src/gas_estimator.rs:22-50 | the need of a tree lies between the gas used and that plus one stipend |
| `Gas.RootPeakDominates` | crates/execution/src/gas_estimator.rs:131-138 | on every well-bracketed trace the root's peak is the maximum over all frames of their own peaks |
| `Gas.EstimationInspector.Step` | crates/execution/src/gas_estimator.rs:223-231 | a step in the root frame notes its limit; deeper ones change nothing |
| `Gas.EstimationInspector.StepEnd` | crates/execution/src/gas_estimator.rs:232-237 | the end of a root step updates the remaining gas and the peak |
| `Gas.EstimationInspector.EnterFrame` | crates/execution/src/gas_estimator.rs:181-197 | one deeper; the value flag is set by a non-root frame carrying value; a frame given everything is noted |
| `Gas.EstimationInspector.LeaveFrame` | crates/execution/src/gas_estimator.rs:198-200 | one shallower |
| `Gas.InspectorIsExact` | crates/execution/src/gas_estimator.rs:144-261 | over the whole transaction the hooks compute the root's peak, return to depth zero, and set the value flag if and only if some inner frame carried value |
| `Gas.TraceMeans` | crates/execution/src/gas_estimator.rs:131-216 | the trace of a run is well bracketed, and its peak is what the run commits at most |
| `Gas.MeasureMeans` | crates/execution/src/gas_estimator.rs:168-180 | the telemetry of a run in terms of the run: gas used, peak commitment, whether value moved, whether everything was handed over |
| `Gas.EstimateIsSound` | crates/execution/src/gas_estimator.rs:98-128 | re-running at any limit from the unclamped estimate to the cap succeeds with the same gas used |
| `Gas.EstimateDistance` | crates/execution/src/gas_estimator.rs:98-128 | within the cap the estimate exceeds what the run spent by one stipend where value moves, and by the refund where something is handed over whole, or else by what the smallest limit that keeps every allowance exceeds the spending |
| `Gas.PlainTransferEstimate` | crates/execution/src/gas_estimator.rs:108-178 | a transaction that runs no code, with or without value, is estimated at what it spends |
| `Gas.CommitWithin` | crates/execution/src/gas_estimator.rs:202-216 | the peak never exceeds the limit, and equals it where everything is handed over |
| `Gas.PeakIsLeast` | crates/execution/src/gas_estimator.rs:202-216 | for every tree, a root frame limit gives every callee the allowance of the measuring run if and only if it reaches the peak |
| `Gas.CommitCoversUse` | crates/execution/src/gas_estimator.rs:202-216 | the peak is never below the gas the root frame uses |
| `Gas.EstimateKeepsAllowancesIff` | crates/execution/src/gas_estimator.rs:98-128 | for every tree, the estimate keeps every allowance if and only if it reaches the cap, or nothing is handed over whole and the intrinsic cost is within the stipend added or the peak exceeds the gas used by no more than it |
| `Gas.IntrinsicShortfall` | docs/gas-estimation.md:60-80 | a tree whose estimate is too low to keep its callee's allowance |
| `Gas.EstimateIsLeastIff` | crates/execution/src/gas_estimator.rs:91-128 | the estimate is never below the smallest limit at which the transaction succeeds, and equals it if and only if the cap does, or the last stipend is needed in full and neither the peak nor a refund lifts the estimate above the gas used |
| `Gas.EstimateIsNotLeast` | crates/execution/src/gas_estimator.rs:91-98 | a tree that succeeds at 21,700 where the estimate is 100,700 |
| `Health.AlarmState.FireIfCool` | crates/alerts/src/health.rs:115-125 | fires exactly when the cooldown has passed, and then starts a new one |
| `Health.AlarmState.Step` | crates/alerts/src/health.rs:129-149 | the timer runs while the condition holds, resets when it does not, and the cooldown survives recovery |
| `Health.FiresIff` | crates/alerts/src/health.rs:108-149 | over every ordered history an alarm fires at a reading if and only if its condition held on every reading back to one at least the wait earlier and no firing lies within the cooldown |
| `Health.HealthMonitor.Observe` | crates/alerts/src/health.rs:205-284 | one reading: the three alarms, their order, their contents, the latch and the stall clock |
| `Health.AlertFigures` | crates/alerts/src/health.rs:205-284 | over every history each alert carries its own reading's best and executed heights and peer count; a comparison alert the best peer, the distance to it, which exceeds the gap, and the wait; a stall the time since the reading that first showed the height |
| `Health.MonitorTracks` | crates/alerts/src/health.rs:168-284 | after any history the monitor's fields are what the history says: the runs, the last alerts, whether it was ever in sync, since when the height stands |
| `Health.BehindIff` | crates/alerts/src/health.rs:239-272 | raised if and only if the node was in sync before, behind throughout a long enough run of readings, and cooled down |
| `Health.AheadIff` | crates/alerts/src/health.rs:239-284 | raised if and only if ahead throughout a long enough run and cooled down |
| `Health.StalledSendsIff` | crates/alerts/src/health.rs:207-238 | raised if and only if the executed height stood still for the wait and the alarm cooled down |
| `Health.CooldownApart` | crates/alerts/src/health.rs:108-127 | two alerts of a kind are never closer than the cooldown |
| `Health.AlarmsIndependent` | crates/alerts/src/health.rs:168-284 | what one alarm raises depends on nothing that belongs to another |
| `HealthPause.BehindPauseIff` | crates/alerts/src/health.rs:240-258 | over every history, and whichever stretches next to a peerless reading a standing timer counts, resetting the behind timer without peers and letting it stand still raise the same alerts if and only if no alert of the latter has a peerless reading within its wait |
| `HealthPause.AheadPauseIff` | crates/alerts/src/health.rs:240-284 | the same of the ahead timer |
| `HealthPause.ResetDelays` | crates/alerts/src/health.rs:240-250 | a history at whose end every standing timer sends and the code does not |
| `Transfers.TransfersInTransaction` | crates/alerts/src/value.rs:132-153 | returns the list that `Transfers.AllTransfersIff` describes |
| `Transfers.Walk` | crates/alerts/src/value.rs:156-187 | appends, frame by frame, the recursive list of a trace |
| `Transfers.WalkIsExact` | crates/alerts/src/value.rs:132-208 | the list is, in pre-order and once each, the transfers made by frames with no undone frame at or above them, and all of these |
| `Transfers.AllTransfersIff` | crates/alerts/src/value.rs:132-208 | a transfer is listed if and only if the transaction succeeded and it is its own, of positive value to someone else, under the empty path and first, or a frame made it that is not undone, nor any above it: positive value, from its caller to another, as a plain call to the owner, a creation to the created address or else the owner, or a self-destruct to the owner, with exactly those parties, value, kind and path; none is listed twice |
| `Transfers.PositionsOrdered` | crates/alerts/src/value.rs:156-187 | the order is pre-order |
| `Transfers.DottedInjective` | crates/alerts/src/value.rs:163-187 | different positions have different dotted paths |
| `Transfers.DottedIs` | crates/alerts/src/value.rs:158-159 | a path is the path above, a dot unless that is empty, and the index in decimal |
| `DedupKeys.KeyIdentifies` | crates/alerts/src/alert.rs:347-379 | two alerts have equal keys if and only if they are of one kind and agree on the fields that name the event |
| `DedupKeys.TransferKeysDistinct` | crates/alerts/src/alert.rs:373-378 | different transfers of one transaction have different keys |
| `Movement.MovementLog.Put` | crates/alerts/src/movement.rs:81-86 | the log holds the most recent distinct blocks of its history, up to its capacity |
| `Movement.MovementLog.LargestMovement` | crates/alerts/src/movement.rs:91-94 | reading finds what is held and keeps no entry alive |
| `Movement.PutKeeps` | crates/alerts/src/movement.rs:60-86 | recording in the bounded log is recording in the unbounded history and forgetting the rest |
| `Movement.SkipIff` | crates/alerts/src/movement.rs:81-129 | a block is skipped if and only if the log still holds it and its latest record is within the filter, and known to have moved if and only if the log holds it and its latest record is above; unrecorded and evicted blocks are neither |
| `Movement.NetSumIsFlow` | crates/alerts/src/movement.rs:24-40 | the nets of the accounts of a set, added up one by one, are what flows into the set less what flows out |
| `Movement.NetsCancel` | crates/alerts/src/movement.rs:24-40 | over any transfer list the nets of all accounts sum to zero, and no other account has one |
| `Movement.NetOfBounded` | crates/alerts/src/movement.rs:24-40 | the net of a set of accounts is at most the filter for each of them |
| `Movement.FilterGuarantee` | crates/alerts/src/movement.rs:24-40 | in a block whose nets are within the filter, a transfer on no cycle is at most the filter times the accounts upstream of its sender, whatever the rest of the block does |
| `Movement.BoundedIff` | crates/alerts/src/movement.rs:24-40 | for every list of payers and payees and every filter, that bound holds of a transfer whatever the amounts if and only if the transfer is on no cycle |
| `Movement.SkippedBlockIsQuiet` | crates/alerts/src/movement.rs:122-129 | the guarantee for a block that `decide` skips |
| `Movement.CycleEscapes` | crates/alerts/src/movement.rs:34-40 | a loan repaid within the block is skipped at every filter, whatever its size |
| `Movement.BoundIsAttained` | crates/alerts/src/movement.rs:26-32 | for every number of upstream accounts and every filter, a skipped block without cycles holds a transfer of exactly the filter times that number |
| `Movement.HidesNothingIff` | crates/alerts/src/movement.rs:24-32 | skipped blocks hide no transfer on no cycle above a positive filter, of senders with n upstream accounts, if and only if n is at most one |
| `Movement.ZeroFilterSkipsIff` | crates/alerts/src/movement.rs:117-129 | a filter of zero skips exactly the blocks recorded as moving nothing |
| `Watcher.PegoutWatcher.constructor` | crates/alerts/src/service.rs:120-166 | a watcher that has examined nothing |
| `Watcher.PegoutWatcher.DeliverOne` | crates/alerts/src/service.rs:928-950 | a full memory is cleared first; a key not remembered is delivered and remembered |
| `Watcher.PegoutWatcher.ProcessBlock` | crates/alerts/src/service.rs:580-609 | a block that cannot be read changes nothing; one that can is examined, its alerts delivered, its skips noted, its hash and alerts remembered; `WatchMail.ObservedIs` says which alerts those are |
| `Watcher.PegoutWatcher.RecheckReorged` | crates/alerts/src/service.rs:487-527 | the examined recent heights whose block was replaced are examined again in ascending order |
| `Watcher.PegoutWatcher.RecheckOne` | crates/alerts/src/service.rs:498-526 | what the old block gave and the new one does not is withdrawn |
| `Watcher.PegoutWatcher.FindWithdrawn` | crates/alerts/src/service.rs:476-478 | the keys of the first list not in the second, in order |
| `Watcher.PegoutWatcher.ReportSkipped` | crates/alerts/src/service.rs:535-571 | each range is said once and cleared |
| `Watcher.PegoutWatcher.SweepOnce` | crates/alerts/src/service.rs:447-472 | a sweep is the recheck, the walk to the head or to the first unreadable block, the forgetting of old heights and the report; examined heights stay below the next block |
| `WatchRuns.SweepSettles` | crates/alerts/src/service.rs:447-527 | after any sweep, failures or not, the next block is past the head or unreadable, every recent examined height whose block can be read holds the canonical hash, and a height is held if and only if it was before or was walked over, and is within 128 of the head or the sweep did not reach the head |
| `WatchRuns.RunWatches` | crates/alerts/src/service.rs:447-472 | over every run, all heights from the start to the next block are examined, except those more than 128 below the highest head seen |
| `WatchRuns.SweepAgrees` | crates/alerts/src/service.rs:447-527 | after an error-free sweep, whatever the chain did before, every watched height from 128 below the highest head seen to the head was examined as its canonical block |
| `WatchMail.RunTells` | crates/alerts/src/service.rs:925-950 | over every run: every alert observed in an examined block was handed to the sinks, none twice between two clears, at most 50,000 are remembered, and they are cleared only when full |
| `WatchMail.RepeatNeedsForgetting` | crates/alerts/src/service.rs:928-950 | two deliveries of one key have a clear between them |
| `WatchMail.WithdrawnIff` | crates/alerts/src/service.rs:487-527 | a sweep withdraws an alert if and only if it was observed at a recent height whose block was replaced by a readable one that lacks it |
| `WatchMail.TrailIff` | crates/alerts/src/service.rs:447-527 | a sweep examines a height if and only if it is at most 128 below the head, stored, and was seen as another block, or every height from the next block up to it is stored and it is not past the head |
| `WatchMail.WithdrawalTrueIff` | crates/alerts/src/service.rs:515-524 | a withdrawn alert is in no block the watcher holds after the sweep if and only if no other height gives it, in the block the sweep examines there or, where it does not look, in the one examined before |
| `WatchMail.MovedIsWithdrawn` | crates/alerts/src/service.rs:515-524 | a sweep that withdraws an alert although it holds the block that now gives it |
| `WatchMail.WalkedTrail` | crates/alerts/src/service.rs:447-527 | a sweep examines exactly the readable replaced heights and those it walks over |
| `WatchMail.WalkedUpdates` | crates/alerts/src/service.rs:447-527 | after the walk of a sweep the heights it examined hold what it found there, and all others what they held before |
| `WatchMail.ObservedIs` | crates/alerts/src/service.rs:580-777 | what a sweep observes at a height it examines is the block's peg-outs, followed by its replay's alerts if and only if the contract watch is on, the block is near enough, recorded above the filter or not at all, and replayed |
| `WatchMail.PegoutsAlwaysTold` | crates/alerts/src/service.rs:588-609 | whatever the contract watch decides, every peg-out alert of a block a sweep examines is observed there and handed to the sinks |
| `WatchMail.NothingQuietlyMissed` | crates/alerts/src/service.rs:535-780 | of every block a sweep examines with the contract watch on, each alert its replay would find is handed to the sinks, or a line names a range of skipped blocks around it, or its recorded movement is within the filter; its peg-outs are in `WatchMail.PegoutsAlwaysTold` |
| `WatchMail.SkipsNamed` | crates/alerts/src/service.rs:573-609 | every block examined without the contract watch, because it is too far behind, its state is gone or nothing was recorded of it, is inside the range reported for that reason, and a range begins and ends at such a block |
| `SegmentRuns.OrderClaims` | crates/cli/examples/build_segments.rs:91-99 | the tried order is the sorted listing with the first adjacent chunk moved to the front, nothing added or lost |
| `SegmentRuns.FreshStart` | crates/cli/examples/build_segments.rs:137-148 | a directory with one file a chunk and no process satisfies the invariant, and with nothing running also what completeness starts from |
| `Segments.StepKeeps` | crates/cli/examples/build_segments.rs:85-130 | every step of every process keeps: one file a chunk, what a process holds is its own running file, a live process's running files are held or about to be reclaimed |
| `Segments.ChunksSafe` | crates/cli/examples/build_segments.rs:85-170 | over every interleaving with crashes, restarts and listings of any content, each chunk is in exactly one file, none is lost, no two processes run the same one |
| `Segments.MeasureFalls` | crates/cli/examples/build_segments.rs:148-170 | every step but a start or a crash lowers the measure, with listings that name chunks of the directory, out of date or not |
| `Segments.RunsEnd` | crates/cli/examples/build_segments.rs:148-170 | so without them no run is longer than the measure of where it began |
| `SegmentRuns.LiveCanStep` | crates/cli/examples/build_segments.rs:85-170 | and none is stuck: a process that has not stopped always has a step, with a full listing in claim order where it lists |
| `SegmentRuns.AllSettled` | crates/cli/examples/build_segments.rs:85-170 | without crashes and with listings that miss nothing waiting, when all have stopped and one because it found nothing, every chunk whose name parses is done or failed |
| `SegmentRuns.SettledOnce` | crates/cli/examples/build_segments.rs:148-170 | over every run a chunk comes to be done exactly when a run of it finishes and failed exactly when one fails, and no chunk is ended twice |
| `SegmentRuns.FailureStops` | crates/cli/examples/build_segments.rs:148-170 | over every run a process that failed a chunk or was killed takes no further step before it is started again |
| `SegmentRuns.AdjacentFirst` | crates/cli/examples/build_segments.rs:147-162 | whatever the others do meanwhile, a process that finished a chunk lists next, and tries the chunk beginning after that one's end first where it is listed |
| `SegmentRuns.NothingLeftRunning` | crates/cli/examples/build_segments.rs:117-130 | once a worker, restarted or not, is past reclaiming, the only chunk running under its id is the one it holds |
| `SegmentRuns.SharedIdRunsTwice` | crates/cli/examples/build_segments.rs:117-130 | with two live workers under one id both can run the same chunk |
| `Coverage.Replayer.RecordSpan` | crates/cli/examples/verify_range.rs:199-225 | the span is written under its first block and its blocks are no longer gaps; an empty one writes nothing |
| `Coverage.Replayer.EndRun` | crates/cli/examples/verify_range.rs:230-242 | the open run ends just before the failed block, which becomes a gap |
| `Coverage.Replayer.Record` | crates/cli/examples/verify_range.rs:724-752 | what each verdict does to the run and the tables, for a range and for a list |
| `Coverage.Replayer.Block` | crates/cli/examples/verify_range.rs:537-770 | one block of the loop: the stop at too many failures, the carried state, the verdict, the record and the counts |
| `Coverage.Replayer.Replay` | crates/cli/examples/verify_range.rs:537-914 | the loop with its early ends, and the last run closed after it |
| `CoverageVerdicts.SessionIff` | crates/cli/examples/verify_range.rs:537-770 | over every replay a block ends up failed if and only if the replay gets to it, it can be read, and it has no state, does not run or some comparison differs, and verified if and only if the replay gets to it and its root was compared and all matched; getting to it means that nothing before broke the replay off and failures are to spare |
| `CoverageCounts.SessionReports` | crates/cli/examples/verify_range.rs:537-770 | over every replay the divergence count is the number of blocks it got to that could be tried and do not run or differ conclusively, the unverifiable count those incomplete, without a state, or judged by a converted root alone; it names as its end the block it explained or the one before the first with no failure to spare, and no other; it bails if and only if it got to an unreadable block or lost its state |
| `CoverageRuns.RecordIsSound` | crates/cli/examples/verify_range.rs:199-242 | over every outcome sequence of a session, early stop and explained exits included: spans are disjoint, hold only verified blocks and no gap, and every failed block is a gap; they hold all verified blocks, in a range as maximal runs, unless an unreadable block broke the session off with a run open, which is lost |
| `CoverageRuns.FailureEndsRun` | crates/cli/examples/verify_range.rs:227-242 | over every session, broken off or not, a failed block is a gap and uncovered, and a run before it ends at the block before it |
| `CoverageRuns.CoveredAreConfirmed` | crates/cli/examples/verify_range.rs:537-770 | every covered block is one of the replay's, with its root compared and matched |
| `CoverageRuns.LostStateVerifiesNothing` | crates/cli/examples/verify_range.rs:576-588 | a sequential replay that lost its carried state verifies nothing more |
| `CoverageRuns.FailuresBounded` | crates/cli/examples/verify_range.rs:538-548 | there are never more failures than allowed |
| `CoverageRuns.CountsAreFailures` | crates/cli/examples/verify_range.rs:526-770 | over every session the divergent and unverifiable counts add up to the failed blocks, or the session bailed with exactly one failed block more |
| `CoverageRuns.LaterSession` | crates/storage/src/silent_store.rs:136-147 | over earlier records a block is covered if and only if this session covers it, or an earlier span does that begins where none of this session's does |
| `CoverageRuns.LaterGaps` | crates/storage/src/silent_store.rs:149-176 | over earlier records the gaps are this session's and the earlier ones it does not cover |
| `CoverageRuns.FailedYetCovered` | crates/storage/src/silent_store.rs:136-176 | a block that fails now is a gap, and is covered too if and only if an earlier span covers it that begins where none of this session's does |
| `CoverageRuns.CoveredAndGap` | crates/storage/src/silent_store.rs:136-176 | a block of an earlier span that a later session leaves failed, a gap and covered |
| `CoverageRuns.ShorterSessionForgets` | crates/storage/src/silent_store.rs:136-147 | a block covered before and, after a shorter session from the same first block, no more |

## Left out

- The confidence of the empirical Bernstein bound: that each gap's uncle-inclusive work is within the allowance is a hypothesis of the honest chain.
- `audit_own_chain` and the reporting of a contradicted checkpoint: one comparison.
- Long values stored outside trie nodes: the walks do not load them, and nodes here embed their values.
- RocksDB, files, SMTP, tracing and the other libraries; Keccak, signatures and proof of work.
- The exact bytes of a serialised node: a message is the node with its large children replaced by their hashes, which is all that content addressing uses. Which leaves are small enough to be embedded does not matter to any result.
- The per-key counters of a dry repair run, its progress lines, and the names of its checkpoint files.
- The order in which `diff_self` prints its lines, and the address labels.
- Programs that read the remaining gas, and frames that fail inside a successful transaction: outside the call trees of the estimator, as its documentation says.
- Sinks that fail: delivering is handing an alert to them, and the watcher does not try again.
- Debug builds of the repair tool, where a limit of zero from block 0 stops the program instead of wrapping around.
- Sub-second parts of the clock: the alarms count whole seconds.
- `breaches` and the direction of a transfer: a filter over the extracted list, with code lookups.
- Gas fees and block rewards among the balance changes that execution records: the nets are those of the transfers.
- What re-executing a block does: it is a parameter that names the alert keys. Peg-out checks, the periodic in-transit report, configuration reload and the inbox of alerts from elsewhere (delivered by the same call) are not part of the model.
- Chunk names as strings: a name is its place in the sorted order and what it parses to. A name that ends in two extensions, or a worker id that contains another's suffix, is not modelled. Renaming fails only when the source is missing.
- `run_chunk` and the segments it builds: a chunk finishes or fails.
- The reasons written into gaps, the build and time of a span, the decision rows, the two counters of compared and uncompared blocks, and what `--explain` prints.
- `SilentStore::covers` and `prune_gaps`: readers of the tables.
