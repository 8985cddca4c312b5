# Verified models of a queue monitor's core algorithms

The server of this repository watches job queues: it compiles filter expressions, keeps metrics over
sliding windows, evaluates change rules, elects one writer by an expiring Redis lock and coalesces
that writer's updates. This project models those algorithms in Dafny and proves what they promise,
for all inputs, all runs and all interleavings. `dafny verify dfyconfig.toml` checks everything.

Code that changes objects in place is modelled by classes whose methods are proved against
specification functions; the lemmas are about those functions. Clock readings, replies of the lock
service and outcomes of a batch are parameters. Numbers are exact: timestamps are integers, measured
values are reals.

| files | subject | main results |
|---|---|---|
| `Expressions`, `ExpressionMachine`, `ExpressionCorrectness`, `ExpressionExactness`, `ExpressionRoundTrip` | filter expressions flattened to RPN and two peephole passes | `CompileCorrect`, `CompileExact`, `FoldUnaryPreservesRuns`, `RoundTrip`, `FlatteningIsInjective` |
| `BinarySearch`, `Timeline`, `ChunkedStore` | a deque of partly trimmed chunks as one key-sorted sequence | the contracts of `Store`, `TrimIsExact`, `RangeIsExact`, `DeadCellNotRead`, `InclusiveBoundExact`, `TrimEndAsCoded` |
| `ChunkLayout`, `ChunkRuns`, `LostEntries`, `CacheReuse` | the same store with chunks taken into use again as coded | `AgreeExactly`, `DistinctHistory`, `EntryLost`, the contracts of `PeekingStore` |
| `Alignment`, `Aggregators`, `ChangeEvaluator` | incremental and cached window answers | `Update` of both classes, `AnswerIsExtremum`, `RecomputeIsChange`, `WindowIsCurrent`, `SumExactIff`, `PositiveSumExactIff`, `TickLeaksSkippedSlots` |
| `Estimator`, `StreamingStats` | Welford's algorithm with deletion, over a ring of buckets driven by a ticker | `Remove`, `Combine`, `DescribesMean`, `TickIfNeeded` with `Windowed`, `GetSummary` |
| `LockManager`, `WriteCache`, `WriteCacheRuns`, `WriterElection` | election by lease, coalesced writes, and both together | `OneUnexpiredOwner`, `OneOwnerExact`, `ModeFollowsReplies`, `CoalescingExact`, `IncrementsConserved`, `FlushScheduleIrrelevant`, `OneWriter`, `SerialExact` |
| `DecayingCounter`, `DecayingCounterLaws`, `DecayingCounterStart` | a rolling counter whose oldest chunk fades out | `SumWithinReach`, `EarlySumExact`, `EarlyWriteCounted`, `SumNeverGrows`, `SumIsSmooth`, `CountedInEveryRun` |
| `Quantile` | quantile, median, median absolute deviation | `QuantileCorrect`, `QuantileMonotone`, `MedianIsHalfQuantile`, `MedianExact`, `DeviationExact` |
| `AsyncIteration`, `AsyncIterationRuns` | pushed values meeting pull requests | `BufferFifo`, `KthGetsKth`, `IteratorFifo` |

What the source does not do as its own documentation or naming suggests, each with a proof:

- The expression compiler is right exactly on `Fragment` (`CompileExact`): a computed index may not end in an
  identifier path, a method may be called only on an identifier path, `+` on a literal only on a number, and no
  other operator, such as `~`, directly on a literal.
- `allocateChunk` is documented to pull a chunk out of the cache but only peeks at it. `Store` models the documented
  behaviour and `PeekingStore` the code. On every run of puts, trims and clears the two hold the same after every step
  if and only if no put spoils a chunk: takes a live one into use that holds anything but the very entry that is put, or
  appends to one that is in the deque twice (`AgreeExactly`). When the keys are distinct, as those of the aggregators
  are, this can be read off the documented run: no put needs a chunk while the one at the back of the cache is in use
  (`DistinctHistory`). For every chunk size, filling two chunks, trimming the first away, filling another and putting
  once more loses a whole chunk (`EntryLost`). The answers of the aggregators and of the change evaluator are those of
  the code exactly as far as their stores agree (`AsCoded` in both `Update` contracts).
- The chunk search passes `cursor`, one past the last live cell, as an inclusive bound. That is harmless for keys up
  to the last live one (`DeadCellNotRead`). Above it the two-argument trim keeps the intended entries of the store if
  and only if the dead cell behind the last chunk it keeps holds a key at or above the bound (`TrimEndAsCoded`);
  otherwise a hole or a removed entry comes to life (`DeadCellPassed`, `DeadCellComesToLife`).
- The running sum is not always that of the window. A tick that passes over slots forgets to subtract them
  (`SkippedSlotLeaks`), and one whose window start stays put subtracts the slot before it again
  (`UnmovedStartSubtractsTwice`). The answers of a run are exact if and only if these amounts are nil at every tick
  (`SumExactIff`): for positive samples, if and only if no tick meets a sample in such a slot (`PositiveSumExactIff`).
- `combine` weights both counts by one mean, so its mean is right exactly if the other estimator is empty or has the
  same mean, and there is a sample at all (`Combine`).
- `summary()` reads its count before the other fields bring the window up to date. The count agrees with them if and
  only if every slot emptied on the way was empty already (`GetSummary`); `LateSummary` is a run where it does not.
- Batches send increments before plain sets but hash sets before hash increments, so mixing both kinds on one cell can
  change the outcome (`MixedKindsDiffer`; `CoalescingExact` says exactly when).
- A phase of the decaying counter that restarts in mid-interval can forget a delta long before the window has passed
  (`DeltaMayVanish`; `CountedInEveryRun` says exactly when it does not).
- A data median of zero passed to `medianAbsoluteDeviation` is treated as missing: the given median is used if and
  only if it is not zero or the true one is zero too (`CenterExact`, `ZeroMedianIgnored`).
- Two managers can own the lock at once. A run never comes to that if and only if no manager is granted the lock
  after the lease of one that still takes itself for the owner (`OneOwnerExact`); `LateRenewalBreaksOwnership` is a
  run with two owners, `LateButAlone` one that renews late and has none.
- Even with a single owner at any time, writes can arrive out of order: a batch outlives the lock under which it was
  sent. There is never more than one batch under way if and only if no owner sends one while a former owner's is
  unanswered (`SerialExact`); otherwise the older one can win (`OvertakenMayComeLast`, `FormerOwnerComesLast`).
- `add` of the decaying counter keeps its argument, not the clock's time, as the last write, so that `getSum` without a
  time fails after a write without one (`Counter.GetSum`).

## Model

| member | source | states |
|---|---|---|
| Expressions.Emitter.ToRpn | src/server/lib/expressions/parse.ts:56-154 | appends to the shared context exactly the code of the tree: arguments last to first, right operand before left, test, consequent, alternate |
| Expressions.TokensInOrder | src/server/lib/expressions/parse.ts:56-154 | the compiled tokens of a binary operator, a conditional and a call, operand by operand |
| Expressions.OptimizeIdentifiers | src/server/lib/expressions/parse.ts:246-276 | the two index loops fold every identifier path, stopping before a method name, as the recursive pass does |
| Expressions.OptimizeUnary | src/server/lib/expressions/parse.ts:278-321 | the loop folds, keeps or skips unary operators on the literal just read, as the recursive pass does |
| Expressions.CompileUnaryLiteral | src/server/lib/expressions/parse.ts:278-321 | what every unary operator on every literal compiles to: the truth value, the type name, the negated number or boolean, or the tokens as they are |
| Expressions.ComputedIndexMangled | src/server/lib/expressions/parse.ts:246-276 | a computed index that is an identifier is joined, with a dot, to the nameless member node that follows |
| Expressions.ConvertToRpn | src/server/lib/expressions/parse.ts:39-50 | flattening followed by both passes in order |
| ExpressionMachine.FoldPopsTheLiteral | src/server/lib/expressions/parse.ts:281-284 | what a fold pops is exactly the literal that was just pushed |
| ExpressionMachine.FoldUnaryNeverLonger | src/server/lib/expressions/parse.ts:278-321 | the second pass never lengthens any token sequence |
| ExpressionMachine.FoldUnaryPreservesRuns | src/server/lib/expressions/parse.ts:278-321 | on every token sequence whose folds are safe, from every stack and under every meaning of the constructs, the machine ends with the same stack |
| ExpressionCorrectness.PathsFolded | src/server/lib/expressions/parse.ts:246-276 | on path-safe trees the first pass yields one dotted identifier per path and drops the member node that carries a method name |
| ExpressionCorrectness.UnarySafePathCode | src/server/lib/expressions/parse.ts:278-321 | the folds of compiled code are safe if and only if every unary operator applied to a literal is |
| ExpressionCorrectness.CompileCorrect | src/server/lib/expressions/parse.ts:39-50 | for every expression of the fragment, stack and lawful meaning, compiled code leaves the stack plus exactly the value of direct evaluation |
| ExpressionExactness.FoldPathsTotal | src/server/lib/expressions/parse.ts:246-276 | which tokens survive the first pass, counted, for any token sequence |
| ExpressionExactness.FoldUnaryTrails | src/server/lib/expressions/parse.ts:278-321 | under a meaning that counts skipped operators, folded code agrees with the original only if every fold was safe |
| ExpressionExactness.CompileExact | src/server/lib/expressions/parse.ts:39-50 | an expression belongs to the fragment if and only if its compiled code is right under every lawful meaning |
| ExpressionRoundTrip.ReadBack | src/server/lib/expressions/parse.ts:156-236 | the token loop, pushing trees instead of strings, computes what the machine computes in the pop orders of toInfix |
| ExpressionRoundTrip.RoundTrip | src/server/lib/expressions/parse.ts:172-233 | reading back flattened code leaves exactly the original tree on the stack |
| ExpressionRoundTrip.FlatteningIsInjective | src/server/lib/expressions/parse.ts:56-154 | different trees without method calls have different code |
| Searching.BinarySearch | src/server/lib/binary-search.ts:17-49 | refuses ranges out of bounds, and otherwise computes the specification search |
| Searching.SearchSorted | src/server/lib/binary-search.ts:34-48 | on sorted cells the result is an index of the needle or the complement of its insertion point |
| Searching.SearchLive | src/server/lib/chunked-associative-array.ts:46-55 | with the first dead cell as inclusive bound the result is still right if the needle is at most the last live key |
| Searching.DeadCellNotRead | src/server/lib/chunked-associative-array.ts:53-53 | in that case the dead cell, and everything after it, does not influence the result |
| Searching.SearchMoved | src/server/lib/binary-search.ts:34-48 | the same cells further along the array give the same index, moved as far |
| Searching.LogarithmicProbes | src/server/lib/binary-search.ts:34-48 | the search reads no more cells than the logarithm of the length |
| Searching.EqualKeys | src/server/lib/chunked-associative-array.ts:46-55 | among equal keys the search finds the one in the middle |
| Searching.SearchPastEnd | src/server/lib/binary-search.ts:34-48 | for a needle above every live key the dead cell alone decides the result |
| Searching.InclusiveBoundExact | src/server/lib/chunked-associative-array.ts:46-55 | the inclusive bound stays within the live cells if and only if the needle is at most the last live key or the dead cell does not hold a smaller one |
| Searching.DeadCellPassed | src/server/lib/chunked-associative-array.ts:46-55 | three inputs with the same live cells: the index passes a hole and a removed smaller key, and stops before a removed larger one |
| ChunkedStore.Chunk.FindFirstIndexOfGreaterEqualElements | src/server/lib/chunked-associative-array.ts:46-55 | for every key: a position that separates smaller from larger keys if the search stays within the live cells, and one past the dead cell otherwise; for keys up to the last live one it is a function of the entries alone, also when keys repeat |
| ChunkedStore.Chunk.CutBackAsCoded | src/server/lib/chunked-associative-array.ts:327-337 | what the two-argument trim leaves of the chunk at which it stops: a prefix of the live cells, cut at the bound, if and only if the search stays within them; otherwise all of them and the dead cell |
| ChunkedStore.Store.AllocateChunk | src/server/lib/chunked-associative-array.ts:82-107 | takes a chunk out of the cache, or makes one: empty, with room, shared with no other chunk |
| ChunkedStore.Store.Put | src/server/lib/chunked-associative-array.ts:121-134 | with the documented cache, appends if and only if the key is not below the last key, and says how the chunks change; dead cells stay holes until something is dropped or cut |
| ChunkedStore.Store.Trim | src/server/lib/chunked-associative-array.ts:339-354 | removes everything below the key and nothing above it, as so many whole chunks and a cut of the next |
| ChunkedStore.Store.TrimEnd | src/server/lib/chunked-associative-array.ts:327-337 | with the search bounded at the last live cell, removes everything above the key and nothing below it |
| ChunkedStore.Store.TrimBetween | src/server/lib/chunked-associative-array.ts:321-355 | the two-argument form, with that bound, is a cut from above followed by a cut from below |
| ChunkedStore.Store.TrimEndAsCoded | src/server/lib/chunked-associative-array.ts:327-337 | the upper bound as coded: the live keys of the whole store are a prefix of what they were, namely those below the bound, if and only if the search in the last chunk kept stays within its live cells; otherwise one dead cell joins them, always so above all keys of an untouched chunk |
| ChunkedStore.DeadCellComesToLife | src/server/lib/chunked-associative-array.ts:327-337 | a run of the store that ends with a hole among its keys |
| ChunkedStore.Store.Range | src/server/lib/chunked-associative-array.ts:243-274 | yields the entries in bounds in order, less possibly some at the lower bound |
| ChunkedStore.Store.GetValues | src/server/lib/chunked-associative-array.ts:176-211 | gives the values of such a range, including the slice taken for whole chunks |
| ChunkedStore.Store.GetValuesFrom | src/server/lib/chunked-associative-array.ts:176-211 | with one argument gives the values from the key to the end |
| ChunkedStore.Store.GetAllValues | src/server/lib/chunked-associative-array.ts:158-174 | without arguments copies all values, in order, into an array of the right size |
| ChunkedStore.Store.Size | src/server/lib/chunked-associative-array.ts:276-287 | the number of entries |
| ChunkedStore.Store.FirstKey | src/server/lib/chunked-associative-array.ts:289-292 | the first key, if there is one |
| ChunkedStore.Store.LastKey | src/server/lib/chunked-associative-array.ts:294-297 | the last key, if there is one |
| ChunkedStore.Store.Clear | src/server/lib/chunked-associative-array.ts:357-360 | leaves an empty sequence |
| CacheReuse.PeekingStore.AllocateChunk | src/server/lib/chunked-associative-array.ts:97-107 | as coded the chunk at the back of the cache is emptied and stays there, whoever else uses it |
| CacheReuse.PeekingStore.PutPeeking | src/server/lib/chunked-associative-array.ts:97-134 | on every state, shared chunks included, accepts if and only if the key is not below the last one and then does what the value model says; from a sound state an accepted entry is what the contents grow by if and only if no live chunk is taken into use, or it held just that entry |
| CacheReuse.PeekingStore.Trim | src/server/lib/chunked-associative-array.ts:339-354 | on every state, drops chunks into the cache and cuts the next as the value model says |
| CacheReuse.PeekingStore.Clear | src/server/lib/chunked-associative-array.ts:357-360 | empties the main deque only |
| ChunkLayout.CutIndexCuts | src/server/lib/chunked-associative-array.ts:46-55 | the index that the search gives, and that the entries alone determine, separates smaller from larger keys |
| ChunkLayout.PutExact | src/server/lib/chunked-associative-array.ts:97-134 | while both stores hold the same chunk by chunk, a put leaves the documented contents if and only if it spoils no chunk |
| ChunkRuns.RunMirrors | src/server/lib/chunked-associative-array.ts:97-134 | a run of puts, trims and clears that spoils nothing leaves, as coded, the documented entries in every chunk, trims cutting alike |
| ChunkRuns.AgreeExactly | src/server/lib/chunked-associative-array.ts:97-134 | for every run the contents as coded are the documented ones after every step if and only if no put spoils a chunk |
| ChunkRuns.TakesExact | src/server/lib/chunked-associative-array.ts:97-134 | what a client knows of the cache from the documented run tells whether a put takes a live chunk into use |
| ChunkRuns.NeverLiveNeverSpoiled | src/server/lib/chunked-associative-array.ts:97-134 | a run that never does spoils nothing |
| ChunkRuns.DistinctHistory | src/server/lib/chunked-associative-array.ts:97-134 | for every history of distinct keys the store as coded follows the documented one if and only if it never does |
| LostEntries.EntryLost | src/server/lib/chunked-associative-array.ts:97-134 | for every chunk size: filling two chunks, trimming the first away, filling a third and putting one entry more loses the third |
| ChunkRuns.HistoryExact | src/server/lib/chunked-associative-array.ts:97-134 | the history of a store is followed by the code if and only if no put of it spoils a chunk, and then leaves the same entries in every chunk |
| Timeline.TrimIsExact | src/server/lib/chunked-associative-array.ts:315-355 | with strictly increasing keys a trim keeps exactly the keys from the bound on |
| Timeline.TrimBetweenIsExact | src/server/lib/chunked-associative-array.ts:315-355 | with strictly increasing keys the two-argument trim keeps exactly the keys from start to below end |
| Timeline.RangeIsExact | src/server/lib/chunked-associative-array.ts:243-274 | with strictly increasing keys range and getValues are filters by key |
| Timeline.TrimKeepsLast | src/server/lib/chunked-associative-array.ts:339-354 | with repeated keys a trim keeps everything above the bound and the value last written at every key from it on |
| Timeline.RangeKeepsLast | src/server/lib/chunked-associative-array.ts:243-274 | with repeated keys a range holds the value last written at every key in bounds |
| Timeline.LastAtExact | src/server/rules/change-condition-evaluator.ts:139-142 | the value last written at a key is that of the last entry with it |
| Alignment.AlignBounds | src/server/rules/change-condition-evaluator.ts:121-123 | aligning a nonnegative time gives the multiple at most one interval below |
| Alignment.AlignNegative | src/server/rules/change-condition-evaluator.ts:121-123 | a negative time is rounded up to the next multiple, because the remainder truncates toward zero |
| Alignment.AlignUnique | src/server/rules/change-condition-evaluator.ts:121-123 | it is the only such multiple |
| Aggregators.MaxIsMaximum | src/server/metrics/aggregators/maxAggregator.ts:32-36 | the recomputed maximum of a non-empty window is its largest element |
| Aggregators.MinIsMinimum | src/server/metrics/aggregators/minAggregator.ts:27-31 | the recomputed minimum of a non-empty window is its smallest element |
| Aggregators.AnswerIsExtremum | src/server/metrics/aggregators/maxAggregator.ts:32-41 | the answer of the maximum, or the minimum, aggregator is attained in the window and bounds all samples in it, and its count is their number |
| Aggregators.SlidingTimeWindowAggregator.GetPreviousSlice | src/server/metrics/aggregators/SlidingTimeWindowAggregator.ts:94-99 | reads from the trimmed store what the complete log has in the slot before the window |
| Aggregators.SlidingTimeWindowAggregator.GetCurrentValues | src/server/metrics/aggregators/SlidingTimeWindowAggregator.ts:101-103 | reads from the trimmed store what the complete log has from the window start on |
| Aggregators.SlidingTimeWindowAggregator.TickIfNeeded | src/server/metrics/aggregators/SlidingTimeWindowAggregator.ts:113-134 | ticks when the replay of the complete log does, and leaves the answer of the window it moves to |
| Aggregators.SlidingTimeWindowAggregator.Trim | src/server/metrics/aggregators/SlidingTimeWindowAggregator.ts:105-111 | removes nothing that a later window reads |
| Aggregators.SlidingTimeWindowAggregator.Update | src/server/metrics/aggregators/SlidingTimeWindowAggregator.ts:137-144 | over the documented store and after every update, whatever was trimmed, maximum, minimum and their count are those of all samples ever added since the window start of the last tick, and the sum is theirs plus what ticks have leaked; the store as coded held the same at every moment if and only if no put of the history needed a chunk while the one at the back of the cache was in use |
| Aggregators.WindowIsCurrent | src/server/metrics/aggregators/SlidingTimeWindowAggregator.ts:113-134 | on every run nothing leaves before the first tick, and from then on the window starts no later than windowSize ago and less than two slots earlier |
| Aggregators.SumIsExact | src/server/metrics/aggregators/sumAggregator.ts:32-41 | one sufficient condition: when no slot is skipped and the window is a whole number of slots the running sum is the brute-force sum of the window |
| Aggregators.TickLeaksSkippedSlots | src/server/metrics/aggregators/sumAggregator.ts:32-36 | what one tick adds to the error of the sum, on any run and for any window: the samples in the slots it passes over, or, when the window start stays put, less the samples in the slot before it |
| Aggregators.SumExactIff | src/server/metrics/aggregators/sumAggregator.ts:32-41 | for every run and window the answer is the brute-force sum after every sample if and only if what each tick overlooks sums to nothing |
| Aggregators.PositiveSumExactIff | src/server/metrics/aggregators/sumAggregator.ts:32-41 | for positive samples, if and only if no tick passes over a sample and none whose window start stays put has one in the slot before it |
| Aggregators.SkippedSlotLeaks | src/server/metrics/aggregators/sumAggregator.ts:32-36 | a concrete run in which two samples leave the window without being subtracted |
| Aggregators.UnmovedStartSubtractsTwice | src/server/metrics/aggregators/sumAggregator.ts:32-36 | a concrete run without skipped slots, the window being two and a half of them, that subtracts two samples twice |
| ChangeEvaluator.RepeatedTimestamp | src/server/rules/change-condition-evaluator.ts:177-190 | writing the newest timestamp again changes no answer |
| ChangeEvaluator.InBothExact | src/server/rules/change-condition-evaluator.ts:154-175 | the samples compared are exactly those that both windows have, in order |
| ChangeEvaluator.DeltaIs | src/server/rules/change-condition-evaluator.ts:166-169 | a change is the difference from the previous to the current value or, as a share, the rate that leads from one to the other, and zero where there is none |
| ChangeEvaluator.RecomputeIsChange | src/server/rules/change-condition-evaluator.ts:154-190 | recomputing gives nothing before the log spans both windows and the shift, and then the aggregate of those changes, which are determined |
| ChangeEvaluator.SummedChange | src/server/rules/change-condition-evaluator.ts:154-190 | without percentages the summed change is the total of the current window less that of the previous one, over the samples that both have |
| ChangeEvaluator.ChangeConditionEvaluator.GetNormalizedRange | src/server/rules/change-condition-evaluator.ts:133-144 | holds at each index the value last written at that sample time, and nothing where there is none |
| ChangeEvaluator.ChangeConditionEvaluator.GetDiffs | src/server/rules/change-condition-evaluator.ts:154-175 | the differences of last-written values exactly timeShift plus windowSize apart, where both exist |
| ChangeEvaluator.ChangeConditionEvaluator.Trim | src/server/rules/change-condition-evaluator.ts:125-131 | removes nothing that a later window reads |
| ChangeEvaluator.ChangeConditionEvaluator.GetChange | src/server/rules/change-condition-evaluator.ts:177-190 | including the cached path, the answer of recomputation from the complete log |
| ChangeEvaluator.ChangeConditionEvaluator.Update | src/server/rules/change-condition-evaluator.ts:192-206 | over the documented store every update returns what recomputation from the complete, never trimmed log gives, the aggregate, by any function, of the changes between the two windows; the store as coded held the same at every moment if and only if no put of the history spoiled a chunk |
| Estimator.Without | src/server/stats/online-normal-estimator.ts:110-113 | the moments of a multiset do not depend on the order in which samples are taken |
| Estimator.TracksAdd | src/server/stats/online-normal-estimator.ts:163-169 | the algebra of adding: mean and squared deviations of one more sample |
| Estimator.TracksRemove | src/server/stats/online-normal-estimator.ts:196-199 | the algebra of removing any sample |
| Estimator.TracksReplace | src/server/stats/online-normal-estimator.ts:207-214 | the algebra of replacing a sample |
| Estimator.TracksCombine | src/server/stats/online-normal-estimator.ts:218-232 | the combined squared deviations are those about the true common mean |
| Estimator.DescribesMean | src/server/stats/online-normal-estimator.ts:137-140 | a valid estimator's mean and squared deviations are determined by the multiset of its samples alone |
| Estimator.CombineStep | src/server/stats/online-normal-estimator.ts:218-232 | combining describes the union in its deviations always, in its mean if and only if the other set is empty or the means agree |
| Estimator.OnlineNormalEstimator.Add | src/server/stats/online-normal-estimator.ts:163-169 | the fields describe the samples with the new one |
| Estimator.OnlineNormalEstimator.Remove | src/server/stats/online-normal-estimator.ts:184-200 | refuses if and only if there are no samples, and otherwise describes the samples without the given one |
| Estimator.OnlineNormalEstimator.Replace | src/server/stats/online-normal-estimator.ts:202-216 | describes the samples with one exchanged, or added if there was none to replace |
| Estimator.OnlineNormalEstimator.Combine | src/server/stats/online-normal-estimator.ts:218-232 | NaN if and only if both are empty; otherwise the squared deviations are exact for both sample sets, and the whole state is if and only if the other is empty or the means agree |
| Estimator.OnlineNormalEstimator.Variance | src/server/stats/online-normal-estimator.ts:267-269 | the mean squared deviation of the samples from their mean |
| Estimator.OnlineNormalEstimator.VarianceUnbiased | src/server/stats/online-normal-estimator.ts:275-279 | the same with one degree of freedom less |
| StreamingStatistics.TimeTicker.TickIfNeeded | src/server/lib/time-ticker.ts:39-53 | the whole intervals since the last tick; the remainder, less than one interval, is discarded |
| StreamingStatistics.SlidingTimeWindow.Tick | src/server/stats/sliding-time-window.ts:152-166 | the next slot becomes current, and is handed out for emptying once the ring has come round |
| StreamingStatistics.StreamingStats.Rotate | src/server/stats/streaming-stats.ts:62-71 | never removes from an empty estimator; takes exactly the slot's samples out |
| StreamingStatistics.StreamingStats.OnTick | src/server/stats/streaming-stats.ts:62-71 | one tick empties one slot, and the estimator again describes exactly the ring |
| StreamingStatistics.AgedTick | src/server/stats/sliding-time-window.ts:152-166 | a tick keeps the age bounds of all other slots |
| StreamingStatistics.AgedSettles | src/server/lib/time-ticker.ts:39-53 | after a clock advance of any length the bounds hold again, although remainders are lost |
| StreamingStatistics.HeldAge | src/server/stats/sliding-time-window.ts:176-178 | what is held is younger than 2 * capacity - 1 intervals |
| StreamingStatistics.Retained | src/server/stats/sliding-time-window.ts:152-178 | of everything ever brought, all samples of age up to capacity - 1 intervals are held and none of 2 * capacity - 1 or more |
| StreamingStatistics.CountKept | src/server/stats/sliding-time-window.ts:152-178 | a clock advance leaves the number of samples as it is if and only if none of the slots it empties holds one |
| StreamingStatistics.AdvancedTwice | src/server/stats/sliding-time-window.ts:176-178 | reading again at the same time changes nothing |
| StreamingStatistics.StreamingStats.Turn | src/server/lib/time-ticker.ts:39-53 | so many ticks empty exactly that many slots after the current one, or all of them, and move on by as many |
| StreamingStatistics.StreamingStats.TickIfNeeded | src/server/stats/sliding-time-window.ts:176-178 | empties exactly the slots that come after the current one within the ticks since the last, only samples older than capacity - 1 intervals, and keeps the statistics exact |
| StreamingStatistics.StreamingStats.Update | src/server/stats/streaming-stats.ts:50-56 | the invariant over every run of updates and clock advances |
| StreamingStatistics.StreamingStats.Count | src/server/stats/streaming-stats.ts:45-48 | the number of samples in the window |
| StreamingStatistics.StreamingStats.GetMean | src/server/stats/streaming-stats.ts:73-76 | the mean of the samples in the window |
| StreamingStatistics.StreamingStats.PopulationVariance | src/server/stats/streaming-stats.ts:78-81 | their variance |
| StreamingStatistics.StreamingStats.SampleVariance | src/server/stats/streaming-stats.ts:88-91 | their unbiased variance |
| StreamingStatistics.StreamingStats.GetSummary | src/server/stats/streaming-stats.ts:98-107 | the count from before beside the other fields, each at its own reading of the clock; the count agrees with them if and only if no slot emptied meanwhile holds a sample |
| StreamingStatistics.LateSummary | src/server/stats/streaming-stats.ts:98-107 | a run whose summary counts a sample that its mean and variances no longer include |
| Locking.LockManager.Acquire | src/server/redis/lock-manager.ts:128-159 | an owner stays; otherwise the reply makes the manager owner or electing, with the right timer alone |
| Locking.LockManager.Renew | src/server/redis/lock-manager.ts:161-199 | keeps the lock only if it was extended; the lock is given back unless it had expired; a manager that is not the owner starts electing |
| Locking.LockManager.Release | src/server/redis/lock-manager.ts:201-220 | ends stopped, and gives back the lock if there was one |
| Locking.LockManager.Stop | src/server/redis/lock-manager.ts:120-126 | ends stopped from any mode |
| Locking.LockManager.Start | src/server/redis/lock-manager.ts:113-118 | tries to acquire only when stopped |
| Locking.SafeStep | src/server/redis/lock-manager.ts:113-235 | every step of any manager, with any request or reply lost, keeps every unexpired lock backed by the live lease |
| Locking.OneUnexpiredOwner | src/server/redis/lock-manager.ts:113-235 | in every reachable state each manager is in exactly one mode, and at most one has an unexpired lock |
| Locking.ModeFollowsReplies | src/server/redis/lock-manager.ts:113-235 | in every run a manager is owning exactly if the last request of its that was answered was granted or extended and it did not give up since, electing exactly if it has asked otherwise, and stopped exactly if it was not started or was stopped |
| Locking.KeepsTrying | src/server/redis/lock-manager.ts:113-235 | a manager that was started, asked or renewed, and neither released nor stopped since, is electing or owning, whatever it was answered |
| Locking.GivenBack | src/server/redis/lock-manager.ts:161-220 | a lock that is released, or whose renewal failed before it expired, is free at once when the request to give it back arrives, and an expired one is not given back |
| Locking.OneOwner | src/server/redis/lock-manager.ts:113-235 | one sufficient condition: if every owner renews before its lock expires, no reachable state has two owners |
| Locking.DoublesExact | src/server/redis/lock-manager.ts:113-235 | a step makes a second owner if and only if it grants the lock to a manager that is none while the lease has lapsed under another that takes itself for one |
| Locking.OneOwnerExact | src/server/redis/lock-manager.ts:113-235 | for every run no state has two owners if and only if no step is such a grant |
| Locking.TimelyNeverDoubles | src/server/redis/lock-manager.ts:161-199 | renewing in time meets that condition |
| Locking.LateButAlone | src/server/redis/lock-manager.ts:113-199 | and is not needed for it: a run with a late owner and never two |
| Locking.LateOwnerIsDoubled | src/server/redis/lock-manager.ts:128-159 | once an owner's lease has lapsed the next manager that asks becomes a second owner |
| Locking.LateRenewalBreaksOwnership | src/server/redis/lock-manager.ts:113-199 | a run with a late renewal that ends with two owners |
| Locking.SteadyOwner | src/server/redis/lock-manager.ts:137-147 | a renew timer shorter than the lease keeps the lock for good against a rival that keeps asking |
| WriteCaching.BufferHoldsNet | src/server/redis/write-cache.ts:181-205 | the buffer holds the net increment and the last value of every cell |
| WriteCaching.SumIsRequested | src/server/redis/write-cache.ts:181-205 | net increment and last value, read off the arguments of the writes |
| WriteCaching.OneWriteArrives | src/server/redis/write-cache.ts:110-205 | on every store one increment by n makes a cell that reads m read m + n, leaves text alone, one value is what the cell holds, and no other cell changes |
| WriteCaching.FlushOneIncr | src/server/redis/write-cache.ts:134-138 | any one increment, buffered and flushed, adds its amount to its key and to nothing else |
| WriteCaching.FlushOneHIncr | src/server/redis/write-cache.ts:117-123 | any increments of the fields of one hash, buffered and flushed, add their amounts to those fields and to nothing else |
| WriteCaching.CoalescingExact | src/server/redis/write-cache.ts:110-162 | for every sequence of writes the batch reads like the separate writes if and only if no numeric value was put on the cell or the increments on the wrong side of the last one cancel |
| WriteCaching.CoalescingCreates | src/server/redis/write-cache.ts:117-138 | the stores are equal if and only if in addition the cell is not a missing counter whose increments came to zero |
| WriteCaching.CoalescingPreserves | src/server/redis/write-cache.ts:110-162 | when each cell is used by one kind of write, every cell reads the same |
| WriteCaching.MixedKindsDiffer | src/server/redis/write-cache.ts:154-161 | two mixed sequences whose batch has another outcome |
| WriteCaching.HandleIncr | src/server/redis/write-cache.ts:134-138 | in whatever order the keys are visited the commands add the net increments, zero ones dropped |
| WriteCaching.HandleHIncr | src/server/redis/write-cache.ts:117-123 | the same for hash fields |
| WriteCaching.HandleSet | src/server/redis/write-cache.ts:140-146 | one command that puts every value, or none |
| WriteCaching.HandleHSet | src/server/redis/write-cache.ts:125-132 | the commands put the last value of every hash field |
| WriteCaching.WriteCache.Incr | src/server/redis/write-cache.ts:181-184 | the buffer with one increment more |
| WriteCaching.WriteCache.HIncr | src/server/redis/write-cache.ts:11-20 | the buffer with the increments of every field of the update |
| WriteCaching.WriteCache.HMSet | src/server/redis/write-cache.ts:191-195 | the buffer with the values of every field of the update, later ones winning |
| WriteCaching.WriteCache.Set | src/server/redis/write-cache.ts:202-205 | the buffer with the value |
| WriteCaching.WriteCache.ProcessBuffer | src/server/redis/write-cache.ts:110-162 | the batch has on every cell the effect of the buffer, and is empty only if that is none |
| WriteCaching.WriteCache.BeginFlush | src/server/redis/write-cache.ts:225-250 | nothing while a batch is in flight; without the lock the buffer is discarded; otherwise one batch with the buffer's effect is sent and the buffer cleared |
| WriteCacheRuns.IncrementsConserved | src/server/redis/write-cache.ts:225-260 | over every interleaving and per cell: requested, as the arguments of the writes say, = executed + in flight + buffered + discarded + lost, with at most one batch in flight per cache |
| WriteCacheRuns.NoBatchWithoutLock | src/server/redis/write-cache.ts:225-250 | with the lock as a flag of each flush, a batch starts only with it and with none in flight |
| WriteCacheRuns.FlushDecides | src/server/redis/write-cache.ts:215-260 | a flush without the lock forgets all that was requested; with the lock it is under way until success stores it or failure loses it, and no second flush starts meanwhile |
| WriteCacheRuns.StoreCounts | src/server/redis/write-cache.ts:225-260 | a counter nobody overwrites grows by exactly what was requested less what is under way, discarded or lost |
| WriteCacheRuns.FlushScheduleIrrelevant | src/server/redis/write-cache.ts:225-260 | for one cache that keeps the lock, whenever it flushes, the store ends as if every write had been performed when requested |
| WriterElection.RunSplits | src/server/redis/write-cache.ts:71-77 | one manager beside each cache, each flush asking its own: a run of both is a run of the managers and a run of the caches, so that what holds of either holds of both |
| WriterElection.StartsExact | src/server/redis/write-cache.ts:225-250 | a step sends a batch of a cache if and only if it is a flush of that cache, its manager is the owner, none is in flight and there is something to send |
| WriterElection.OneWriter | src/server/redis/write-cache.ts:225-250 | in every state of a run that meets the condition of `OneOwnerExact` no two caches can send a batch, whatever step comes next |
| WriterElection.TwoOwnersTwoWriters | src/server/redis/write-cache.ts:225-250 | conversely, under two owners both of whose caches are at rest, one write each lets both send |
| WriterElection.TimelyExclusive | src/server/redis/lock-manager.ts:161-199 | owners that renew in time make such a run |
| WriterElection.OneInFlightExact | src/server/redis/write-cache.ts:225-260 | two batches are under way after a step if and only if a new owner sends one while that of a former owner is unanswered |
| WriterElection.SerialExact | src/server/redis/write-cache.ts:225-260 | for every such run never more than one batch is under way if and only if no step does that |
| WriterElection.OvertakenMayComeLast | src/server/redis/write-cache.ts:225-260 | after it the former owner's batch can be executed after the new owner's |
| WriterElection.FormerOwnerComesLast | src/server/redis/write-cache.ts:225-260 | a run with locks renewed in time that ends with the value written first |
| DecayingCounter.ChunkIndex | src/server/stats/smooth-decaying-rolling-counter.ts:139-145 | in range, and its interval starts no later than now |
| DecayingCounter.Phase.GetSum | src/server/stats/smooth-decaying-rolling-counter.ts:276-295 | nothing when expired, a rounded-up fraction in the last interval, otherwise everything |
| DecayingCounter.Chunk.Add | src/server/stats/smooth-decaying-rolling-counter.ts:218-259 | adds to the active phase or flips; the inactive phase is always empty and never expires |
| DecayingCounter.Counter.Add | src/server/stats/smooth-decaying-rolling-counter.ts:147-153 | changes exactly the slot of the current interval, by the given time or the clock; the last write is the given time, or none |
| DecayingCounter.Counter.SumAt | src/server/stats/smooth-decaying-rolling-counter.ts:155-174 | the wrap-around loop counts every chunk exactly once |
| DecayingCounter.Counter.GetSum | src/server/stats/smooth-decaying-rolling-counter.ts:155-174 | the sum at the given time, or at the last write; fails if and only if there is neither |
| DecayingCounter.SlotsSumRotated | src/server/stats/smooth-decaying-rolling-counter.ts:159-172 | where the tour of the chunks starts does not matter |
| DecayingCounter.NewCounter | src/server/stats/smooth-decaying-rolling-counter.ts:99-123 | refuses exactly the shapes the constructor throws on |
| DecayingCounterLaws.SumWithinReach | src/server/stats/smooth-decaying-rolling-counter.ts:155-174 | after any run the sum is at most the total of deltas younger than the window and one interval |
| DecayingCounterStart.EarlySumExact | src/server/stats/smooth-decaying-rolling-counter.ts:139-174 | after every run, as long as the window reaches back to the first write the sum is the total of all deltas |
| DecayingCounterStart.EarlyWriteCounted | src/server/stats/smooth-decaying-rolling-counter.ts:139-153 | after every run, a write less than one turn of the ring after the first one is counted throughout the window, whatever follows |
| DecayingCounterLaws.SumNeverGrows | src/server/stats/smooth-decaying-rolling-counter.ts:276-295 | without writes the sum never grows with time, however often it is read |
| DecayingCounterLaws.DecayIsSmooth | src/server/stats/smooth-decaying-rolling-counter.ts:34-36 | over any time without writes a phase loses at most the proportionate part of its total, up to rounding |
| DecayingCounterLaws.SumIsSmooth | src/server/stats/smooth-decaying-rolling-counter.ts:34-36 | the whole sum sees no sudden change, up to the rounding of each chunk |
| DecayingCounterLaws.CountedThroughWindow | src/server/stats/smooth-decaying-rolling-counter.ts:218-259 | the phase that a write leaves is counted throughout the window if and only if the write flips the phase or joins one that outlives the window |
| DecayingCounterLaws.CountedInEveryRun | src/server/stats/smooth-decaying-rolling-counter.ts:218-259 | after every run, a write stays among the live ones and is counted throughout the window, whatever is written and read later, under that same condition and only then |
| DecayingCounterLaws.DeltaMayVanish | src/server/stats/smooth-decaying-rolling-counter.ts:248-257 | a run that forgets a delta ten milliseconds after it was written, the window being two hundred |
| Quantile.SortedCopySorts | src/server/stats/quantile.ts:58-61 | the copy is ascending and a permutation |
| Quantile.IndicesInRange | src/server/stats/quantile.ts:73-83 | every index read lies in the sample |
| Quantile.QuantileCorrect | src/server/stats/quantile.ts:37-84 | a TypeError exactly for probabilities out of range; at least the p-th part of the sample is at most the result and at least the rest is at least it; undefined or NaN for an empty sample |
| Quantile.QuantileMonotone | src/server/stats/quantile.ts:37-84 | a higher probability never gives a lower quantile |
| Quantile.MedianIsHalfQuantile | src/server/stats/median.ts:2-13 | the median, computed by parity of the length, is the quantile at one half |
| Quantile.MedianExact | src/server/stats/median.ts:2-13 | a value is the median if and only if it is midway between the values at the two middle places, which are told by counting |
| Quantile.HalfWithinDeviation | src/server/stats/mean-absolute-deviation.ts:3-17 | at least half the sample lies within the deviation of the centre and at least half no nearer; the centre is the given median, or the true one if none, or zero, is given |
| Quantile.DeviationExact | src/server/stats/mean-absolute-deviation.ts:8-16 | the deviation is the median, and nothing else, of the distances from the given median, or from the true one if none, or zero, is given |
| Quantile.SingleSample | src/server/stats/mean-absolute-deviation.ts:9-10 | for one sample the share holds if and only if the centre is the sample |
| Quantile.CenterExact | src/server/stats/mean-absolute-deviation.ts:11-11 | a given data median is the centre if and only if it is not zero or the true median is zero |
| Quantile.ZeroMedianIgnored | src/server/stats/mean-absolute-deviation.ts:3-17 | a sample whose deviation about a given median of zero is not the result |
| AsyncIteration.AsyncIterationBuffer.PushItem | src/server/lib/async-buffer.ts:57-66 | the item goes to the request that has waited longest, or into the queue |
| AsyncIteration.AsyncIterationBuffer.End | src/server/lib/async-buffer.ts:80-85 | a last value, if given, and then the end |
| AsyncIteration.AsyncIterationBuffer.GetNext | src/server/lib/async-buffer.ts:31-43 | a promise settled from the queue, or one that waits |
| AsyncIteration.AsyncIterationBuffer.Return | src/server/lib/async-buffer.ts:44-53 | every waiting request is answered once with the end |
| AsyncIteration.EventIterator.PushValue | src/server/lib/iterators.ts:80-88 | answers the oldest request or queues the event; undefined is ignored |
| AsyncIteration.EventIterator.GetNext | src/server/lib/iterators.ts:90-99 | a promise from the queue or one that waits; after a release, the end |
| AsyncIteration.EventIterator.Release | src/server/lib/iterators.ts:132-142 | every outstanding request is answered once with the end, the queue is dropped, and only the first call acts |
| AsyncIterationRuns.BufferFifo | src/server/lib/async-buffer.ts:28-84 | for any interleaving: waiting and queued never coexist, items are handed out in order to requests in order, each request gets one item, the end, or still waits |
| AsyncIterationRuns.KthGetsKth | src/server/lib/async-buffer.ts:28-84 | without a return the k-th request gets the k-th item |
| AsyncIterationRuns.IteratorFifo | src/server/lib/iterators.ts:75-158 | for any interleaving the k-th request before the release gets the k-th defined event, and all others are answered with the end at or after the release |

## Left out

- The text side of the expression compiler: parsing, and the strings and parentheses of `toInfix`. Values are left open; logical operators are strict, as the single `binary` token makes them, so short-circuiting is not modelled.
- Array expressions, `this`, calls of computed callees and the like are part of the trees and of `CompileExact`, which shows that they are not compiled correctly; they are outside the fragment.
- ChunkedStore.Store.AllocateChunk: models the documented taking of a chunk out of the cache, not the peek in the code; `CacheReuse.PeekingStore.AllocateChunk` models the code.
- ChunkedStore.Store.Put: over that documented cache; as coded `CacheReuse.PeekingStore.PutPeeking` says when entries are lost, and `ChunkRuns.AgreeExactly` says it for whole runs.
- ChunkRuns.AgreeExactly: runs are of puts, one-argument trims and clears.
- ChunkedStore.Store.TrimEnd: the search for the upper bound stops at the last live cell, where the code passes one past it; `ChunkedStore.Store.TrimEndAsCoded` models the code. What later operations do to a chunk in which a dead cell came to life is not modelled.
- ChunkedStore.Store.TrimBetween: inherits the bound of `TrimEnd`; as coded only its first half, `TrimEndAsCoded`, is modelled.
- ChunkedStore.Store.Range: with repeated keys it may lack entries at the lower bound, because the search may land on any of them; `Timeline.RangeIsExact` is the exact statement for distinct keys.
- Keys are integers, the chunk size is positive; `forEach`, `reduce`, `findIndex` and `out` of the store are wrappers around what is modelled.
- Aggregators.SlidingTimeWindowAggregator.Update: the answer is over the documented store, and as coded exactly as far as `AsCoded` says; timestamps strictly increase and are nonnegative; the override `_lastTimestamp` of a tick is an argument here; the count of the sum aggregator, which its tick sets to the size of the slice that left, and the `isFullWindow` flag are not described.
- ChangeEvaluator.ChangeConditionEvaluator.Update: the answer is over the documented store, and as coded exactly as far as `AsCoded` says; windows and shifts are multiples of the sample interval; the aggregate is any function of the differences; `usePercentage` is taken as the code sets it, which is true for the plain change type.
- Estimator.OnlineNormalEstimator.Combine: an estimator that has become NaN is not followed further; the standard deviations, square roots of what is modelled, are left out.
- StreamingStatistics.StreamingStats.Update: for the windowed form; without a window size the class is the estimator alone. The interval that `calculateInterval` picks is a parameter, `clear`, which does not clear the ring, and the unused second ticker of the window are left out, and the handler that the window emits its ticks to is called directly.
- StreamingStatistics.StreamingStats.GetSummary: without the two standard deviations and their readings of the clock.
- Rounding, overflow and NaN of floating-point numbers; 64-bit overflow of Redis counters.
- Locking.LockManager.Acquire: each method is one step, so awaits of one manager do not overlap; redlock and Redis are a lease that expires, granted for `ttl` and relied upon for a drift less. The constructor lets the default options override the given ones, so that every manager in fact uses the default key and times; keys and times are parameters here.
- WriteCaching.WriteCache.ProcessBuffer: `del`, which never marks the buffer changed, `zset`, whose map is iterated as an object, and commands that others queue on the pipeline are not modelled; an `hmset` without fields, which Redis would refuse, has no effect; a key is not used both as a plain value and as a hash.
- WriteCaching.WriteCache.BeginFlush: without the commands that others queue on the pending pipeline, as above.
- WriteCacheRuns.IncrementsConserved: a batch takes effect when its result arrives; a batch that failed after taking effect counts as executed.
- DecayingCounter.Counter.Add: times do not go back before the first write; the never-expiring deadline stands for the largest safe integer.
- Quantile.QuantileCorrect: a probability that is not a number, and a sample that is claimed to be sorted but is not, are not modelled.
- AsyncIteration.EventIterator.PushValue: subscribing, filtering, transforming and batching of events before they are pushed are left out; so is the cancel callback of the buffer, whose completion is the step modelled as `Return`.
- Redis, BullMQ, redlock, Emittery, DDSketch and HDR histograms; GraphQL, HTTP, mail and configuration; the Lua scripts and the rule alerter.
