# Verified models of l9gpu's algorithms

l9gpu collects GPU, job and inference metrics on Slurm and Kubernetes nodes. Between its command
lines, subprocess calls and exporters sit a number of small dense algorithms. This project models
them in Dafny and proves what their documentation and tests promise, or, where the code does not
keep the promise on every input, exactly when it does.

`dafny verify dfyconfig.toml` checks everything.

| part of the repository | modules |
|---|---|
| Backfilling `sacct` output: time chunks, serial and concurrent publishing | `TimeBounds`, `SerialBackfill`, `BackfillPipeline` |
| Chunking records under a byte budget | `JsonChunks` |
| Peaks over samples | `MaxFields`, `Accumulate`, `PeakAccumulation` |
| Flattening nested values to dotted keys | `Flattening`, `FlatteningWays`, `NestedRecords`, `ResourceAttrs` |
| Prometheus text and histogram quantiles | `PrometheusText`, `ExpositionFormat`, `HistogramQuantile` |
| Counter deltas of vLLM | `VllmCounters` |
| Slurm range lists | `SlurmHelpers` |
| GPU ordinals of Kubernetes pods, and the cache before them | `GpuOrdinals`, `K8sCache` |
| Sliding windows per GPU | `FleetHealth` |
| Reading and following the NCCL log, stragglers | `NcclRecords`, `NcclStragglers`, `NcclMonitor` |
| Shared: option and result, text and numerals, sorting | `Wrappers`, `Text`, `Sorting` |

Loops, deques, dictionaries and objects of the source are methods with loops and classes with fields.
Each is proved equal to a specification function of its inputs or of its recorded history, and the
laws are proved about that function. `publish_all_parallel` is a transition system whose actions are
the atomic steps of producer, consumer, workers and callbacks; its laws hold for every interleaving.

## Where the code and its documentation part

Each condition below is exact. The members beside it state it and show an input for which it fails.

- `chunk_by_json_size` keeps its promise of a minimal number of chunks: no order-preserving partition
  into chunks that fit has fewer.
- `max_fields` documents `max` of the two values. The code merges dictionaries key by key and lists
  element by element, and takes the right operand when two lists differ in length. The last makes the
  operator depend on order and grouping: `CommutesExactlyWhen` and `AssociatesExactlyWhen` say when,
  `ListLengthsBreakOrder`, `NoneKeyBreaksOrder` and `OddListBreaksGrouping` show it.
- `histogram_quantile` inverts the cumulative curve except where the curve jumps over the target: at a
  bound that occurs twice, or in a bucket of bound 0: `QuantileInvertsExactlyWhen`,
  `JumpAtZeroIsNotInverted`, `RepeatedBoundIsNotInverted`.
- `parse` does not undo the escapes of the exposition format and ends the labels at the first closing
  brace. A sample comes back as it went exactly when no label value holds a quote, a backslash, a
  closing brace or a line break: `RoundTripExactlyWhen`, `BraceLosesSample`.
- `publish_all_parallel` runs its two helper threads on workers of the pool it feeds. For a pool of any
  size it can deadlock in some interleaving exactly when the pool has fewer than two workers, or two
  workers and fewer permits than chunks, or chunks and no permit at all: `DeadlockFreedom`,
  `DeadlockWitness`. The code makes its pool with the default size, which is at least five, and passes
  no semaphore or at least one permit; then no interleaving deadlocks (`BackfillNeverDeadlocks`).
- `parseGRES` indexes the second part of the bracketed text without looking whether there is a colon. It
  panics exactly when there is none: `GresFailsExactlyWhen`, `NoColonPanics`. Its loop over a range is
  left exactly when the range is empty or ends below the largest 64-bit integer:
  `RangeStopsExactlyWhen`, `LargestIntegerNeverReturns`.
- `HostnameInList` gives up at an entry that does not parse, `parseGRES` skips it. On one list the two differ
  exactly for numbers whose first covering entry comes after such an entry: `AnyListExactlyWhen`,
  `ReadersAgreeExactlyWhen`.
- `k8s_gpu_map.py` says that it mirrors `buildGPU2K8s`. It counts limits over two resource names, the
  Go code requests over five; the two mappings agree exactly when every pod's totals do:
  `MappingsAgreeExactlyWhen`, `GaudiPodsDisagree`.
- `scrape_vllm` documents that the first call reports no rates. A first scrape that fails leaves a state
  of zeros, so the second scrape reports a counter's whole history as a rate:
  `TotalIsTheObservedGainExactlyWhen`, `FailedStartCountsHistory`. So does a scrape that lacks the
  counter, which reads as 0: `TotalIsTheCarriedGainExactlyWhen`, `GapCountsHistory`.
- The success counter adds up all finished requests while the counters by reason keep the last sample
  only; they make up the total exactly when no reason with a non-zero sample occurs again later and none
  is unknown: `ReasonsMakeUpTheTotalExactlyWhen`, `RepeatedReasonIsLost`.
- The cache duration is multiplied into 64-bit nanoseconds. Beyond 9223372036 seconds that wraps around
  and fetches come closer than configured: `SpacedExactlyWhen`, `TooEarly`.
- `FleetHealthTracker` takes any window length, and `compute` divides by it. It raises exactly when the
  length is 0 and an XID is kept, which then is one recorded at the very time of the last reading:
  `Compute`, `ZeroWindowKeepsExactlyWhen`, `ZeroWindowDivides`.
- `tail_and_parse` skips malformed lines, but not every line that it cannot use. A line is poison if
  `json.loads` gives up on it with another error than for malformed JSON, or its JSON is no object, or one
  of its numbers is an integer beyond a double and none before it is refused, or its type is truthy and it
  has a rank and one of these is a list or an object. A run of the monitor raises exactly when it polls a log with such a line:
  `RunRaisesExactlyWhen`, `PoisonLineLosesPoll` and, kind by kind, `NumberStopsReading`,
  `HugeSizeStopsReading`, `ListTypeStopsFlagging` and `ListRankStopsFlagging`.
- `tail_and_parse` reads on from the end of what it has read, in the middle of a line or not. A line that is
  half written when it is polled is lost: `HalfLineIsLost`. Where the writer appends whole lines nothing is:
  `NothingLostOrReadTwice`.
- `tail_and_parse` documents that any rank with a duration beyond median plus threshold is a straggler.
  A later timing of the rank overwrites the flag, so a rank with such a duration is flagged exactly when
  its last timing is one: `DocumentedFlagExactlyWhen`, `LaterTimingClearsFlag`.

## Model

| member | source | states |
|---|---|---|
| BackfillPipeline.ReachableInv | l9gpu/monitoring/cli/sacct_backfill.py:270-305 | the global invariant holds in every reachable state of every interleaving: the chunks fetched are, in order, those submitted, in the consumer's hand, queued and in the producer's hand; permits and workers are accounted for |
| BackfillPipeline.ConcurrencyBound | l9gpu/monitoring/cli/sacct_backfill.py:270-300 | free permits, a permit the producer holds, queued chunks, a chunk in the consumer's hand and unfired submissions always sum to max_concurrency, so no more publishes than that run at once |
| BackfillPipeline.ConcurrencyIsAttained | l9gpu/monitoring/cli/sacct_backfill.py:270-305 | as many publishes can run at once as there are permits, chunks and workers beside the two helpers: some interleaving reaches a state with exactly so many |
| BackfillPipeline.PoolBound | l9gpu/monitoring/cli/sacct_backfill.py:302-305 | the helpers and the running publishes together never exceed the pool's workers |
| BackfillPipeline.SubmittedInOrder | l9gpu/monitoring/cli/sacct_backfill.py:286-298 | in every reachable state the submitted chunks are a prefix of the stream: each once, in order |
| BackfillPipeline.ConsumerWaits | l9gpu/monitoring/cli/sacct_backfill.py:279-295 | once the consumer has ended, all chunks of the stream are submitted and all publishes done |
| BackfillPipeline.PublishEndsEitherWay | l9gpu/monitoring/cli/sacct_backfill.py:286-288 | a running publish may succeed or fail; its future is done either way |
| BackfillPipeline.FinalOutcome | l9gpu/monitoring/cli/sacct_backfill.py:273-305 | on return all chunks are submitted and finished, whether or not publishes failed, and every permit is back |
| BackfillPipeline.RunsAreBounded | l9gpu/monitoring/cli/sacct_backfill.py:273-305 | no interleaving takes more than nine steps a chunk and five more |
| BackfillPipeline.Progress | l9gpu/monitoring/cli/sacct_backfill.py:273-305 | with enough workers and permits, some step is possible in every state of the invariant that is not final |
| BackfillPipeline.DeadlockWitness | l9gpu/monitoring/cli/sacct_backfill.py:270-305 | otherwise some interleaving reaches a state that is not final and from which no step is possible |
| BackfillPipeline.DeadlockFreedom | l9gpu/monitoring/cli/sacct_backfill.py:262-305 | no interleaving deadlocks if and only if there are three workers and a permit, or two workers and no semaphore or a permit for every chunk |
| BackfillPipeline.DefaultPoolDeadlocksExactlyWhen | l9gpu/monitoring/cli/sacct_backfill.py:302 | with the five workers or more of the default pool no interleaving deadlocks if and only if there is no semaphore, or a permit, or no chunk |
| BackfillPipeline.BackfillNeverDeadlocks | l9gpu/monitoring/cli/sacct_backfill.py:512-518 | with that pool and the permits that the command passes on no reachable state is stuck |
| BackfillPipeline.MaximalRunsPublishAll | l9gpu/monitoring/cli/sacct_backfill.py:262-305 | a live run that can go no further has published the whole stream, each chunk once and in order |
| SerialBackfill.PublishAllSerial | l9gpu/monitoring/cli/sacct_backfill.py:246-259 | publishes the chunks in order, publish and sleep taking turns, up to and including the first that raises; an empty stream raises |
| SerialBackfill.ScriptPublishes | l9gpu/monitoring/cli/sacct_backfill.py:255-259 | leaving out the sleeps gives back the chunks, and n chunks make 2n - 1 events |
| SerialBackfill.ScriptTakesTurns | l9gpu/monitoring/cli/sacct_backfill.py:255-259 | event 2i is the publish of chunk i, event 2i + 1 a sleep of the given length, and the last event is a publish |
| TimeBounds.ConstructorRefusesEmpty | l9gpu/monitoring/date.py:62-80 | the constructor accepts exactly the pairs of bounds that contain some instant |
| TimeBounds.CoveredExactlyOnce | l9gpu/monitoring/cli/sacct_backfill.py:544-552 | a second of the range lies in exactly one yielded interval, any other in none |
| TimeBounds.CoversExactly | l9gpu/monitoring/cli/sacct_backfill.py:544-552 | the same for all seconds at once |
| TimeBounds.CountIsCeiling | l9gpu/monitoring/cli/sacct_backfill.py:544-552 | the number of intervals is max(1, ceil((end - start) / step)) |
| TimeBounds.IntervalAt | l9gpu/monitoring/cli/sacct_backfill.py:544-552 | interval i starts i steps after the range, and ends a second before i + 1 steps or, the last one, with the range |
| TimeBounds.GenTimeBounds | l9gpu/monitoring/cli/sacct_backfill.py:526-552 | raises exactly for a step of at most a second; the loop yields intervals that start a step apart, end a second before the next and, the last, with the range; none is refused by the constructor |
| JsonChunks.ChunkByJsonSize | l9gpu/monitoring/itertools.py:23-60 | chunks are non-empty, concatenate to the input, encode within the hint and are as few as any order-preserving partition that fits; raises exactly for a bad hint or an item that cannot fit, with what it had yielded until then |
| JsonChunks.EncodeWidens | l9gpu/monitoring/itertools.py:50-57 | a wider run of items never encodes shorter |
| JsonChunks.NoOvertaking | l9gpu/monitoring/itertools.py:50-57 | a chunk that fits and starts no later than a full greedy one ends no later |
| JsonChunks.GreedyStaysAhead | l9gpu/monitoring/itertools.py:26-28 | after as many chunks the greedy partition has consumed at least as many items as any other |
| JsonChunks.GreedyIsMinimal | l9gpu/monitoring/itertools.py:26-28 | a greedy partition has no more chunks than any partition whose chunks fit |
| HistogramQuantile.Estimate | l9gpu/monitoring/prometheus.py:57-83 | the loop computes the specified walk over the sorted finite buckets; None exactly without observations or finite buckets |
| HistogramQuantile.QuantileIsLeastPreimage | l9gpu/monitoring/prometheus.py:72-83 | for a positive target up to the last finite count, the cumulative curve has reached the target at a bound if and only if the bound is at least the estimate |
| HistogramQuantile.QuantileInvertsExactlyWhen | l9gpu/monitoring/prometheus.py:62-83 | the curve at the estimate equals quantile times count if and only if the curve does not jump over the target: two finite buckets of one bound, or the origin and one of bound 0, between whose counts the target lies, the lower included unless a lower bound reaches it |
| HistogramQuantile.DistinctBoundsJumpAtZero | l9gpu/monitoring/prometheus.py:72-83 | where no bound occurs twice the curve jumps over a positive target if and only if a bucket of bound 0 has a higher count |
| HistogramQuantile.JumpAtZeroIsNotInverted | l9gpu/monitoring/prometheus.py:72-83 | for buckets (0, 5) and (1, 10), count 10 and quantile 0.2 the estimate is 0, where the curve is at 5 and not at 2 |
| HistogramQuantile.RepeatedBoundIsNotInverted | l9gpu/monitoring/prometheus.py:72-83 | for points (1, 3) and (1, 7) the target 3 is met at bound 1, where the curve is at 7 |
| HistogramQuantile.QuantileIsMonotone | l9gpu/monitoring/prometheus.py:72-83 | estimates lie between 0 and the last finite bound and do not fall as the quantile rises |
| HistogramQuantile.WalkInRange | l9gpu/monitoring/prometheus.py:72-83 | the estimate lies between the start and the last bound, and is the last bound for a target beyond the last count |
| HistogramQuantile.PositiveTargetInterpolates | l9gpu/monitoring/prometheus.py:75-80 | a target above the starting count is interpolated in one segment whose counts differ: the equal-count branch is left to a zero target and no division is by zero |
| HistogramQuantile.FirstReachingDecides | l9gpu/monitoring/prometheus.py:72-81 | for any buckets, ordered or not: the first one whose count reaches the target gives the point on the line from the one before, or that one's bound if their counts are equal |
| HistogramQuantile.LastBoundBeyondAll | l9gpu/monitoring/prometheus.py:82-83 | a target that no bucket reaches gives the last bound |
| HistogramQuantile.QuantileWalks | l9gpu/monitoring/prometheus.py:69-81 | the walk goes from the origin over exactly the finite buckets, in ascending order of bound and then count, to quantile times count |
| HistogramQuantile.OrderOfBucketsIsIrrelevant | l9gpu/monitoring/prometheus.py:69-71 | permuting the bucket list changes nothing |
| Sorting.SortedIsUnique | l9gpu/monitoring/prometheus.py:69 | two sorted sequences of the same elements are equal |
| Sorting.SortIgnoresOrder | l9gpu/monitoring/prometheus.py:69 | sorting depends on the elements and not on their order |
| PrometheusText.Parse | l9gpu/monitoring/prometheus.py:26-54 | the loop computes the specified samples of the text's lines |
| PrometheusText.ReadLine | l9gpu/monitoring/prometheus.py:30-52 | one line's sample: the labeled form first, then the plain one, with or without text after the value; comments, blanks and malformed lines are skipped |
| PrometheusText.SampleExactlyWhen | l9gpu/monitoring/prometheus.py:30-53 | a stripped line gives a sample if and only if it is a name, labels in braces or none, white space and a token that is a number, at the end or followed by white space and anything; the sample has that name, those labels and that number |
| PrometheusText.MatchesExactlyWhen | l9gpu/monitoring/prometheus.py:34-44 | the expressions, tried in turn, give a name, a text of labels and a token if and only if the line is made of them in one of the two forms |
| PrometheusText.ReadLabels | l9gpu/monitoring/prometheus.py:49-52 | the label dictionary of all matches, the last of a key winning |
| PrometheusText.LeftmostPairIsFound | l9gpu/monitoring/prometheus.py:51-52 | in any text of labels the leftmost match is found first, and the search goes on after it |
| PrometheusText.NothingFoundWithoutPair | l9gpu/monitoring/prometheus.py:51-52 | a text in which no match starts anywhere has no labels |
| PrometheusText.LastPairWins | l9gpu/monitoring/prometheus.py:51-52 | of several pairs of one key the dictionary holds the last |
| PrometheusText.AddLine | l9gpu/monitoring/prometheus.py:45-53 | a line with a sample appends it as the last one under its name, all other names keep theirs; any other line changes nothing |
| PrometheusText.MatchRendered | l9gpu/monitoring/prometheus.py:34-44 | a printed sample has the form of the expression meant for it, whatever white space is before its value and text after it |
| PrometheusText.LabelsRoundTrip | l9gpu/monitoring/prometheus.py:50-52 | the pairs found in a printed label list are the pairs printed |
| PrometheusText.CollectIsByName | l9gpu/monitoring/prometheus.py:53-54 | under each name lie its samples, in the order of their lines, and no name is without samples |
| PrometheusText.NoiseIsIgnored | l9gpu/monitoring/prometheus.py:30-33 | a text of comment and blank lines put between any two lines of any text changes nothing |
| PrometheusText.SplitConcat | l9gpu/monitoring/prometheus.py:29 | a text cut after any line break, but not inside a carriage return and line feed, has the lines of its two parts |
| PrometheusText.StripIsExact | l9gpu/monitoring/prometheus.py:30 | stripping takes the white space at both ends and nothing else |
| ExpositionFormat.RoundTripExactlyWhen | l9gpu/monitoring/prometheus.py:26-54 | for any sequence of samples with any label values, white space and timestamps, comment and blank lines among them, parsing the text that the exposition format prints returns every sample under its name, in order, with its labels, if and only if no label value holds a quote, a backslash, a closing brace or a line break |
| ExpositionFormat.ParsedSamplesArePlain | l9gpu/monitoring/prometheus.py:34-54 | no label value that parse returns for any lines holds a quote, a closing brace or a line break |
| ExpositionFormat.BraceLosesLine | l9gpu/monitoring/prometheus.py:34-44 | a closing brace without white space after it, as inside a label value, loses the line |
| ExpositionFormat.BraceLosesSample | l9gpu/monitoring/prometheus.py:34-44 | the line of a sample with a closing brace as label value is skipped |
| VllmCounters.CounterRate | l9gpu/monitoring/vllm_monitor.py:78-89 | a rate exists exactly for two readings, a positive interval and no reset; times the interval it is the counter's gain |
| VllmCounters.CounterRatio | l9gpu/monitoring/vllm_monitor.py:92-110 | a ratio exists exactly for four readings, a rising denominator and a numerator that does not fall; it is in [0, 1] and times the denominator's gain it is the smaller gain |
| VllmCounters.Efficiency | l9gpu/monitoring/vllm_monitor.py:236-240 | exists exactly when there are new drafts and the accepted tokens did not fall; what it is above 1, times the drafts, is the tokens accepted |
| VllmCounters.ReadCounters | l9gpu/monitoring/vllm_monitor.py:162-195 | the state after a successful scrape holds every counter's reading, 0 for one that is missing |
| VllmCounters.MetricsBehindCounters | l9gpu/monitoring/vllm_monitor.py:163-183 | each of the nine plain counters shows the first sample of its metric, by name, or 0 |
| VllmCounters.MetricBehindRequests | l9gpu/monitoring/vllm_monitor.py:186-195 | the four request counters come from the samples of vllm:request_success_total |
| VllmCounters.ReasonOfLabels | l9gpu/monitoring/vllm_monitor.py:187 | finished_reason goes before finish_reason, and without either the reason is empty |
| VllmCounters.LastOfReason | l9gpu/monitoring/vllm_monitor.py:186-195 | the counter of a reason is the value of its last sample |
| VllmCounters.ReadFinished | l9gpu/monitoring/vllm_monitor.py:186-195 | the loop leaves the sum of all samples and, for each known reason, the value of its last sample; other counters stay |
| VllmCounters.ReasonsAddUp | l9gpu/monitoring/vllm_monitor.py:186-195 | the success counter is the three counters by reason plus the samples they do not show |
| VllmCounters.ReasonsMakeUpTheTotalExactlyWhen | l9gpu/monitoring/vllm_monitor.py:186-195 | the three counters sum to the success counter if and only if every non-zero sample has a known reason that does not come again |
| VllmCounters.RepeatedReasonIsLost | l9gpu/monitoring/vllm_monitor.py:186-195 | two samples with reason stop, 1 and 2: the success counter is 3, the counter for stop is 2 |
| VllmCounters.ScrapeVllm | l9gpu/monitoring/vllm_monitor.py:126-261 | each rate and ratio field is that of its own counters against the previous state; a failed scrape reports nothing and keeps the state, or leaves zeros if there is none |
| VllmCounters.FillRates | l9gpu/monitoring/vllm_monitor.py:198-261 | every rate is its own counter's, every ratio that of its own two counters, and the hit rate falls back to the gauge exactly without a ratio |
| VllmCounters.Monitor | l9gpu/monitoring/cli/cost_monitor.py:158-169 | threading the state over any run, the rates times the interval sum, for each counter, to the gains between the readings compared |
| VllmCounters.StateIsLastCompared | l9gpu/monitoring/vllm_monitor.py:126-130 | after any run, failures included, the state holds the reading that the next delta is taken from |
| VllmCounters.GainBalances | l9gpu/monitoring/vllm_monitor.py:86-89 | gains are last minus first plus drops, and the drops are zero if and only if there is no reset |
| VllmCounters.TotalBalances | l9gpu/monitoring/cli/cost_monitor.py:158-169 | over any run the rates times the interval sum to the last state minus the first plus the drops at resets |
| VllmCounters.TotalIsTheObservedGainExactlyWhen | l9gpu/monitoring/vllm_monitor.py:123-130 | that sum is the gain between the endpoint's own readings if and only if the first scrape succeeds, or nothing is read, or the first reading is not above 0 |
| VllmCounters.TotalIsTheCarriedGainExactlyWhen | l9gpu/monitoring/vllm_monitor.py:126-195 | counting only scrapes that have the counter, that sum is the gain between their readings if and only if every reading that follows a failed first scrape or a scrape without the counter is 0, or the reading before the gap is |
| VllmCounters.GapsRecount | l9gpu/monitoring/vllm_monitor.py:162-195 | reading gaps as 0 adds to the gain, at each reading after a gap, the part of it that was counted before |
| VllmCounters.GapCountsHistory | l9gpu/monitoring/vllm_monitor.py:162-195 | readings 100, none and 100: nothing is gained, and reading the gap as 0 makes it 100 |
| VllmCounters.FailedStartCountsHistory | l9gpu/monitoring/vllm_monitor.py:123-130 | a failed scrape and then a first reading of 100: the rates times the interval sum to 100, though nothing was gained |
| VllmCounters.TotalIsTheIncreaseExactlyWhen | l9gpu/monitoring/vllm_monitor.py:123-130 | for a counter without resets it is last reading minus first if and only if the first scrape succeeds or the first reading is 0 |
| Text.SplitJoin | shelper/slurm_helpers.go:26 | splitting undoes joining for parts free of the separator |
| Text.NumeralRoundTrip | shelper/slurm_helpers.go:39 | a decimal numeral has the value it was written from |
| Text.AtoiOfNumeral | shelper/slurm_helpers.go:31-32 | parsing a decimal numeral within 64 bits gives back the number |
| Text.AtoiExactlyWhen | shelper/slurm_helpers.go:31-32 | a text reads as a number if and only if it is an optional sign and digits whose value fits 64 bits |
| Text.AtoiOfItoa | shelper/slurm_helpers.go:39 | what Itoa writes for any 64-bit integer reads back as it |
| Text.JoinSplit | shelper/slurm_helpers.go:26 | joining undoes splitting, for any text |
| SlurmHelpers.RangeStopsExactlyWhen | shelper/slurm_helpers.go:38-40 | the loop on a wrapping 64-bit variable is left after some number of rounds if and only if the range is empty or ends below the largest integer |
| SlurmHelpers.ParseGRES | shelper/slurm_helpers.go:14-47 | the loop over the entries computes the specified indices, panics without a colon and does not return from an endless range |
| SlurmHelpers.FirstGroupIsLeftmost | shelper/slurm_helpers.go:15-18 | the bracketed text is that of the leftmost match, and there is none if and only if no match starts anywhere |
| SlurmHelpers.GresFailsExactlyWhen | shelper/slurm_helpers.go:25-40 | it panics if and only if there is a bracketed text without a colon, and never returns if and only if some entry is a range that is not empty and ends at the largest integer |
| SlurmHelpers.NoColonPanics | shelper/slurm_helpers.go:25 | the text (null) panics |
| SlurmHelpers.LargestIntegerNeverReturns | shelper/slurm_helpers.go:38-40 | a list with the one range from the largest integer to itself is expanded forever |
| SlurmHelpers.AppendRange | shelper/slurm_helpers.go:38-40 | a range whose loop is left appends the numerals of all its members in order; otherwise there is no result |
| SlurmHelpers.NumeralsInOrder | shelper/slurm_helpers.go:38-40 | the numerals of a range are those of its integers one by one from the lower to the upper bound |
| SlurmHelpers.AppendEntry | shelper/slurm_helpers.go:28-44 | an entry appends its number as written or its range's numerals, nothing if it does not parse |
| SlurmHelpers.EntryOfParts | shelper/slurm_helpers.go:29-40 | of an entry with dashes only the first two parts are read, in both readers |
| SlurmHelpers.HostnameInList | shelper/slurm_helpers.go:207-270 | true if and only if the host is listed: equal to a plain list, or prefix and number match with some entry covering the number and all before it parsing |
| SlurmHelpers.HostlistMatchesExactlyWhen | shelper/slurm_helpers.go:220-226 | a list has prefix and ranges if and only if it is the prefix, of letters and dashes, and the ranges, not empty, in brackets |
| SlurmHelpers.SearchRanges | shelper/slurm_helpers.go:239-269 | the loop over the entries stops at the first that covers the number or does not parse |
| SlurmHelpers.HostListedIffDenoted | shelper/slurm_helpers.go:220-269 | for any host and any list of numbers and ranges, written with zeros or plus signs in front or not, down to the characters: the host is listed if and only if it is the prefix with a number in the union of the pieces |
| SlurmHelpers.GresExpandsToMembers | shelper/slurm_helpers.go:25-46 | for every such list the expansion is its members, piece by piece, if no range is endless, and does not return otherwise |
| SlurmHelpers.MemberIffDenoted | shelper/slurm_helpers.go:28-44 | a number is the value of some member if and only if it is in the union of the pieces |
| SlurmHelpers.NumeralIffDenoted | shelper/slurm_helpers.go:28-44 | where the numbers are written as Itoa writes them, a numeral is itself a member if and only if its number is in the union |
| SlurmHelpers.MembershipAgreesWithExpansion | shelper/slurm_helpers.go:220-269 | the two readers agree: parseGRES returns if and only if no range is endless, and then a host is listed if and only if it is the prefix with a number among the indices expanded from the same list |
| SlurmHelpers.ExpansionHasTheCovered | shelper/slurm_helpers.go:28-44 | whatever the entries are, the expansion has exactly the numbers that some entry covers |
| SlurmHelpers.ReadersAgreeExactlyWhen | shelper/slurm_helpers.go:239-269 | for any entries, membership and expansion agree on a number if and only if its first covering entry does not come after one that does not parse |
| SlurmHelpers.AnyListExactlyWhen | shelper/slurm_helpers.go:207-270 | the same for any text in brackets, from the characters of the two inputs on, unless a range is endless |
| Flattening.AsDictRecursive | l9gpu/monitoring/dataclass_utils.py:41-100 | dictionaries, lists and scalars flatten as specified, the name rule included |
| Flattening.AsDictEntries | l9gpu/monitoring/dataclass_utils.py:71-79 | the loop over a dictionary: None and name are skipped, later keys win |
| Flattening.AsDictItems | l9gpu/monitoring/dataclass_utils.py:80-93 | the loop over a list: None is skipped, an item with a name has no index |
| Flattening.FlattenDictFactory | l9gpu/monitoring/dataclass_utils.py:138-147 | the loop over the pairs computes the specified flat dictionary |
| FlatteningWays.FlatExactlyWhen | l9gpu/monitoring/dataclass_utils.py:41-147 | for any pairs of any nested values, names, dots and repeated keys included: a key has a scalar if and only if some way down writes it there and no later way writes that key |
| FlatteningWays.NameExtendsKey | l9gpu/monitoring/dataclass_utils.py:68-70 | an entry called name adds its text to the key of its dictionary |
| FlatteningWays.NamedItemHasNoIndex | l9gpu/monitoring/dataclass_utils.py:84-87 | a list item adds its index to the key if and only if it is no dictionary with a name |
| Flattening.FlattenResourceAttrs | l9gpu/exporters/otel.py:54-63 | the recursion computes the specified flat dictionary, lists and None being leaves |
| ResourceAttrs.AttrsExactlyWhen | l9gpu/exporters/otel.py:54-63 | for any dictionary: a key has a value if and only if some way through dictionaries stores it there and no later way stores under that key |
| ResourceAttrs.AttrsKeepLeaves | l9gpu/exporters/otel.py:54-63 | where keys are non-empty, free of dots and distinct, name included: a key has a value if and only if the value is no dictionary and at the end of the path of which the key is the join with dots |
| Flattening.FlatteningKeepsLeaves | l9gpu/monitoring/dataclass_utils.py:103-147 | on trees without names a key maps to a scalar if and only if the scalar is the leaf of a path with that dotted key |
| Flattening.PathsAreDistinct | l9gpu/monitoring/dataclass_utils.py:71-88 | two leaf paths with one dotted key are one path |
| Flattening.SubtreesFirst | l9gpu/monitoring/dataclass_utils.py:103-147 | flattening a nested dictionary and then the flat result under its key gives what flattening it in place gives |
| Flattening.FlattenersAgree | l9gpu/exporters/otel.py:54-63 | on trees of dictionaries and scalars without None the two flatteners give the same keys and values |
| NestedRecords.NodeAgrees | l9gpu/monitoring/dataclass_utils.py:41-100 | a value whose nested dataclasses were flattened first, wherever they are, flattens as the value itself does |
| NestedRecords.InsideOutIsAtOnce | l9gpu/monitoring/dataclass_utils.py:103-147 | used as asdict's dictionary factory, flattening from the inside out gives what flattening the whole tree once gives, whatever the order of entries in between |
| MaxFields.Op | l9gpu/monitoring/dataclass_utils.py:171-218 | the loop over the fields computes the specified record of numbers, strings, dictionaries and lists; instances of another class and values of mixed kinds raise |
| MaxFields.MergeField | l9gpu/monitoring/dataclass_utils.py:182-217 | the body of the loop computes the maximum of two field values, and raises exactly if neither is None and they are of different kinds |
| MaxFields.MaxOfKinds | l9gpu/monitoring/dataclass_utils.py:182-217 | None gives way, the greater number or string is kept, and of two lists of different lengths the right one |
| MaxFields.PrecedesExactlyWhen | l9gpu/monitoring/dataclass_utils.py:217 | of two strings the first character that differs decides, and a proper prefix is less |
| MaxFields.MergeDicts | l9gpu/monitoring/dataclass_utils.py:189-197 | the loop, in whatever order, leaves the keys of the left and those of the right that are not None, each with the greater value, None giving way |
| MaxFields.MergeLists | l9gpu/monitoring/dataclass_utils.py:204-213 | the loop leaves the element-wise maximum, None giving way |
| MaxFields.CommutesExactlyWhen | l9gpu/monitoring/dataclass_utils.py:184-217 | the operands may be exchanged if and only if lists are equally long and every None key is in both dictionaries |
| MaxFields.ListLengthsBreakOrder | l9gpu/monitoring/dataclass_utils.py:214-215 | a list of one and an empty list: the result is the right operand either way round |
| MaxFields.NoneKeyBreaksOrder | l9gpu/monitoring/dataclass_utils.py:191-197 | a dictionary with a None key and an empty one: the result depends on the order |
| MaxFields.AssociatesExactlyWhen | l9gpu/monitoring/dataclass_utils.py:184-217 | the operands may be regrouped if and only if it is not the case that the middle list alone differs in length while the first exceeds the last somewhere |
| MaxFields.StringsAssociate | l9gpu/monitoring/dataclass_utils.py:217 | the maximum of three strings does not depend on the grouping |
| MaxFields.OddListBreaksGrouping | l9gpu/monitoring/dataclass_utils.py:204-215 | lists [2], [] and [1]: one grouping gives [1], the other [2] |
| Accumulate.Accumulator.constructor | l9gpu/monitoring/accumulate.py:16-18 | nothing has been told |
| Accumulate.Accumulator.Tell | l9gpu/monitoring/accumulate.py:20-25 | the first value is kept, a later one combined on the right of the accumulated value; if the operator raises, its exception passes and the accumulated value stays |
| Accumulate.Accumulator.Ask | l9gpu/monitoring/accumulate.py:27-31 | the value accumulated over everything told; raises if and only if there was no initial value and nothing was told |
| Accumulate.Accumulator.AskMaybe | l9gpu/monitoring/accumulate.py:33-37 | the value accumulated over everything told; None if and only if there was no initial value and nothing was told |
| PeakAccumulation.JoinOfRecords | l9gpu/monitoring/dataclass_utils.py:181-218 | on records of one shape the operator does not raise and is the least upper bound: it is below z if and only if both operands are |
| PeakAccumulation.PeakIsLeastUpperBound | l9gpu/monitoring/accumulate.py:20-37 | what is accumulated with max_fields is the least upper bound of all samples told |
| PeakAccumulation.PeakDependsOnlyOnSamples | l9gpu/monitoring/accumulate.py:20-37 | it depends only on which samples occur: permuting or repeating them changes nothing |
| PeakAccumulation.PeakOfHalves | l9gpu/monitoring/accumulate.py:20-37 | accumulating two parts apart and joining the results is accumulating the whole |
| FleetHealth.Trim | l9gpu/monitoring/fleet_health.py:55-57 | popping stale entries from the left leaves, of an ascending buffer, exactly the entries no older than the window |
| FleetHealth.Extend | l9gpu/monitoring/fleet_health.py:80-83 | appending and trimming a trimmed buffer leaves the filter of the whole extended history |
| FleetHealth.KeptAtLast | l9gpu/monitoring/fleet_health.py:80-93 | of a counter's or thermometer's readings exactly those no older than the window at its last reading are kept |
| FleetHealth.KeptXidEvents | l9gpu/monitoring/fleet_health.py:73-78 | of the XID events exactly those no older than the window at the last call are kept |
| FleetHealth.XidIsRecordedExactlyWhen | l9gpu/monitoring/fleet_health.py:73-77 | a call records an XID event if and only if it has a code, not 0, other than the one last reported |
| FleetHealth.GpuWindow.RecordXid | l9gpu/monitoring/fleet_health.py:73-78 | the XID buffer is the filter, at every call, of the changes of code in the whole history |
| FleetHealth.GpuWindow.Record | l9gpu/monitoring/fleet_health.py:73-96 | every buffer and last value of the window is what the GPU's whole history calls for |
| FleetHealth.FleetHealthTracker.Get | l9gpu/monitoring/fleet_health.py:50-53 | an unknown GPU gets a window of its own, a known one its window |
| FleetHealth.FleetHealthTracker.RecordAt | l9gpu/monitoring/fleet_health.py:70-96 | one GPU's history grows by the reading, all windows still reflect their histories |
| FleetHealth.FleetHealthTracker.Observe | l9gpu/monitoring/fleet_health.py:59-96 | under a clock that does not go back every window reflects its GPU's history, and no other GPU's window changes |
| FleetHealth.FleetHealthTracker.Compute | l9gpu/monitoring/fleet_health.py:98-177 | every signal is the specified function of the GPU's history; raises exactly when an XID is kept in a window of length 0; windows and histories stay |
| FleetHealth.GpuWindow.Signals | l9gpu/monitoring/fleet_health.py:112-177 | the signals from the buffers are the signals from the history; raises exactly when an XID is kept in a window of length 0 |
| FleetHealth.Score | l9gpu/monitoring/fleet_health.py:147-161 | the deductions, made one by one, are 100 less the cost of the signals, 0 if that is more than 100 |
| FleetHealth.SharesOfCost | l9gpu/monitoring/fleet_health.py:147-161 | whatever the other signals are: downtraining costs 10, an SBE rate 2 a unit up to 20, a DBE 30, no row left to remap 15, an XID rate 3 a unit up to 15, a ramp above 2 costs 10; nothing costs 0 |
| FleetHealth.XidRateTimesHours | l9gpu/monitoring/fleet_health.py:112-115 | the rate exists exactly with events; times the hours of the window it is their number |
| FleetHealth.SbeRateTimesHours | l9gpu/monitoring/fleet_health.py:117-124 | the rate exists exactly for two readings at different times; times the hours between oldest and newest it is the increase, or 0 for a decrease |
| FleetHealth.RampTimesMinutes | l9gpu/monitoring/fleet_health.py:126-133 | the ramp exists exactly for two readings at different times; times the minutes between oldest and newest it is the rise |
| FleetHealth.DowntrainingExactlyWhen | l9gpu/monitoring/fleet_health.py:135-145 | unknown exactly without both generations; 1 exactly for a lower generation or, both widths known, a lower width |
| FleetHealth.WorseSignalsCostMore | l9gpu/monitoring/fleet_health.py:147-161 | raising any signal never lowers the penalties |
| FleetHealth.RecentOfRecent | l9gpu/monitoring/fleet_health.py:55-57 | trimming early loses nothing that a later trim would keep |
| FleetHealth.PenaltiesFitTheScale | l9gpu/monitoring/fleet_health.py:147-161 | the penalties are within [0, 100], so the floor at 0 never acts, and are 0 if and only if no signal is raised |
| FleetHealth.KeptXidsNeedAWindow | l9gpu/monitoring/fleet_health.py:112-115 | an XID event can be kept only in a window that is not negative |
| FleetHealth.ZeroWindowKeepsExactlyWhen | l9gpu/monitoring/fleet_health.py:55-57 | in a window of length 0 an XID is kept if and only if one was recorded at the very time of the last reading |
| FleetHealth.ZeroWindowDivides | l9gpu/monitoring/fleet_health.py:113-115 | one reading with XID 79 in a window of length 0 is kept, so that compute divides by zero |
| NcclMonitor.TailAndParse | l9gpu/monitoring/nccl_monitor.py:51-110 | raises if and only if some new line is poison: beyond the limits of json.loads, JSON but no object, an object that overflows, or a record with a truthy type and a rank of which one is a list or an object; otherwise the new records are read, flagged and annotated as specified, and an absent file changes nothing |
| NcclMonitor.PoisonLineLosesPoll | l9gpu/monitoring/nccl_monitor.py:68-108 | a good record is read alone, but a line with a list as type after it makes the poll raise |
| NcclRecords.ReadRecords | l9gpu/monitoring/nccl_monitor.py:68-78 | the loop loads the lines in order, skipping blank and malformed ones and records that a caught conversion error refuses, and raises what the first line raises that does |
| NcclRecords.LineExactlyWhen | l9gpu/monitoring/nccl_monitor.py:69-78 | a line gives one record if and only if it is a JSON object that parses, nothing if and only if it is blank, malformed or refused, and each exception exactly for its kind of line |
| NcclRecords.ParsedFields | l9gpu/monitoring/nccl_monitor.py:30-46 | each number of a record is that under its own key times its factor, or None without the key; milliseconds are read only without microseconds; the type is collective if truthy, else type |
| NcclRecords.ParsedExactlyWhen | l9gpu/monitoring/nccl_monitor.py:29-48 | a record is parsed if and only if all its numbers convert, and skipped if and only if one is refused and none before it overflows |
| NcclRecords.ConvertsExactlyWhen | l9gpu/monitoring/nccl_monitor.py:33-45 | float takes truth values, integers within a double, numbers and the strings it reads, and overflows exactly for an integer beyond a double |
| NcclRecords.FloatLimitIs | l9gpu/monitoring/nccl_monitor.py:33-45 | the least integer beyond a double is 2^1024 - 2^970 |
| NcclRecords.SameKeyExactlyWhen | l9gpu/monitoring/nccl_monitor.py:90-107 | two values are one dictionary key if and only if they are equal strings, both None, or equal numbers of any kind; lists and objects are none |
| NcclRecords.OverflowsExactlyWhen | l9gpu/monitoring/nccl_monitor.py:27-48 | an object raises OverflowError if and only if one of its numbers is an integer beyond a double and none converted before it is refused |
| NcclRecords.ReadingRaisesExactlyWhen | l9gpu/monitoring/nccl_monitor.py:68-78 | reading lines raises if and only if some line is beyond the limits of json.loads, JSON but no object, or an object that overflows |
| NcclRecords.RaisesExactlyWhen | l9gpu/monitoring/nccl_monitor.py:68-108 | lines cannot be read or leave a record that cannot be a dictionary key if and only if one of the lines is poison by itself |
| NcclRecords.NumberStopsReading | l9gpu/monitoring/nccl_monitor.py:72-78 | the JSON text 7 raises |
| NcclRecords.HugeSizeStopsReading | l9gpu/monitoring/nccl_monitor.py:33-47 | an object whose size is an integer beyond the largest double raises |
| NcclRecords.ListTypeStopsFlagging | l9gpu/monitoring/nccl_monitor.py:87-92 | an object with type ["AllReduce"], rank 0 and time 1 is read, but cannot be grouped |
| NcclRecords.ListRankStopsFlagging | l9gpu/monitoring/nccl_monitor.py:104-107 | an object with type AllReduce and rank [0] is read, but cannot be annotated |
| NcclRecords.EmptyListIsHarmless | l9gpu/monitoring/nccl_monitor.py:104-107 | an object with an empty list as type can be annotated: the type is falsy |
| NcclStragglers.FindStragglers | l9gpu/monitoring/nccl_monitor.py:87-108 | raises TypeError if and only if some record with a truthy type and a rank has a list or an object for one of them; otherwise every record gets the specified flag |
| NcclStragglers.GroupDurations | l9gpu/monitoring/nccl_monitor.py:87-92 | the dictionary holds, for exactly the types that have any, their rank and duration pairs in file order; raises only for a type that cannot be hashed |
| NcclStragglers.FlagRanks | l9gpu/monitoring/nccl_monitor.py:94-102 | the dictionary holds a flag for exactly the pairs that have one, whatever the order of types; raises only for a rank that cannot be hashed |
| NcclStragglers.FlagType | l9gpu/monitoring/nccl_monitor.py:96-102 | one type's ranks are flagged by their last timing against the median, other types stay; fails exactly when one of two or more ranks cannot be hashed |
| NcclStragglers.Annotate | l9gpu/monitoring/nccl_monitor.py:104-108 | every record with a truthy type and a rank is marked with its flag, others stay; raises exactly when one of those types or ranks cannot be hashed |
| NcclStragglers.MarkedExactlyWhen | l9gpu/monitoring/nccl_monitor.py:94-108 | a record with a truthy type and a rank is marked 1 if its type has two timings and its rank's last one is slow, else 0; nothing else of any record changes |
| NcclStragglers.MedianIsInTheMiddle | l9gpu/monitoring/nccl_monitor.py:100 | the median is halfway between the values of the two middle ranks, which are one for an odd number of timings |
| NcclStragglers.SortedIsByRank | l9gpu/monitoring/nccl_monitor.py:100 | the value at place k of the sorted timings has at most k below it and at most n - 1 - k above it |
| NcclStragglers.RankIsUnique | l9gpu/monitoring/nccl_monitor.py:100 | only one value is so |
| NcclStragglers.SlowerOfTwoIsFlagged | l9gpu/monitoring/nccl_monitor.py:99-102 | of two ranks with 0 and 2000001 microseconds the second is flagged for a threshold of 1000 ms |
| NcclStragglers.AtMostHalfAreFlagged | l9gpu/monitoring/nccl_monitor.py:96-102 | with a threshold of at least 0, at most n / 2 ranks of a type with n timings are flagged, none if n < 2 |
| NcclStragglers.DocumentedFlagExactlyWhen | l9gpu/monitoring/nccl_monitor.py:99-102 | a rank is flagged exactly for having a duration beyond median plus threshold, as documented, if and only if it has none or there are two timings and its last one is beyond |
| NcclStragglers.LaterTimingClearsFlag | l9gpu/monitoring/nccl_monitor.py:99-102 | rank 0 with timings 900 and then 1 among a rank with 1: its first is slow, its flag false |
| NcclStragglers.FlagsIgnoreCommonDelay | l9gpu/monitoring/nccl_monitor.py:99-102 | adding one constant to all durations changes no flag |
| NcclMonitor.PollReadsOn | l9gpu/monitoring/nccl_monitor.py:61-108 | a poll continues one reading of the log up to its end, and raises if and only if some line of the log is poison |
| NcclMonitor.NothingLostOrReadTwice | l9gpu/monitoring/cli/nccl_monitor.py:112-119 | over any run of whole-line appends and polls, the records emitted are one reading of the text consumed |
| NcclMonitor.RunRaisesExactlyWhen | l9gpu/monitoring/cli/nccl_monitor.py:112-119 | a run of whole-line appends and polls raises if and only if it polls a readable log of which some line is poison |
| NcclMonitor.FinalPollCatchesUp | l9gpu/monitoring/cli/nccl_monitor.py:112-119 | one more poll gives one reading of the whole log, unless some line of the log is poison: then, and only then, it raises |
| NcclMonitor.HalfLineIsLost | l9gpu/monitoring/nccl_monitor.py:66-79 | a line polled when it is half written, of which neither part is JSON, is never emitted, though the log as it ends up holds its record |
| GpuOrdinals.BuildGPU2K8s | k8shelper/k8shelper.go:231-262 | the nested loops compute the map from ordinals to the specified sequence of holders |
| GpuOrdinals.AddPod | k8shelper/k8shelper.go:238-261 | one pod appends its containers' blocks and advances the ordinal past them |
| GpuOrdinals.AddUnits | k8shelper/k8shelper.go:257-260 | one container appends one holder for each unit and advances the ordinal by as many |
| GpuOrdinals.GpuRequestCount | k8shelper/k8shelper.go:270-281 | the sum of the container's requests over the GPU resource keys |
| GpuOrdinals.CountedKinds | k8shelper/k8shelper.go:55-61 | the Go code counts the requests of five kinds of accelerators, the Python code the limits of two, each by name |
| GpuOrdinals.OrdinalsAreDense | k8shelper/k8shelper.go:257-260 | the keys are exactly the numerals of 0 to total - 1 |
| GpuOrdinals.OrdinalHolder | k8shelper/k8shelper.go:257-260 | the numeral of i maps to the i-th holder |
| GpuOrdinals.ContainerOwnsBlock | k8shelper/k8shelper.go:238-261 | each container holds, with its pod's metadata, every ordinal of one contiguous block as long as its request |
| GpuOrdinals.BlocksFollowEachOther | k8shelper/k8shelper.go:238-261 | a block ends where the next begins, so blocks are disjoint and leave no gap |
| GpuOrdinals.GetGpuK8sMapping | l9gpu/monitoring/k8s_gpu_map.py:59-90 | the loop over pods computes the specified assignment |
| GpuOrdinals.PodTakesItsRun | l9gpu/monitoring/k8s_gpu_map.py:61-88 | one more pod takes the ordinals from the next one on, as many as its limits sum to, over any entry there; a negative sum only moves the next ordinal back |
| GpuOrdinals.CountLimits | l9gpu/monitoring/k8s_gpu_map.py:62-69 | the sum of the containers' limits over the two resource names, skipping what is no integer |
| GpuOrdinals.PyRuns | l9gpu/monitoring/k8s_gpu_map.py:61-88 | without negative counts the assignment is an array of one run a pod, ordinals 0 to total - 1 |
| GpuOrdinals.MappingsAgreeExactlyWhen | l9gpu/monitoring/k8s_gpu_map.py:59-88 | the Go and the Python mapping give every ordinal the same pod if and only if each pod's total of requests equals its total of limits |
| GpuOrdinals.GaudiPodsDisagree | l9gpu/monitoring/k8s_gpu_map.py:62-69 | for a pod with one Gaudi accelerator the two mappings do not agree |
| GpuOrdinals.MirroredCounts | l9gpu/monitoring/k8s_gpu_map.py:63-69 | a container whose requests equal its limits, with the two common kinds only, is counted alike |
| GpuOrdinals.MirroredMappingsAgree | l9gpu/monitoring/k8s_gpu_map.py:59-88 | with such containers the two mappings agree |
| K8sCache.Cache.constructor | k8shelper/k8shelper.go:87 | no data, and the zero time |
| K8sCache.Cache.GetGPU2K8s | k8shelper/k8shelper.go:92-126 | a hit answers with the data; else, by the configured node name or that of the environment: no name, failed client, failed listing, or the mapping of that node's pods, stored with an expiry of the configured seconds, or 60, from the time of storing |
| K8sCache.StateIsTheLastFetch | k8shelper/k8shelper.go:119-125 | over any run the cache holds what the last fetch stored, with its expiry, or nothing if none fetched |
| K8sCache.AnswersAreFresh | k8shelper/k8shelper.go:96-125 | every successful answer is the mapping of the pods listed by this call, or by the last call that fetched, less than the cache duration before this call's check |
| K8sCache.HitsExactlyWhen | k8shelper/k8shelper.go:96-98 | a call is answered from the cache if and only if some call before fetched and the last of them is still within its lifetime |
| K8sCache.FailuresChangeNothing | k8shelper/k8shelper.go:105-117 | a failed call leaves the cache as it was |
| K8sCache.FetchesAreSpaced | k8shelper/k8shelper.go:96-124 | under a clock that does not go back, a fetch starts at least a lifetime after any earlier one stored its result |
| K8sCache.SpacedExactlyWhen | k8shelper/k8shelper.go:96-124 | every run keeps its fetches the configured duration apart if and only if that duration fits 64-bit nanoseconds |
| K8sCache.TooEarly | k8shelper/k8shelper.go:119-124 | for a longer duration a run of two calls fetches twice within it |

## Left out

Assumed or abstracted:

- Floating point is real arithmetic: no rounding, NaN or infinities, except the infinite bucket bound.
- Date arithmetic is in whole seconds, as `gen_time_bounds` documents; sub-second times and time zones are not modelled.
- A `chunk_iter` that raises: `producer` then never queues the end marker and `consumer` waits forever. Streams are finite and do not raise.
- Wall clocks that go back, for `FleetHealth` and for the spacing of fetches in `K8sCache`.
- What lies behind calls: `publish_one`, `json_dump`, `float` of a string, `json.loads`, the Kubernetes API and the scrape itself are parameters.
- The NCCL log can be decoded as text: undecodable bytes raise while lines are read and are not modelled.
- Dictionary iteration orders are arbitrary where the source iterates a dictionary to fill another.
- The mutex of the Kubernetes cache: calls are taken one after another.

Not modelled:

- Dataclass and pydantic branches of `asdict_recursive` (reflection), tuples and unsupported types with their TypeError, and a None passed to `asdict_recursive` itself, which no caller does.
- A `name` that is a dictionary or list has the text "" instead of its representation, and the deletion of `name` from the caller's dictionary is not modelled.
- Order of entries in flattened dictionaries.
- `\w` beyond ASCII, and several label sets for one histogram.
- `AttributeGPU2SlurmMetadata` and the aggregation of Slurm and Kubernetes metadata: field extraction around the two readers that are modelled.
- Identification fields of the health metrics.
- The rendezvous barrier of `sacct_backfill`, command lines, sinks, loggers, health checks and metric name tables.

Stated for less than every input:

- SlurmHelpers.HostListedIffDenoted: entries that are a number or two numbers with one dash between; AnyListExactlyWhen takes any entries.
- Flattening.FlatteningKeepsLeaves: keys that are non-empty, free of dots, not `name`, and distinct in a dictionary; FlatExactlyWhen takes any.
- ResourceAttrs.AttrsKeepLeaves: keys that are non-empty, free of dots and distinct in a dictionary; AttrsExactlyWhen takes any.
- PeakAccumulation.PeakIsLeastUpperBound: samples of one shape, lists of one length and dictionaries without None; CommutesExactlyWhen and AssociatesExactlyWhen treat the other cases.
- GpuOrdinals.MappingsAgreeExactlyWhen: pods of distinct names and no negative total of limits, as Kubernetes guarantees.
- NcclMonitor.NothingLostOrReadTwice: the writer appends whole lines; HalfLineIsLost shows what becomes of others, and log rotation is not modelled.
- NcclMonitor.TailAndParse: undecodable bytes, universal newlines and byte positions that differ from character positions are not modelled.
- VllmCounters.ScrapeVllm: the model name, the queue and cache gauges, the adapter count and the histogram fields are not modelled; they pass values on, the last through `histogram_quantile`.
- Flattening.AsDictRecursive: dataclass and pydantic branches, tuples and unsupported types with their TypeError are not modelled.
- MaxFields.Op: dictionaries and lists hold numbers or None; elements of other comparable types are not modelled.
- GpuOrdinals.BuildGPU2K8s: the label filter, the owner resolution and the node lookup are not modelled; what they give for a pod is part of the pod.
- ExpositionFormat.RoundTripExactlyWhen: a sample has a name and label names of the format, no label name twice, and a token that is a number.
