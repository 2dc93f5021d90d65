# netllm: verified models of its stateful core

netllm routes language-model requests from local agents to backends. This project models
the parts of it whose code changes state step by step and whose promises are about whole
histories of such steps, and proves those promises in Dafny.

- **Request ledger and latency histogram** (`telemetry.py`). Events are kept in fixed rings
  of buckets that are cleared lazily. `SlotRing.dfy` relates such a ring to the plain sum
  over the full event log and finds exactly when the two agree, under any clock whatever.
  `SpanRing.dfy`, `Dimension.dfy` and `Histogram.dfy` are the classes over arrays and maps.
- **Module graph** (`analyze-module-graph.py`). `Sccs.dfy` is Tarjan's algorithm with its
  mutable state, proved to list every strongly connected component with more than one
  member. `ModuleGraph.dfy` is the cluster accounting. `Digraph.dfy` and `Ordering.dfy` hold
  paths, cycles and sorting.
- **Log reading** (`admin.py`). `LogFile.dfy` relates the backwards block reader, the chunked
  line counter, the forward window reader and the cursor pages to the lines of a file.
- **Batch shard ledger** (`shard.py`): `ShardLedger.dfy`.
- **Agent supervisor** (`ServerProcess.swift`): `Supervisor.dfy`, a state machine whose steps
  are the stretches of code between two suspension points; `SupervisorLaws.dfy` says what the
  events do to each part of its state, and accounts for all scheduled work.
- **Registry generator** (`generate-registry-artifacts.py`): `Generator.dfy` for the marker
  blocks and the sweep over files, `WordWrap.dfy` for the line wrapping.
- **Backend URLs** (`backend_credentials.py`): `BackendUrls.dfy`.
- **Version ordering** (`VersionOrdering.swift`): `Versions.dfy`.
- `Wrappers.dfy`, `Ascii.dfy` and `Folding.dfy` hold what several of these share.

A class method that changes state is specified by a function of the old state (`Step`,
`Record`, `Assign`, ...) or by a log of all it was ever told; the lemmas are about those
functions and logs. Times and counts that the source keeps as floats are reals here.

## What the proofs show about the code

Some properties hold only under a condition, and the condition is part of the result.

- A ring window shows exactly the events that no later event has overwritten, whatever the
  clock did. So it is right exactly when none that it should count has been overwritten, and
  it never shows too much. A clock that never runs backwards is enough, and so are steps back
  by less than the span if nothing logged lies in a later bucket than the reading. One step
  back by a whole span between events can lose events (`SlotRing.BigStepLoses`), and so can a
  small one at the reading (`SlotRing.EarlyReadLoses`). The payload integers of a dimension and
  the latency snapshot are exact under the same condition, row by row and sample by sample.
- The windows of 60 s, 300 s and 86400 s nest when the larger rings have lost nothing. For
  given times they nest, whatever the positive amounts, exactly when all that the smaller
  window shows survives in the larger ring; a step back by five minutes can break it
  (`SpanRings.BigStepUnnests`).
- `tail_log_file` returns the last n lines for every n except 0, where it returns lines
  although none were asked for.
- `tail_log_file` also splits at a carriage return that neither stands before a line feed nor
  ends the file; the line counter and the forward reader do not. On a whole file the two
  agree exactly when there is no such stray one. A newest page is right, and the pages tile
  the file, exactly when each stray one in the lines of that page lies in a stretch of lines
  at its beginning that hold nothing but carriage returns, and, for a page larger than the
  file, when there is none. Stray ones before the newest page do no harm. The comment in
  `_read_log_window` that the tail splits on every Unicode line boundary does not match the
  code, which splits the bytes.
- `reassign_failed` on a shard that is not held inserts it without evicting. Over a run the
  ledger stays within its bound exactly when no step does so at a full ledger
  (`ShardSteps.LedgerGrows` shows a run that does). Only held shards are marked done exactly
  when no `mark_done` names a shard that is not held; such a mark stays until the shard has
  been assigned after all and is then evicted. Repeated failover ends exactly when equal URLs
  stand next to each other in the list; otherwise some walk cycles.
- The supervisor counts its stable minute from the last healthy check, not over a healthy
  period. An agent that was healthy once and then only crashes is therefore restarted without
  end, always after the shortest delay, once a minute has passed.
- A user start whose launch throws leaves the supervisor in Starting for good, whatever
  happens short of a stop, a forced restart or new port monitoring, exactly when no health
  loop, no scheduled work and no child is left; the very first start can do so.
- In running, unresponsive and failed the health loop is active, exactly until a forced
  restart begins in such a state, or a stop in failed that finds no child running: both cancel
  the loop and leave the state as it is until the port has been released.
- A stop lasts exactly when, as the port has been released, no adoption, no poll of the port
  and no forced restart is pending and no child is left whose exit handler has still to run.
  So a stop that had to kill its child lasts if the child's exit handler runs while the port
  is being released, when the exit is still expected, and is undone if it runs only after
  that.
- The same holds of a forced restart. If the killed child's exit handler runs while the port
  is being released, one child lives afterwards, the one in hand. If it runs only after that,
  the exit is no longer expected: the handler forgets the new child and schedules a restart,
  and two can live (`SupervisorSteps.ForcedRestartTwins`). In general every living child is
  the one in the supervisor's hands, so that at most one lives, exactly as long as no step
  forgets a living one: the exit handler of an earlier child does, and the end of a stop that
  waited for an earlier child.
- A block rewrite is final exactly when the end marker's line comes after the begin marker's
  and the render consists of whole lines free of the end marker.
- `normalize_backend_url` is idempotent exactly for URLs that are http(s) or have no white
  space right before their trailing slashes. Of the others, one just added is not ignored unless it
  was there before, and removing it again leaves it there; over a run of edits the list stands
  for the edited keys throughout exactly when none of the others is newly added. A new
  credential row that is given both a key and a variable keeps both, and the same upsert again
  drops the variable.
- A release field that does not fit 64 bits reads as 0, so `1.0.99999999999999999999` equals
  `1.0`.

## Model

| member | source | states |
|---|---|---|
| SlotRing.RingShows | packages/netllm-agent/src/netllm_agent/telemetry.py:229-251 | whatever the clock did, a window shows exactly the logged events of the last n buckets that no later event has overwritten |
| SlotRing.RingExact | packages/netllm-agent/src/netllm_agent/telemetry.py:241-251 | if no event the window should count was overwritten, the lazily cleared ring totals exactly the logged events of the last n buckets |
| SlotRing.RingExactIff | packages/netllm-agent/src/netllm_agent/telemetry.py:229-251 | for positive amounts that condition is exact, whatever the clock did, and the ring never shows more than was recorded |
| SlotRing.SmallStepsKeep | packages/netllm-agent/src/netllm_agent/telemetry.py:229-251 | backward clock steps shorter than the span lose nothing if nothing logged lies in a later bucket than the reading |
| SlotRing.NondecreasingKeeps | packages/netllm-agent/src/netllm_agent/telemetry.py:229-251 | a clock that never runs backwards loses nothing |
| SlotRing.BigStepLoses | packages/netllm-agent/src/netllm_agent/telemetry.py:229-251 | a concrete step back by a whole span makes the 60 s window too small |
| SlotRing.EarlyReadLoses | packages/netllm-agent/src/netllm_agent/telemetry.py:229-251 | that last condition is needed: a concrete reading 40 s before the last event makes the 60 s window too small |
| SlotRing.BucketShows | packages/netllm-agent/src/netllm_agent/telemetry.py:267-279 | whatever the clock did, one bucket of a series shows the events of its tick that survive |
| SlotRing.BucketExact | packages/netllm-agent/src/netllm_agent/telemetry.py:267-279 | one bucket of a series is the sum of the logged events of its tick if none was overwritten |
| SlotRing.BucketsMakeWindow | packages/netllm-agent/src/netllm_agent/telemetry.py:241-279 | the values of a series add up to the window, overwritten or not, when nothing lies later than now |
| SlotRing.OverCovers | packages/netllm-agent/src/netllm_agent/telemetry.py:267-279 | what was recorded in the buckets of a series adds up to what was recorded in the window |
| SlotRing.WindowInSeconds | packages/netllm-agent/src/netllm_agent/telemetry.py:172-251 | a window of n buckets of w seconds covers every event from now - (n-1)w on and none at or before now - nw |
| SlotRing.Nested | packages/netllm-agent/src/netllm_agent/telemetry.py:172-251 | a span that reaches at least one of its buckets further back has at least as much recorded in its window |
| SlotRing.RingsNestIff | packages/netllm-agent/src/netllm_agent/telemetry.py:172-251 | for events at given times, the windows that two such rings show nest for all positive amounts exactly when all that the smaller shows survives in the larger |
| SpanRings.SpanRing.Add | packages/netllm-agent/src/netllm_agent/telemetry.py:229-239 | adding keeps all spans packed in the one array in step with the log extended by the event |
| SpanRings.SpanRing.Window | packages/netllm-agent/src/netllm_agent/telemetry.py:241-251 | the window is the sum over the log, exactly if nothing it counts was overwritten, and less otherwise |
| SpanRings.SpanRing.Recent | packages/netllm-agent/src/netllm_agent/telemetry.py:253-265 | the same for the last seconds, rounded down to whole buckets, at least one and at most the span |
| SpanRings.SpanRing.Series | packages/netllm-agent/src/netllm_agent/telemetry.py:267-279 | each value is its bucket's, oldest first, and the log's if nothing was overwritten; the values add up to the window whenever nothing lies later than now |
| SpanRings.SeriesExact | packages/netllm-agent/src/netllm_agent/telemetry.py:267-279 | series and window agree: bucket sums and their total against the log |
| SpanRings.SpansNest | packages/netllm-agent/src/netllm_agent/telemetry.py:172-188 | the windows shown for 60 s, 300 s and 86400 s nest when the two larger rings have lost nothing they should count |
| SpanRings.SmallStepsNest | packages/netllm-agent/src/netllm_agent/telemetry.py:172-251 | so they do under backward clock steps shorter than the spans, if nothing logged lies in a later bucket than the reading |
| SpanRings.NondecreasingNest | packages/netllm-agent/src/netllm_agent/telemetry.py:172-251 | so they do under a clock that never runs backwards |
| SpanRings.BigStepUnnests | packages/netllm-agent/src/netllm_agent/telemetry.py:172-251 | a concrete step back by five minutes makes the 60 s window show more than the 300 s one |
| KeyFold.RowsExact | packages/netllm-agent/src/netllm_agent/telemetry.py:294-310 | after any run the rows are the first cap distinct keys in order of arrival, then the overflow row; each holds exactly its requests, and truncated counts the requests met by a full map |
| KeyFold.RowsCapped | packages/netllm-agent/src/netllm_agent/telemetry.py:294-310 | at most cap + 1 distinct rows, and a row past the cap is the overflow row |
| KeyFold.Conserved | packages/netllm-agent/src/netllm_agent/telemetry.py:194-310 | over all rows, the overflow row included, a window records what all attributed requests would in one ring |
| Dimensions.Dimension.RingFor | packages/netllm-agent/src/netllm_agent/telemetry.py:294-310 | the ring returned is the key's own, the overflow row's when the map is full, none for an empty key; no other row changes |
| Dimensions.Dimension.Record | packages/netllm-agent/src/netllm_agent/telemetry.py:294-310 | each request extends the history, and keys, rings and truncated stay those of the whole history |
| Dimensions.Dimension.Payload | packages/netllm-agent/src/netllm_agent/telemetry.py:312-319 | per row, the integer totals of the three spans over that row's events, in seconds: 60, 300 and 86400 |
| Dimensions.RowInSeconds | packages/netllm-agent/src/netllm_agent/telemetry.py:172-319 | the three columns count no request that is 60, 300 or 86400 s old or older and, if nothing was overwritten, all of the last 59, 295 and 85500 s |
| Dimensions.RowExactIff | packages/netllm-agent/src/netllm_agent/telemetry.py:312-319 | a row's integer never exceeds what the row recorded, and equals it exactly when no request it should count was overwritten: truncation drops nothing |
| Dimensions.PayloadConservedIff | packages/netllm-agent/src/netllm_agent/telemetry.py:282-319 | whatever the clock did, the integers shown for all rows never add up to more than the nonempty-key requests in the window, and to exactly those precisely when no row has lost one |
| Dimensions.PayloadConserved | packages/netllm-agent/src/netllm_agent/telemetry.py:282-319 | so they do under a clock that never ran backwards |
| LatencyLadder.Quantile | packages/netllm-agent/src/netllm_agent/telemetry.py:513-539 | the scan returns no value exactly when every bucket is empty, and otherwise, for q in (0, 1], the least value below which there lies the part q of all counts, each bucket spread evenly over its range; the last edge if that part reaches into the open top bucket |
| LatencyLadder.QuantileMass | packages/netllm-agent/src/netllm_agent/telemetry.py:513-539 | the same of the function that specifies the scan |
| LatencyLadder.BucketRange | packages/netllm-agent/src/netllm_agent/telemetry.py:446-497 | the range of a bucket is that of the values it counts |
| LatencyLadder.NoneIffEmpty | packages/netllm-agent/src/netllm_agent/telemetry.py:513-539 | no value exactly when every bucket is empty |
| LatencyLadder.QuantileBounded | packages/netllm-agent/src/netllm_agent/telemetry.py:513-539 | the value lies between 0 and the top edge |
| LatencyLadder.QuantileMonotone | packages/netllm-agent/src/netllm_agent/telemetry.py:513-539 | a larger q never gives a smaller value, so p50 <= p95 for every bucket vector |
| LatencyLadder.QuantileRank | packages/netllm-agent/src/netllm_agent/telemetry.py:513-539 | the value lies in the closed range of the bucket that holds the ceil(qn)-th smallest of the n tallied values |
| LatencyLadder.RankExists | packages/netllm-agent/src/netllm_agent/telemetry.py:513-539 | any values have such a rank and a value of that rank, for every q in (0, 1] |
| LatencyHistograms.LatencyHistogram.Observe | packages/netllm-agent/src/netllm_agent/telemetry.py:489-497 | every slot row of the flat array stays what the log of all samples implies |
| LatencyHistograms.LatencyHistogram.Snapshot | packages/netllm-agent/src/netllm_agent/telemetry.py:499-510 | each bucket's total over the slots still inside the window |
| LatencyHistograms.SnapshotExactIff | packages/netllm-agent/src/netllm_agent/telemetry.py:489-510 | a snapshot tallies the samples of the window, bucket by bucket, exactly when none of them was overwritten |
| LatencyHistograms.SmallStepsKeepSamples | packages/netllm-agent/src/netllm_agent/telemetry.py:489-510 | none is under backward clock steps shorter than the span, if no sample lies in a later bucket than the reading |
| LatencyHistograms.NondecreasingKeepsSamples | packages/netllm-agent/src/netllm_agent/telemetry.py:489-510 | nor under a clock that never runs backwards |
| LatencyHistograms.LatencyHistogram.Percentile | packages/netllm-agent/src/netllm_agent/telemetry.py:724-735 | observe, snapshot and quantile together: if no sample of the window was overwritten, the reported percentile is that least value for their tally, lies in the bucket of the ceil(qn)-th smallest of them, and is absent exactly when there is none |
| LatencyHistograms.PercentileExact | packages/netllm-agent/src/netllm_agent/telemetry.py:489-539 | the same as a fact about logs and snapshots |
| Sccs.Tarjan.Strong | scripts/analyze-module-graph.py:697-717 | a call keeps the traversal invariant, changes no index or low link already set, reaches only what v reaches, and leaves v on the stack only with a low link some reachable stacked vertex has |
| Sccs.Tarjan.Follow | scripts/analyze-module-graph.py:702-707 | following one edge, into a new, a stacked or a finished vertex, keeps the invariant of the open call |
| Sccs.Tarjan.PopThrough | scripts/analyze-module-graph.py:709-715 | pops exactly what stands above v, and v |
| Sccs.Tarjan.Close | scripts/analyze-module-graph.py:708-717 | if v is a root, what stands from v upwards is popped and appended as one sorted list when it has more than one member; otherwise stack and list stay as they are; the call's invariant is kept |
| Sccs.AboveIsScc | scripts/analyze-module-graph.py:708-715 | when a vertex's low link is its own index, what stands above it on the stack is one whole strongly connected component |
| Sccs.Components | scripts/analyze-module-graph.py:689-723 | terminates on every graph and lists, sorted, exactly the strongly connected components with more than one member among what the nodes reach: each list is mutually reachable and maximal, and any two distinct mutually reachable vertices share one |
| Sccs.ListingUnique | scripts/analyze-module-graph.py:723-723 | that promise leaves one possible result |
| ModuleGraph.CallEdges | scripts/analyze-module-graph.py:491-507 | one edge for each resolvable call pair, with its sites and both clusters, and no others |
| ModuleGraph.CountCalls | scripts/analyze-module-graph.py:601-609 | the three counters are the numbers of edges within, out of and into a cluster |
| ModuleGraph.Metrics | scripts/analyze-module-graph.py:596-634 | every cluster has these three numbers, and no other name has any |
| ModuleGraph.MetricsConserved | scripts/analyze-module-graph.py:596-634 | the reported internal and outgoing numbers of all clusters add up to the number of edges; the outgoing ones and the incoming ones each add up to the cross-cluster edges |
| ModuleGraph.EdgesConserved | scripts/analyze-module-graph.py:596-609 | the same for sums over any list of edges between named clusters |
| ModuleGraph.Weights | scripts/analyze-module-graph.py:636-640 | the weight of a pair is the number of call sites between the two clusters, and only pairs with an edge have one |
| ModuleGraph.WeightsConserved | scripts/analyze-module-graph.py:636-643 | all weights together are the call sites that cross clusters |
| ModuleGraph.CallingIff | scripts/analyze-module-graph.py:634-648 | the cluster graph has an edge exactly where some call crosses |
| ModuleGraph.TwoCyclesIff | scripts/analyze-module-graph.py:650-652 | a pair of clusters is reported exactly when calls cross between them in both directions, once, in ascending order |
| ModuleGraph.TwoCycleInComponent | scripts/analyze-module-graph.py:645-652 | each reported two-cycle lies inside one reported component |
| ModuleGraph.NoComponentsIffAcyclic | scripts/analyze-module-graph.py:645-649 | no component is reported exactly when the cluster graph has no cycle |
| ModuleGraph.Analyze | scripts/analyze-module-graph.py:488-652 | for one report: every function lies in the cluster listed for it, or in UNMAPPED; the numbers account for every edge, the weights for every crossing call site, the components are exactly those of the cluster graph, the two-cycles are exactly the pairs with calls in both directions, each lies in one component, and there is no component exactly when the graph is acyclic |
| LogLines.CountLogLines | packages/netllm-agent/src/netllm_agent/admin.py:1031-1049 | for every chunk size the count is the number of lines a forward reader sees |
| LogLines.LineCount | packages/netllm-agent/src/netllm_agent/admin.py:1031-1049 | a file has one line per line feed and one more if it does not end in one |
| LogLines.SuffixLines | packages/netllm-agent/src/netllm_agent/admin.py:917-943 | splitting a suffix of a file gives the file's last lines but for the first piece |
| LogLines.TailLogFile | packages/netllm-agent/src/netllm_agent/admin.py:917-943 | for every file and block size: the last n lines of the whole file for n other than 0, truncated exactly when there are more than n, and wrong for n = 0 on a nonempty file |
| LogPages.SplitByLine | packages/netllm-agent/src/netllm_agent/admin.py:936-1083 | `splitlines` of a file is its physical lines, each cut at its carriage returns |
| LogPages.AgreeIff | packages/netllm-agent/src/netllm_agent/admin.py:936-1083 | the tail and the forward reader see the same lines of a file exactly when no carriage return is stray |
| LogPages.TailRightIff | packages/netllm-agent/src/netllm_agent/admin.py:936-1083 | the last n lines of both are the same exactly when the stray ones in them are harmless |
| LogPages.FileWindowIff | packages/netllm-agent/src/netllm_agent/admin.py:1066-1086 | a window is the one the forward reader would show exactly when it has a cursor, or is empty, or its stray carriage returns are harmless |
| LogPages.ReadLogWindow | packages/netllm-agent/src/netllm_agent/admin.py:1052-1086 | a newest window is the numbered tail, one at a cursor the numbered lines before it |
| LogPages.LogsPayload | packages/netllm-agent/src/netllm_agent/admin.py:1104-1131 | the page has the window's lines and numbers, the total, and the cursors that belong to them; a missing file has no lines |
| LogPages.FilePageIff | packages/netllm-agent/src/netllm_agent/admin.py:1104-1131 | that page is the one of the file's lines exactly when it has a cursor or the stray carriage returns in its lines are harmless |
| LogPages.ChainTiles | packages/netllm-agent/src/netllm_agent/admin.py:1104-1131 | from any cursor, following next_before tiles the lines before it: each once, in order, with its number, in as few pages as the limit allows |
| LogPages.FileTilesIff | packages/netllm-agent/src/netllm_agent/admin.py:1104-1131 | the payload pages from the newest one on tile the file's lines exactly when the stray carriage returns in the newest page are harmless; their number is minimal in any case |
| LogPages.FileTiles | packages/netllm-agent/src/netllm_agent/admin.py:1104-1131 | so they do if no line of the newest page holds a stray carriage return |
| LogPages.PageCountIsCeiling | packages/netllm-agent/src/netllm_agent/admin.py:1104-1131 | the number of pages is the ceiling of lines over page size |
| LogPages.PageShape | packages/netllm-agent/src/netllm_agent/admin.py:1104-1131 | no page holds more than tail lines, 2000 at most and 1 at least; at a cursor it holds as many as there are up to that, ending right before the cursor or with the last line; first and last line number, truncated and next_before are those of the lines shown |
| LogPages.NewestEnds | packages/netllm-agent/src/netllm_agent/admin.py:1104-1131 | without stray carriage returns the newest page ends with the last line |
| LogPages.PageStable | packages/netllm-agent/src/netllm_agent/admin.py:1088-1131 | a page at a fixed cursor stays as it is whatever is appended, if the lines before the cursor had ended |
| LogPages.StrayExample | packages/netllm-agent/src/netllm_agent/admin.py:936-1083 | a file in which the tail sees more lines than the forward reader |
| LogPages.EarlyStrayExample | packages/netllm-agent/src/netllm_agent/admin.py:1104-1131 | a file with a stray carriage return before its newest page, which is right all the same |
| ShardLedgers.BatchRequestLedger.EvictIfFull | packages/netllm-agent/src/netllm_agent/shard.py:40-46 | a full ledger loses exactly the older half of its keys, and their marks |
| ShardLedgers.BatchRequestLedger.Assign | packages/netllm-agent/src/netllm_agent/shard.py:48-58 | a held key keeps its backend; a new one gets round robin over the enabled ones, after eviction |
| ShardLedgers.BatchRequestLedger.ReassignFailed | packages/netllm-agent/src/netllm_agent/shard.py:60-83 | nothing for a completed shard; otherwise the first different URL after the current one, written without eviction |
| ShardLedgers.BatchRequestLedger.MarkDone | packages/netllm-agent/src/netllm_agent/shard.py:85-86 | only the done-set changes |
| ShardSteps.BoundKeptIff | packages/netllm-agent/src/netllm_agent/shard.py:40-83 | an operation keeps the bound of 8192 exactly unless it reassigns a key that a full ledger does not hold |
| ShardSteps.RunBoundIff | packages/netllm-agent/src/netllm_agent/shard.py:40-83 | over every run the bound holds throughout exactly when no step is such a reassignment |
| ShardSteps.LedgerGrows | packages/netllm-agent/src/netllm_agent/shard.py:40-83 | a run from launch of 8192 assignments and one such reassignment that exceeds the bound |
| ShardSteps.RunBounded | packages/netllm-agent/src/netllm_agent/shard.py:40-86 | every run that reassigns and marks held keys keeps at most 8192 assignments and completed within the held keys |
| ShardSteps.MarksHeldIff | packages/netllm-agent/src/netllm_agent/shard.py:40-86 | an operation keeps completed within the held keys exactly unless it marks a key that is not held |
| ShardSteps.RunMarksHeldIff | packages/netllm-agent/src/netllm_agent/shard.py:40-86 | over every run they stay within throughout exactly when no mark names a key that is not held |
| ShardSteps.MarkLeavesIff | packages/netllm-agent/src/netllm_agent/shard.py:40-86 | a mark leaves exactly when its held key is evicted, so one on a key that is not held stays until the key is assigned |
| ShardSteps.StrayMark | packages/netllm-agent/src/netllm_agent/shard.py:85-86 | a single mark after launch already leaves completed outside the held keys |
| ShardSteps.CompletedSticks | packages/netllm-agent/src/netllm_agent/shard.py:60-86 | over any run a held completed shard keeps its backend and its mark until evicted |
| ShardSteps.AssignSticks | packages/netllm-agent/src/netllm_agent/shard.py:48-58 | assigning again, with whatever backends, returns the same backend and changes nothing |
| ShardSteps.YoungSurvive | packages/netllm-agent/src/netllm_agent/shard.py:40-58 | an assignment survives every run with fewer than 4096 insertions after it |
| ShardSteps.NextIs | packages/netllm-agent/src/netllm_agent/shard.py:72-83 | a failover finds a URL exactly when one other than the current stands behind the first place of the current one, or anywhere if that is not listed, and then the first such |
| ShardSteps.FailoverStores | packages/netllm-agent/src/netllm_agent/shard.py:60-83 | the URL that a failover returns is what every later assignment of that shard returns; no other entry and no mark changes; none is returned exactly when the shard is done or no other URL follows, and then nothing changes |
| ShardSteps.WalkStores | packages/netllm-agent/src/netllm_agent/shard.py:60-83 | after k failovers in a row the ledger holds the URL that the walk has come to, and no other entry has changed |
| ShardSteps.NextForward | packages/netllm-agent/src/netllm_agent/shard.py:72-83 | with equal URLs together, failover moves strictly forward in the list |
| ShardSteps.WalkAdvances | packages/netllm-agent/src/netllm_agent/shard.py:72-83 | k failovers advance at least k places |
| ShardSteps.WalksEndIff | packages/netllm-agent/src/netllm_agent/shard.py:72-83 | every failover walk ends within fewer moves than there are URLs if equal URLs stand together, and otherwise some walk returns to where it began |
| ShardSteps.EvenSpread | packages/netllm-agent/src/netllm_agent/shard.py:48-58 | k fresh consecutive shards of a batch put k/m rounded down or up on each of m distinct URLs |
| ShardSteps.EnabledOnly | packages/netllm-agent/src/netllm_agent/shard.py:52-72 | the URLs to choose from are those of the enabled backends, and none exactly when none is enabled |
| ShardSteps.EnabledSplit | packages/netllm-agent/src/netllm_agent/shard.py:52-72 | they stand in the order of the backends |
| SupervisorSteps.StepHealth | apps/netllm-mac/Sources/Server/ServerProcess.swift:65-369 | every step keeps: running below 3 failures, unresponsive at 3 or more; unless a forced restart waits for the port, the health loop active in running and unresponsive, in failed unless a stop does, and no exit expected in stopped |
| SupervisorSteps.StepInv | apps/netllm-mac/Sources/Server/ServerProcess.swift:65-369 | every step keeps these, the restart budget, delays of 5, 10 or 20 s, a held child that is alive or not yet handled, and stops that wait only for launched children |
| SupervisorSteps.StepBudget | apps/netllm-mac/Sources/Server/ServerProcess.swift:65-369 | every step keeps the counter at most 3 and automatic restarts within 3 per renewal plus the counter |
| SupervisorSteps.RestartsBudgeted | apps/netllm-mac/Sources/Server/ServerProcess.swift:240-263 | over every run, the events that schedule an automatic restart number at most 3 times the renewing events plus one, and automatic launches are no more |
| SupervisorSteps.StepCounts | apps/netllm-mac/Sources/Server/ServerProcess.swift:65-369 | the budget is renewed by exactly a user start from stopped or failed, a forced restart, an adoption, or a failure a minute or more after the last healthy check |
| SupervisorSteps.HealthNoted | apps/netllm-mac/Sources/Server/ServerProcess.swift:289-369 | only adoptions and healthy ticks outside stopped and stopping set the last healthy time, and they lead to running without failures |
| SupervisorSteps.Recovers | apps/netllm-mac/Sources/Server/ServerProcess.swift:265-346 | in every reachable running or unresponsive state unless a forced restart waits for the port, and in every failed one unless a stop does either, a healthy tick is possible and leads to running |
| SupervisorSteps.WatchedIff | apps/netllm-mac/Sources/Server/ServerProcess.swift:109-149 | one step keeps the health loop active in running, unresponsive and failed exactly when it is neither a forced restart in such a state nor a stop in failed that finds no child running |
| SupervisorSteps.RunWatchedIff | apps/netllm-mac/Sources/Server/ServerProcess.swift:65-369 | over every run the loop is active throughout in these states exactly when there is no such step |
| SupervisorSteps.ThreeStrikes | apps/netllm-mac/Sources/Server/ServerProcess.swift:289-346 | from running, exactly the third unhealthy tick in a row makes it unresponsive, and more change nothing else |
| SupervisorSteps.GivesUpIff | apps/netllm-mac/Sources/Server/ServerProcess.swift:240-263 | an unexpected failure is final exactly when the budget is spent and the last healthy check, if any, is less than a minute old |
| SupervisorLaws.FailureIff | apps/netllm-mac/Sources/Server/ServerProcess.swift:205-263 | as an event: a failing exit, or a clean one after which the port is dead, is given up exactly then, and otherwise restarted after 5, 10 or 20 s, as the first, second or third on its budget |
| SupervisorSteps.StaleHealthRestartsForever | apps/netllm-mac/Sources/Server/ServerProcess.swift:205-263 | once a minute has passed since the last healthy check, a run of any number of crashes at nondecreasing times, each followed by its restart, restarts every time, always after 5 s |
| SupervisorSteps.StaleReached | apps/netllm-mac/Sources/Server/ServerProcess.swift:65-346 | a run from launch that leads to such a state |
| SupervisorSteps.NeverHealthyGivesUp | apps/netllm-mac/Sources/Server/ServerProcess.swift:65-263 | from launch, an agent that never becomes healthy is restarted after 5, 10 and 20 s and fails at exactly the fourth crash |
| SupervisorLaws.CleanExitPolls | apps/netllm-mac/Sources/Server/ServerProcess.swift:205-263 | an unexpected exit with code 0 begins a poll and leaves state and counters alone; a healthy answer adopts with a fresh budget, none restarts, or fails exactly when the budget is spent and health is recent or was never seen |
| SupervisorLaws.PollsMove | apps/netllm-mac/Sources/Server/ServerProcess.swift:205-238 | a poll begins with exactly such an exit |
| SupervisorLaws.DelayedMove | apps/netllm-mac/Sources/Server/ServerProcess.swift:205-263 | a restart is scheduled by exactly a failure that is not final, with its delay |
| SupervisorLaws.LaunchesMove | apps/netllm-mac/Sources/Server/ServerProcess.swift:65-263 | a child is launched by exactly a start, a forced restart or a due restart that finds no child alive and does not throw |
| SupervisorLaws.LoopMoves | apps/netllm-mac/Sources/Server/ServerProcess.swift:65-369 | the health loop is switched on and off by exactly the events named |
| SupervisorLaws.StateMoves | apps/netllm-mac/Sources/Server/ServerProcess.swift:65-369 | the state and process id after every event |
| SupervisorLaws.RunAccounts | apps/netllm-mac/Sources/Server/ServerProcess.swift:65-369 | over every run from launch no scheduled work is lost or invented: each adoption asked for, poll begun, restart scheduled, stop and forced restart has been carried out once or is pending, and children are numbered by launches |
| SupervisorLaws.ChildrenAccounted | apps/netllm-mac/Sources/Server/ServerProcess.swift:65-369 | over every run each child launched lives, has an exit handler still to run, or has had it run once |
| SupervisorSteps.StuckIff | apps/netllm-mac/Sources/Server/ServerProcess.swift:65-369 | Starting is left unchanged by every run without stop, forced restart or new monitoring exactly when no health loop, no scheduled work and no child is left |
| SupervisorSteps.StartSticksIff | apps/netllm-mac/Sources/Server/ServerProcess.swift:65-88 | a user start leads there exactly when the port is not healthy, the launch throws and nothing of that is left |
| SupervisorSteps.FirstStartSticks | apps/netllm-mac/Sources/Server/ServerProcess.swift:65-88 | a first start after launch that throws does |
| SupervisorSteps.StuckNeedsStop | apps/netllm-mac/Sources/Server/ServerProcess.swift:65-149 | in that state start does nothing; a stop that has released the port leads to Stopped, and a forced restart that launches leads out |
| SupervisorSteps.StopLastsIff | apps/netllm-mac/Sources/Server/ServerProcess.swift:109-238 | Stopped stays stopped in every run without user action exactly when no adoption, no poll, no forced restart and no child with a pending exit handler is left |
| SupervisorSteps.StopFinishLastsIff | apps/netllm-mac/Sources/Server/ServerProcess.swift:109-238 | so a stop lasts exactly when that is so as the port has been released |
| SupervisorSteps.KillingStopLasts | apps/netllm-mac/Sources/Server/ServerProcess.swift:109-238 | a stop that kills its child lasts if the exit handler runs before the port has been released |
| SupervisorSteps.KillingStopUndone | apps/netllm-mac/Sources/Server/ServerProcess.swift:109-238 | it does not last if the exit handler runs only after that |
| SupervisorSteps.StopWaitReached | apps/netllm-mac/Sources/Server/ServerProcess.swift:65-132 | the first start and a stop lead to such a wait |
| SupervisorSteps.TrackedIff | apps/netllm-mac/Sources/Server/ServerProcess.swift:109-263 | a step keeps the only living child in hand exactly when it is neither the exit handler of an earlier child nor the end of a stop that waited for one |
| SupervisorSteps.RunTrackedIff | apps/netllm-mac/Sources/Server/ServerProcess.swift:109-263 | over every run at most one child lives, the one in hand, exactly when no step forgets one |
| SupervisorSteps.TrackedIsOne | apps/netllm-mac/Sources/Server/ServerProcess.swift:151-203 | as long as every living child is in hand, at most one lives |
| SupervisorSteps.ForcedChildIff | apps/netllm-mac/Sources/Server/ServerProcess.swift:135-238 | the child that a forced restart launches can be forgotten exactly when, as the port has been released, some exit handler has still to run or a stop waits for an earlier child |
| SupervisorSteps.ForcedRestartClean | apps/netllm-mac/Sources/Server/ServerProcess.swift:135-238 | if the exit handler of the killed child runs before the port has been released, one child lives afterwards, in hand and not to be forgotten, and nothing is scheduled |
| SupervisorSteps.ForcedRestartTwins | apps/netllm-mac/Sources/Server/ServerProcess.swift:135-263 | if the exit handler of the killed child runs only after the port has been released, it drops the new child and schedules a restart, after which two children live |
| SupervisorSteps.HoldReached | apps/netllm-mac/Sources/Server/ServerProcess.swift:65-203 | the first start leads to a state that both speak of |
| Supervisors.ServerProcess.Start | apps/netllm-mac/Sources/Server/ServerProcess.swift:65-88 | new state, counters, scheduled adoption and result of a user start |
| Supervisors.ServerProcess.DoStart | apps/netllm-mac/Sources/Server/ServerProcess.swift:151-203 | a live child or a throwing launch changes nothing; otherwise the child is recorded and the health loop runs |
| Supervisors.ServerProcess.StopBegin | apps/netllm-mac/Sources/Server/ServerProcess.swift:109-132 | a stop up to its wait for the child, or up to the release of the port when no child runs |
| Supervisors.ServerProcess.ForceBegin | apps/netllm-mac/Sources/Server/ServerProcess.swift:135-144 | a forced restart up to the release of the port: the exit is expected, the loop cancelled, the held child killed and let go of |
| Supervisors.ServerProcess.ForceFinish | apps/netllm-mac/Sources/Server/ServerProcess.swift:144-149 | the port is released: all counters are cleared, no exit is expected any more and a start follows from Stopped |
| Supervisors.ServerProcess.StopEnd | apps/netllm-mac/Sources/Server/ServerProcess.swift:109-132 | a waiting stop kills its child if it still lives, lets go of the held one and goes on to release the port |
| Supervisors.ServerProcess.StopFinish | apps/netllm-mac/Sources/Server/ServerProcess.swift:129-132 | the port is released: no exit is expected any more and the state is Stopped |
| Supervisors.ServerProcess.HandleProcessExit | apps/netllm-mac/Sources/Server/ServerProcess.swift:205-238 | an expected exit stops, a clean one polls the port, another one restarts |
| Supervisors.ServerProcess.TryAutoRestart | apps/netllm-mac/Sources/Server/ServerProcess.swift:240-263 | budget renewal, giving up, and the delay of the next restart |
| Supervisors.ServerProcess.TickHealth | apps/netllm-mac/Sources/Server/ServerProcess.swift:289-346 | the effect of one health check in each state |
| Supervisors.ServerProcess.AdoptHealthyListener | apps/netllm-mac/Sources/Server/ServerProcess.swift:362-369 | adoption leads to running with a fresh budget and the health loop on |
| Supervisors.ServerProcess.Take | apps/netllm-mac/Sources/Server/ServerProcess.swift:65-369 | performing any enabled event on the object is one step of the state machine and keeps its invariants |
| MarkerBlocks.RewriteFinalIff | scripts/generate-registry-artifacts.py:157-169 | rewriting twice is rewriting once exactly when the end marker's line comes after the begin marker's and the render is whole lines without the end marker |
| MarkerBlocks.StableIff | scripts/generate-registry-artifacts.py:157-169 | a rewrite changes nothing exactly when the render already stands between the markers' lines |
| MarkerBlocks.OthersKept | scripts/generate-registry-artifacts.py:157-169 | rewriting one block leaves every other, apart from it, findable at its old or correspondingly shifted place, and stable exactly if it was |
| MarkerBlocks.SelfStable | scripts/generate-registry-artifacts.py:157-169 | a rewritten block is where it was and stable |
| RegistryArtifacts.Generate | scripts/generate-registry-artifacts.py:315-356 | the loop over texts collected per path fails exactly when some block cannot be rewritten, at the first such one and for its reason; otherwise with --check the files stay and the code is 0 exactly when every block is up to date, and without it all successive rewrites are on disk and the code is 0 |
| RegistryArtifacts.FinishOutcomes | scripts/generate-registry-artifacts.py:315-356 | the same of the fold that specifies the loop |
| RegistryArtifacts.CheckPassesIff | scripts/generate-registry-artifacts.py:324-356 | --check passes exactly when every block is stable, and then a write changes nothing |
| MarkerBlocks.RewritesCommute | scripts/generate-registry-artifacts.py:157-169 | rewriting two blocks that lie apart gives the same text in either order |
| RegistryArtifacts.OnePassSettles | scripts/generate-registry-artifacts.py:324-356 | for well-placed blocks, after one write --check passes and a second write changes nothing |
| RegistryArtifacts.OutsideUnchanged | scripts/generate-registry-artifacts.py:324-356 | for well-placed blocks, all text outside the marked regions is unchanged: emptying every block gives the same files before and after a write |
| RegistryArtifacts.OthersUntouched | scripts/generate-registry-artifacts.py:324-356 | a file that no block names stays as it is |
| RegistryArtifacts.OrderFree | scripts/generate-registry-artifacts.py:324-356 | for well-placed blocks the result does not depend on their order |
| RegistryArtifacts.MadeWellPlaced | scripts/generate-registry-artifacts.py:157-169 | blocks made from marker ids with marker-free renders are well placed once each finds its markers in order and those of a file lie apart |
| WordWrap.Wrap | scripts/generate-registry-artifacts.py:233-246 | the loop produces the texts of the greedy lines, and one empty line for no words |
| WordWrap.GreedyLayout | scripts/generate-registry-artifacts.py:233-246 | the lines hold all words in order, and only a line of one word may exceed the width |
| WordWrap.GreedyFewest | scripts/generate-registry-artifacts.py:233-246 | no other such layout of the words has fewer lines |
| UrlKeys.CoreIs | packages/netllm-core/src/netllm_core/backend_credentials.py:19-29 | what is cut off is the white space around the URL and the slashes before that at the end, and all of it |
| UrlKeys.VersionAddedIff | packages/netllm-core/src/netllm_core/backend_credentials.py:19-29 | /v1 is appended to exactly the URLs with scheme http or https, in any case, and a host that do not end in it |
| UrlKeys.NormalizeIdempotentIff | packages/netllm-core/src/netllm_core/backend_credentials.py:19-29 | normalising twice is normalising once exactly for URLs that are not loose |
| IgnoreList.IsIgnoredIff | packages/netllm-core/src/netllm_core/backend_credentials.py:45-87 | a URL is ignored exactly when it names something, some entry has its normalised form, and no backend row has, even a disabled one |
| IgnoreList.RemovedMembers | packages/netllm-core/src/netllm_core/backend_credentials.py:107-133 | exactly the entries with the normalised form of the URL go; a URL that names nothing neither adds nor removes |
| IgnoreList.EditTrackedIff | packages/netllm-core/src/netllm_core/backend_credentials.py:59-133 | one edit changes the keys the list stands for as it would change a set, exactly unless it adds a loose URL that is not there |
| IgnoreList.EditsTrackedIff | packages/netllm-core/src/netllm_core/backend_credentials.py:59-133 | over any run of edits the list stands throughout for the keys that a set edited by key would hold, exactly when no add is of a loose URL that is not there at that time |
| IgnoreList.EditsTracked | packages/netllm-core/src/netllm_core/backend_credentials.py:59-133 | so it does after any removes and any adds of URLs that are not loose |
| IgnoreList.AddedIsIgnoredIff | packages/netllm-core/src/netllm_core/backend_credentials.py:84-121 | a URL just added is ignored exactly when it names something, no backend row pins it, and it is not loose or was listed |
| IgnoreList.AddThenRemoveIff | packages/netllm-core/src/netllm_core/backend_credentials.py:107-133 | removing what was just added restores the list exactly when the URL is not loose |
| IgnoreList.KeysPartition | packages/netllm-core/src/netllm_core/backend_credentials.py:59-104 | effective keys and conflicts partition the normalised entries |
| IgnoreList.UpsertFoundIff | packages/netllm-core/src/netllm_core/backend_credentials.py:176-209 | a URL without a row gets one new row after the others; it resolves to that row exactly when it names something and is not loose, and the same upsert again adds no further row exactly when the stored form still names something |
| IgnoreList.UpsertKept | packages/netllm-core/src/netllm_core/backend_credentials.py:176-209 | a URL with a row keeps resolving to it, and every other row is as it was |
| IgnoreList.CredentialStored | packages/netllm-core/src/netllm_core/backend_credentials.py:176-209 | afterwards the URL resolves to an enabled row with the given provider; a given key replaces the stored credential, or else a given variable does, and with neither it stays |
| IgnoreList.UpsertIdempotentIff | packages/netllm-core/src/netllm_core/backend_credentials.py:176-209 | upserting twice is upserting once exactly unless a new row is given both kinds of credential |
| IgnoreList.Config.AddIgnoredUrl | packages/netllm-core/src/netllm_core/backend_credentials.py:107-121 | the new list, and a result that tells whether it changed |
| IgnoreList.Config.RemoveIgnoredUrl | packages/netllm-core/src/netllm_core/backend_credentials.py:124-133 | the new list, and a result that tells whether it changed |
| IgnoreList.Config.IgnoredUrlConflicts | packages/netllm-core/src/netllm_core/backend_credentials.py:90-104 | exactly the entries that a backend row overrules, each once, in order |
| IgnoreList.Config.UpsertBackendCredential | packages/netllm-core/src/netllm_core/backend_credentials.py:176-209 | the new rows, and the row that was written |
| Versions.CompareOrder | apps/netllm-mac/Sources/Config/VersionOrdering.swift:70-82 | comparison is a total preorder: sign-antisymmetric and transitive |
| Versions.EqualIff | apps/netllm-mac/Sources/Config/VersionOrdering.swift:70-82 | 0 exactly when the releases agree up to trailing zeros and rank and number are the same |
| Versions.ReadsBack | apps/netllm-mac/Sources/Config/VersionOrdering.swift:34-68 | reading undoes writing: a release of numbers that fit 64 bits, a label in any case with any separators, and its number |
| Versions.ReleaseOrder | apps/netllm-mac/Sources/Config/VersionOrdering.swift:62-79 | releases compare by their first difference as numbers, missing fields being zero |
| Versions.FieldOrder | apps/netllm-mac/Sources/Config/VersionOrdering.swift:62-79 | two numbers as last fields of one release compare as numbers, so 1.9 < 1.10 |
| Versions.ValueOfDecimal | apps/netllm-mac/Sources/Config/VersionOrdering.swift:62-68 | digits are read as the number they write |
| Versions.ZerosChangeNothing | apps/netllm-mac/Sources/Config/VersionOrdering.swift:62-68 | zeros before a number change nothing |
| Versions.WhiteBefore | apps/netllm-mac/Sources/Config/VersionOrdering.swift:40-68 | white space before a version changes nothing |
| Versions.LetterBefore | apps/netllm-mac/Sources/Config/VersionOrdering.swift:40-68 | nor does a v before its first digit |
| Versions.NoVersion | apps/netllm-mac/Sources/Config/VersionOrdering.swift:44-50 | text in which no digit comes next reads like version 0 |
| Versions.PrereleaseBefore | apps/netllm-mac/Sources/Config/VersionOrdering.swift:40-82 | any text after a release that does not continue its fields makes it older if a prerelease label heads it, and changes nothing otherwise |
| Versions.TagOrder | apps/netllm-mac/Sources/Config/VersionOrdering.swift:18-82 | prereleases of one release compare by the labels' ranks and then by the numbers, whatever the case of the labels, the separators and the text after them |
| Versions.StageOrder | apps/netllm-mac/Sources/Config/VersionOrdering.swift:18-82 | dev, then alpha, then beta, then rc, whatever the numbers; a stands for alpha, b for beta, and c, pre and preview for rc |
| Versions.CandidateBefore | apps/netllm-mac/Sources/Config/VersionOrdering.swift:40-82 | X-rc < X for every release X |
| Versions.FieldAfterIff | apps/netllm-mac/Sources/Config/VersionOrdering.swift:44-82 | X < X.k exactly when k reads as more than zero, that is, is positive and fits 64 bits; otherwise they are equal |

## Left out

- Float rounding: seconds, amounts and quantiles are reals, and the rounding of reported values is dropped.
- Token and time rings of `_TrafficDimension`, the surface and model tallies of `_record_source`, and the cap on the number of backend histograms: they repeat the key fold and the ring that are modelled.
- The `RequestLedger` facade, its payload dictionaries and `TelemetryService`: they forward to the parts that are modelled.
- State edges, global edges, cohesion ratios, fan-out and text rendering of the module graph, and Python's recursion limit in `_sccs`: sums over the same kind of lists, or outside the algorithm.
- Decoding of log bytes, the parsing of records by regular expressions, and read errors: a file is its bytes.
- A health tick is one step, its request included: a tick that is in flight when its loop is cancelled is not modelled.
- SIGKILL is taken to end a child at once, while its exit handler runs later, at any time; a child ends with any exit code.
- The subprocess that releases the port: it is the wait between the two halves of a stop or a forced restart, and what it kills appears as a child that dies. The checks and releases of the port inside `start` and the automatic restarts are atomic with their step.
- Sockets, process objects, logs, activity tokens and worker queues of the supervisor: whether the port answers, whether a launch throws, the owner of the port and times are inputs of the steps; children are numbered by launch.
- The nested run loop inside the supervisor's synchronous port check: steps between suspension points are taken as atomic.
- The renders of the generator's blocks and the reading of Python registries: a render is any string, and `str.split` gives `_wrap` its words.
- The parsing of URLs: `IsHttpUrl` recognises a scheme of http or https and a nonempty host part, and knows neither bracketed hosts nor the characters that `urlparse` removes. White space is ASCII white space.
- `prune_orphan_backend_overrides`, provider key lookup and discovery lists: filters over configuration that is not modelled.
- Unicode in version strings: digits, letters and white space are the ASCII ones, as in the pattern.
- MarkerBlocks.OthersKept: assumes that the two blocks' first markers do not interleave; a marker id that is a prefix of another's is covered as long as the first occurrences lie apart.
