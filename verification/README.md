# Proofs about the edge telemetry engine

This project models the stateful logic of the edge telemetry backend in Dafny and proves what
it is for. To verify it: `dafny verify dfyconfig.toml`.

Objects whose methods update fields are classes, loops are methods with invariants, and each
such method is tied to a function or a predicate about which the promises are proved. Protocols
between goroutines are state machines whose steps are the critical sections, in any order.
Numbers in expressions are reals with a rounding parameter, time is counted in nanoseconds,
identifiers are numbers with a distinguished nil, and map iteration picks an arbitrary order.

| part | modules |
|---|---|
| expressions: grammar, parser, printer, evaluator | `Expression`, `ExpressionGrammar`, `ExpressionParser`, `ExpressionPrinter`, `ExpressionPrecedence`, `ExpressionEvaluation` |
| tag catalogue and its dependency search | `DependencySearch`, `TagGraph`, `TagDepth` over `Digraph` |
| ordering and cascading of calculated tags | `CalculatedOrder`, `CalculatedCascade`, `AcquisitionPlan` |
| value store, subscriptions, write-behind persistence | `TagValues`, `ValueStore`, `MemoryValueStore`, `PersistentStore`, `PersistentValueStore` |
| data logger schedules and runtime | `Instants`, `IntervalScheduler`, `Calendar`, `CalendarScheduler`, `CalendarNext`, `CalendarFailure`, `ClockTrace`, `CalendarTrace`, `CalendarRun`, `LoggerRuntime`, `DataLoggerRuntime` |
| MQTT outbound queue and sender | `MqttQueue`, `MqttSender` |
| unified source subscription | `OutputBroker`, `SourceFeed`, `SourceHandoff` |
| assets: rollups and hierarchy | `Rollup`, `RollupPlanner`, `AssetForest`, `AssetService`, `AssetMoves` |
| event stream reader, register byte orders | `Sse`, `SseItems`, `ByteOrders`, `BinaryConversion` |
| shared: identifiers, order of numbers, runs | `Identifiers`, `Ordering`, `Runs` |

## Where the code does less than one might expect

These are theorems here, with the exact condition under which the stronger property holds.

- The limit of 128 dependency levels bounds the depth of the search, not the length of every
  path: a finished tag met again deeper is not walked again. Accepted creations can leave a path
  twice as long (`TagDepth.AcceptedPathsExceedLimit`). After an accepted edit no path from the
  edited tag exceeds the limit exactly when, wherever the search meets a finished tag again, the
  depth of the meeting and the height of that tag stay within the limit together
  (`TagDepth.AcceptedDepthIff`); so it does where no tag has two dependents
  (`TagDepth.TreesAreBounded`).
- A rollup plan depends on the iteration order of a map when a virtual meter is an input of
  another (`Rollup.NestedMetersDependOnOrder`); `Rollup.OrderMatters` says exactly when.
- Rows of the latest-value table whose stored data type differs from the tag's are left out on
  start. If such a row is numbered above every loaded one, later values of its tag never reach
  the table; `PersistentStore.AgreementAfterRestart` says exactly when the stores keep agreeing.
- `Move` limits the depth of the moved asset, not of its subtree, and may take a measurement
  away from under its boundary. Accepted moves do both (`AssetMoves.MoveCanExceedDepth`,
  `AssetMoves.MoveCanCrossBoundary`); `AssetForest.MoveKeepsDepths` and
  `AssetForest.MoveKeepsBoundary` say exactly when a move does neither.
- Interval arithmetic goes through a saturating 64-bit duration, so the next run is the least
  grid point exactly up to a horizon about 292 years after the start:
  `IntervalScheduler.NextRunIsLeast`.
- A minute or hour schedule that does not end before that horizon captures the horizon again and
  again (`CalendarTrace.HorizonCapturedTwice`). For every bound on the clock and every number of
  readings, `CalendarTrace.IncreasingIff` says exactly when the captures strictly increase.
- A daily or weekly search gives up after eight cycles, and the number of days it counts from the
  start saturates at 106751. So in plain UTC a schedule for every midnight fails as soon as it is
  asked for a run after the midnight seven days beyond that many, though one is due within a day
  (`CalendarFailure.MidnightsAreMissed`). Where every date shows every time,
  `CalendarFailure.FailsIff` says exactly when a search fails: all times of the last date it looks
  at lie before the instant asked for.
- A source's samples keep their order because unavailable samples are only ever the initial
  ones; the subscription would not skip an unavailable sample after an available one:
  `SourceFeed.OrderNeedsAvailability`.

## Model

| member | source | states |
|---|---|---|
| `ExpressionGrammar.ParserMeetsGrammar` | backend/internal/tag/expression.go:257-390 | for every token sequence the parser returns a tree exactly when the whole sequence derives that tree in the seven-level left-associative grammar within the nesting and dependency limits |
| `ExpressionGrammar.ParseIsSound` | backend/internal/tag/expression.go:265-364 | what each level consumes derives the tree it returns, and the dependencies collected are those of the consumed tokens |
| `ExpressionGrammar.ParseIsComplete` | backend/internal/tag/expression.go:265-364 | a derivable phrase that the next token does not carry on is consumed whole and gives its tree |
| `ExpressionGrammar.AcceptedExpression` | backend/internal/tag/expression.go:36-71 | an accepted expression lists each reference of its tree once and no other |
| `ExpressionGrammar.GrammarIsUnambiguous` | backend/internal/tag/expression.go:257-364 | no token sequence derives two trees |
| `ExpressionGrammar.MoreRoom` | backend/internal/tag/expression.go:366-373 | a higher nesting limit accepts everything a lower one accepts, with the same tree |
| `ExpressionGrammar.LoopIsReached` | backend/internal/tag/expression.go:289-303 | the left-associative loop of a binary level ends with the tree of the phrase, whatever its number of operators |
| `ExpressionParser.Parser.ParseAt` | backend/internal/tag/expression.go:265-287 | the level parses as the grammar says, never reads past the end marker, and restores the depth |
| `ExpressionParser.Parser.ParseBinary` | backend/internal/tag/expression.go:289-303 | the loop over operators of one level gives the left-associative tree and keeps the depth |
| `ExpressionParser.Parser.ParseUnary` | backend/internal/tag/expression.go:305-319 | unary operators nest, each taking one level of depth that is given back on every path |
| `ExpressionParser.Parser.ParsePrimary` | backend/internal/tag/expression.go:321-364 | literals, references within the dependency limit, and parentheses, with the depth restored |
| `ExpressionParser.Parser.EnterDepth` | backend/internal/tag/expression.go:366-373 | one nesting level more, refused at the limit without change |
| `ExpressionParser.ParseExpression` | backend/internal/tag/expression.go:36-56 | an expression is accepted exactly when its whole token sequence is derivable within the limits, and then with its tree and its dependencies |
| `ExpressionPrinter.PrintThenParse` | backend/internal/tag/expression.go:257-390 | printing with the fewest parentheses and parsing again gives the same tree, for every tree within the limits |
| `ExpressionPrinter.PrintingNestsLeast` | backend/internal/tag/expression.go:305-373 | no token sequence for a tree nests less deeply than the printed one |
| `ExpressionPrinter.ParseableIsRepresentable` | backend/internal/tag/expression.go:257-390 | a tree is the result of some parse exactly when its least nesting and its number of references are within the limits |
| `ExpressionPrecedence.TwoOperators` | backend/internal/tag/expression.go:257-303 | with the operators in the order `||`, `&&`, equality, comparison, sum, product, and for any operands, `a p b q c` is parsed as `(a p b) q c` when p stands at or after q and as `a p (b q c)` when it stands before |
| `ExpressionPrecedence.UnaryIsOperand` | backend/internal/tag/expression.go:305-319 | `!`, `+` and `-` before an operand make an operand, so they bind tighter than every binary operator |
| `ExpressionPrecedence.BinaryFirstIsRejected` | backend/internal/tag/expression.go:305-364 | an expression that begins with any other operator is rejected |
| `Expression.AddReferencesCollects` | backend/internal/tag/expression.go:333-342 | collecting references lists each of them once, and nothing else |
| `Expression.AddReferencesInOrder` | backend/internal/tag/expression.go:333-342 | what was collected stays in front, and what is added follows in order of first use |
| `ExpressionEvaluation.Evaluator.Evaluate` | backend/internal/tag/expression.go:408-548 | the cached evaluator gives the meaning of the tree for any deterministic resolver and asks for no tag twice, also when it fails |
| `ExpressionEvaluation.MeaningIsEvaluated` | backend/internal/tag/expression.go:408-548 | the meaning is the one outcome given by rules that do not mention the evaluator: exact results are solutions of equations, then rounded; a remainder is smaller than the divisor, of the sign of the dividend and a whole number of divisors away; comparisons go by the sign of the difference, connectives by their tables, and the first failing operand decides |
| `ExpressionEvaluation.RemainderIsUnique` | backend/internal/tag/expression.go:531-535 | the conditions on a remainder leave one number only |
| `ExpressionEvaluation.Evaluator.EvaluateReference` | backend/internal/tag/expression.go:421-440 | a reference is resolved at most once and then served from the cache |
| `ExpressionEvaluation.MeaningIsLocal` | backend/internal/tag/expression.go:408-548 | resolvers that agree on the references of a tree give it the same value or the same error |
| `ExpressionEvaluation.SnapshotSuffices` | backend/internal/tag/acquisition.go:398-429 | evaluating on the snapshot of the collected dependencies equals evaluating on the whole latest map |
| `ExpressionEvaluation.ReferenceReadsLatest` | backend/internal/tag/acquisition.go:398-429 | a reference gives the latest boolean or number of a tag while that is good, and fails on a missing, bad or other one |
| `ExpressionEvaluation.EvaluateExpression` | backend/internal/tag/expression.go:73-79 | a fresh evaluator gives the outcome of these rules and resolves only references of the expression, each once |
| `TagGraph.CycleSearch.Visit` | backend/internal/tag/service.go:657-676 | the search ends on every graph and equals the functional search from its path and finished tags; a cycle is reported only if one is reachable, depth only if there is a path that long, and a clean verdict finishes the node with all it reaches |
| `DependencySearch.SearchedAreNear` | backend/internal/tag/service.go:657-676 | after a clean search every newly finished tag is reached by a path within the limit, and every tag met again by one as long as the depth of the meeting |
| `DependencySearch.PathsFitIff` | backend/internal/tag/service.go:661-663 | no path from the searched tag exceeds the limit exactly when every tag met again has its paths fit under the depth of the meeting |
| `DependencySearch.HeightIsLongest` | backend/internal/tag/service.go:657-676 | the height computed in the order of finishing is the length of the longest path |
| `DependencySearch.DepthIsBoundedIff` | backend/internal/tag/service.go:661-666 | after a clean search every reachable tag is within 128 edges, and no path from the searched tag is longer exactly when depth and height fit together at every meeting |
| `DependencySearch.OneDependentBoundsDepth` | backend/internal/tag/service.go:657-676 | where no reachable tag has two reachable dependents a clean search bounds every path |
| `TagDepth.AcceptedDepthIff` | backend/internal/tag/service.go:597-676 | for an accepted edit of a stored catalogue, the exact condition under which no path from the edited tag exceeds the limit |
| `TagDepth.TreesAreBounded` | backend/internal/tag/service.go:597-676 | an accepted edit without shared dependents bounds every path from the edited tag |
| `TagDepth.AcceptedPathsExceedLimit` | backend/internal/tag/service.go:661-663 | a sequence of accepted creations, none with more than two dependencies, leaves a path of up to twice the limit |
| `TagGraph.CycleSearch.VisitNeighbours` | backend/internal/tag/service.go:666-673 | the loop over dependencies keeps the marks consistent with the search path |
| `TagGraph.FinishedCoversReachable` | backend/internal/tag/service.go:657-676 | finished nodes contain everything reachable from any of them, and no cycle |
| `TagGraph.NewCyclePassesThroughEdited` | backend/internal/tag/service.go:597-631 | an edit of an acyclic catalogue creates a cycle exactly when one can be reached from the edited tag |
| `TagGraph.SoundEditPassesSearch` | backend/internal/tag/service.go:597-631 | an edit that leaves the catalogue sound can only be refused for depth |
| `TagGraph.AcceptedEditStaysSound` | backend/internal/tag/service.go:597-631 | an accepted edit keeps the stored relation acyclic and complete |
| `TagGraph.RunStaysSound` | backend/internal/tag/service.go:121-217 | over every run of accepted creates, updates and deletes the stored dependency relation stays acyclic with all dependencies present, and what a stored configuration names is among its dependency rows for as long as it is stored |
| `TagGraph.DependenciesAreNamed` | backend/internal/tag/service.go:440-450 | the dependencies of a calculated tag are exactly the references of its expression and its trigger, each once, the references first |
| `TagGraph.LeadingBackIsCycle` | backend/internal/tag/service.go:597-631 | a configuration that names anything leading back to the tag closes a cycle |
| `TagGraph.TagService.ValidateDependencyGraph` | backend/internal/tag/service.go:597-631 | accepted exactly when the dependencies are stored and the search is clean, too deep exactly when the search is; an accepted edit closes no cycle and has every tag it reaches within 128 edges; nothing stored changes |
| `TagGraph.TagService.ValidateTrigger` | backend/internal/tag/service.go:633-655 | an accepted calculated tag has a stored trigger other than itself and not constant; a missing trigger and an unsuitable one are told apart |
| `TagGraph.TagService.Create` | backend/internal/tag/service.go:121-144 | exactly an admissible tag is added under its new identifier, with its references and its trigger, and nothing else, as dependencies, and with a sound catalogue; a sound creation is refused only for its trigger or for depth, a missing dependency and an unsuitable trigger are told apart, and a refused creation changes nothing |
| `TagGraph.TagService.Update` | backend/internal/tag/service.go:169-213 | exactly an admissible update of a stored tag replaces this tag's entry, with its references and its trigger as dependencies, keeps its kind and the catalogue sound; one that names anything leading back to the tag is never accepted, and a sound update is refused only for its trigger or for depth |
| `TagGraph.TagService.Delete` | backend/internal/tag/service.go:215-217 | exactly a stored tag is removed, together with the dependency rows that name it, and the catalogue stays sound |
| `CalculatedOrder.OrderCalculatedTags` | backend/internal/tag/acquisition.go:431-469 | the ordering ends and arranges exactly the listed tags; with an acyclic relation every in-list dependency precedes its dependent, so the fallback is never reached |
| `CalculatedOrder.Sweep` | backend/internal/tag/acquisition.go:438-459 | one pass places tags only after their remaining dependencies and reports progress exactly when it placed one |
| `CalculatedOrder.PlaceRest` | backend/internal/tag/acquisition.go:460-466 | the fallback places every tag left, once, in list order |
| `CalculatedOrder.SomeTagIsFree` | backend/internal/tag/acquisition.go:431-469 | while tags of an acyclic relation remain, one of them has no remaining dependency |
| `CalculatedOrder.ArrangementIsPermutation` | backend/internal/tag/acquisition.go:431-469 | for distinct tags the arrangement is a permutation of the list |
| `CalculatedOrder.LastDefinitionCounts` | backend/internal/tag/acquisition.go:431-435 | of two listed definitions with one identifier the later one counts |
| `CalculatedCascade.RunCascade` | backend/internal/tag/acquisition.go:299-326 | with any relation at most 1024 values are stored; with a fixed well-formed one each tag downstream of the event is evaluated at most once, after its same-trigger dependencies, exactly once when all stores succeed and at most 1024 are downstream, and a bad event makes all results bad |
| `CalculatedCascade.ProcessTrigger` | backend/internal/tag/acquisition.go:308-325 | the tags of one trigger are evaluated in order until the limit is reached |
| `CalculatedCascade.QueuedOnce` | backend/internal/tag/acquisition.go:299-326 | no value is queued twice |
| `CalculatedCascade.TriggeredIsNew` | backend/internal/tag/acquisition.go:392-396 | the tags of a trigger just taken were not evaluated before |
| `CalculatedCascade.DrainedCoversDownstream` | backend/internal/tag/acquisition.go:299-326 | when the queue runs dry with every value stored, everything downstream was evaluated |
| `CalculatedCascade.CappedCoversDownstream` | backend/internal/tag/acquisition.go:299-326 | stopping at the limit also covers everything downstream when no more than that many tags are |
| `CalculatedCascade.BatchOfBad` | backend/internal/tag/acquisition.go:398-414 | a bad trigger value makes every result of its tags bad |
| `CalculatedCascade.StoredAreResults` | backend/internal/tag/acquisition.go:308-325 | the values that count and are queued are the results of exactly the evaluations whose store succeeded, in order |
| `AcquisitionPlan.GroupByTrigger` | backend/internal/tag/acquisition.go:200-215 | reconciliation lists under each trigger exactly the listed calculated tags with this trigger, each with the references of its expression |
| `AcquisitionPlan.ServiceDrivesCascade` | backend/internal/tag/acquisition.go:166-281 | after every run of the tag service, and whichever stored tags are enabled, the relation that reconciliation builds has one trigger for each tag and no cycles, also when triggers or references have been deleted, which is what the promises of the cascade need |
| `AcquisitionPlan.TriggersAreAcyclic` | backend/internal/tag/acquisition.go:200-215 | no chain of triggers leads back to a tag |
| `TagValues.NormalizeIsIdempotent` | backend/internal/tag/value_store.go:164-188 | a normalised value passes normalisation again unchanged, so stored values can be restored |
| `TagValues.NormalizeMeans` | backend/internal/tag/value_store.go:164-188 | exactly a named and observed value of a known type is stored: a good one that holds its data type, without its error, and a bad one with an error, without its value |
| `ValueStore.HistoryIsLastTen` | backend/internal/tag/value_store.go:81-123 | over every run a tag's history is the last ten, or all if there are fewer, of what it had and of everything stored for it since |
| `ValueStore.RunKeepsNumbering` | backend/internal/tag/value_store.go:81-123 | over every run each latest value is filed under its tag, and the sequences of latest values are distinct and at most the store's counter, which never falls |
| `ValueStore.RunKeepsHistories` | backend/internal/tag/value_store.go:81-123 | over every run exactly the tags with a latest value have a history: one to ten values of this tag, in increasing order, ending with the latest |
| `ValueStore.StoredIncreases` | backend/internal/tag/value_store.go:81-123 | stored values are numbered in order, above everything stored before |
| `ValueStore.LatestIsApplied` | backend/internal/tag/value_store.go:81-123 | the latest map after a run is the one before it, updated by everything stored |
| `ValueStore.EarlierViewIsCurrent` | backend/internal/tag/value_store.go:237-255 | a view that was right when the store stood at a sequence is still right as of that sequence |
| `ValueStore.ReplayCatchesUp` | backend/internal/tag/value_store.go:237-255 | applying the replay to such a view gives the store's matching latest map |
| `ValueStore.ReplayThenStream` | backend/internal/tag/value_store.go:237-320 | for a client right as of its sequence about the tags it names, or about all if it names none, replay and then everything sent on the open stream give exactly the latest map of these tags after any run; the combined sequences strictly increase, and what is sent is exactly what is stored of these tags |
| `ValueStore.LatestThenStream` | backend/internal/tag/value_store.go:222-235 | the other kind of subscription is never closed for lag: it is sent the latest values of the tags it names and then everything stored of the tags asked for, of which the newest not taken, up to eleven, are in its buffer |
| `ValueStore.StepClosesForLag` | backend/internal/tag/value_store.go:107-121 | a subscription is closed exactly by its own end, or when a value asked for finds no room in the buffer of the kind that is closed for lag |
| `ValueStore.StepReopensNothing` | backend/internal/tag/value_store.go:299-320 | a subscription once closed stays closed |
| `MemoryValueStore.Store.Put` | backend/internal/tag/value_store.go:81-123 | a valid value gets the next sequence, becomes the latest, enters the bounded history and is offered to every matching subscriber, in any order; an invalid one changes nothing |
| `MemoryValueStore.Store.OfferToSubscribers` | backend/internal/tag/value_store.go:107-121 | every matching open subscriber gets the value or is closed for lag, and no other changes |
| `MemoryValueStore.Store.RestoreLatest` | backend/internal/tag/value_store.go:125-162 | an unused store takes valid, positively numbered values of distinct tags and numbers on from the highest; otherwise nothing changes |
| `MemoryValueStore.RestorableInFull` | backend/internal/tag/value_store.go:125-150 | exactly valid, numbered and stamped values of different tags can be restored |
| `MemoryValueStore.RestorationIsNumbered` | backend/internal/tag/value_store.go:125-162 | after restoring, every value is the latest and the whole history of its tag, no other tag has any, and what the numbering and history promises rest on holds |
| `MemoryValueStore.Store.SubscribeValues` | backend/internal/tag/value_store.go:237-255 | the replay is exactly the latest values above the sequence, of the tags named or of all if none is, in order, and the stream starts empty at the same moment |
| `MemoryValueStore.Store.Unsubscribe` | backend/internal/tag/value_store.go:257-303 | only the named subscription is closed |
| `MemoryValueStore.Store.Latest` | backend/internal/tag/value_store.go:190-195 | the latest value, if there is one |
| `MemoryValueStore.Store.History` | backend/internal/tag/value_store.go:209-220 | the newest values, at most as many as a limit in range asks for |
| `MemoryValueStore.InsertBySequence` | backend/internal/tag/value_store.go:245-254 | sorting by sequence keeps the values and orders them |
| `PersistentStore.RunKeepsInvariant` | backend/internal/tag/persistent_value_store.go:130-248 | in every interleaving of puts, flushes, failing writes, deletions of tags, stops and restarts each tag's latest value is the pending one, else the one in flight, else its row, which only a deleted tag lacks |
| `PersistentStore.RunGrowsRows` | backend/internal/tag/postgres/latest_value_repository.go:54-81 | over every run rows are lost only with their tags, and no row's sequence decreases |
| `PersistentStore.QuietRestart` | backend/internal/tag/persistent_value_store.go:86-113 | with nothing pending or in flight the table equals memory, and a restart that sees those rows restores the same latest map |
| `PersistentStore.AgreementAfterRestart` | backend/internal/tag/postgres/latest_value_repository.go:32-52 | over any table that keeps its own checks, and whatever memory is left behind, memory and table stay in agreement in every run after a restart exactly when no left-out row is numbered above every loaded one |
| `PersistentStore.RunFromColdAgrees` | backend/internal/tag/persistent_value_store.go:86-248 | over every run of a new store over any such table nothing happens before the first start, and the agreement holds from then on |
| `PersistentStore.DeleteKeepsInvariant` | backend/migrations/000005_create_tag_values_latest.up.sql:3-4 | deleting a tag, which takes its row along, keeps the agreement of all others |
| `PersistentStore.HiddenRowSwallowsWrite` | backend/internal/tag/postgres/latest_value_repository.go:54-81 | otherwise one put of such a tag is flushed without reaching the table |
| `PersistentStore.RestartLoadsVisible` | backend/internal/tag/persistent_value_store.go:86-113 | a restart over any table that keeps its own checks loads exactly the rows whose data type is still the tag's |
| `PersistentStore.WriteKeepsInvariant` | backend/internal/tag/persistent_value_store.go:220-229 | a write, failed or not, keeps the agreement of memory, flight and table |
| `PersistentStore.RequeueKeepsInvariant` | backend/internal/tag/persistent_value_store.go:242-248 | a failed value is put back unless a newer one is pending, and nothing is lost by it |
| `PersistentStore.TakeKeepsInvariant` | backend/internal/tag/persistent_value_store.go:231-240 | taking everything pending into flight keeps the agreement |
| `PersistentStore.PutKeepsInvariant` | backend/internal/tag/persistent_value_store.go:130-149 | a put makes the new value both latest and pending |
| `PersistentValueStore.Table.UpsertLatest` | backend/internal/tag/postgres/latest_value_repository.go:54-81 | a row is replaced exactly by a value with a higher sequence, and a value of a deleted tag is refused |
| `PersistentValueStore.Store.Start` | backend/internal/tag/persistent_value_store.go:86-113 | starting restores the listed rows into an unused store once, and a failed listing starts nothing; over a table that keeps its own checks and hides no row ahead, the agreement that flushing needs holds from then on |
| `PersistentValueStore.Store.Put` | backend/internal/tag/persistent_value_store.go:130-149 | a put before start or after stop is refused; otherwise the stored value is also pending |
| `PersistentValueStore.Store.TakePending` | backend/internal/tag/persistent_value_store.go:231-240 | everything pending is handed over sorted by sequence, and pending is empty |
| `PersistentValueStore.Store.Requeue` | backend/internal/tag/persistent_value_store.go:242-248 | the value is pending again unless a newer one of its tag is |
| `PersistentValueStore.Store.Flush` | backend/internal/tag/persistent_value_store.go:220-229 | every pending value is written once, by sequence, and is pending again exactly when its write failed |
| `PersistentValueStore.Store.WriteAll` | backend/internal/tag/persistent_value_store.go:220-229 | the writes of one flush take the steps of the state machine, one after another |
| `PersistentValueStore.Store.WriteOne` | backend/internal/tag/persistent_value_store.go:220-229 | one write reaches the table or puts its value back |
| `PersistentValueStore.Store.Finish` | backend/internal/tag/persistent_value_store.go:195-218 | the last flushes leave nothing pending, or the deadline passed |
| `PersistentStore.TableHoldsLatest` | backend/internal/tag/persistent_value_store.go:195-218 | with nothing pending or in flight the table holds the latest value of every tag not deleted |
| `IntervalScheduler.NextRunIsLeast` | backend/internal/datalogger/interval_scheduler.go:216-227 | the next run is the least grid point not before now exactly for every now up to the horizon, and lies before now beyond it |
| `IntervalScheduler.LatestRunIsGreatest` | backend/internal/datalogger/interval_scheduler.go:229-234 | the latest run is the greatest grid point not after now exactly from the start to before the horizon |
| `IntervalScheduler.RunsAreOnGrid` | backend/internal/datalogger/interval_scheduler.go:216-234 | both runs are grid points, never before the start |
| `IntervalScheduler.Run` | backend/internal/datalogger/interval_scheduler.go:93-124 | for any clock readings the captured instants strictly increase, are grid points within start and end, and each is the instant waited for or, if later, the latest run of the reading; the loop ends only when the next one is past the end |
| `IntervalScheduler.Follow` | backend/internal/datalogger/interval_scheduler.go:93-124 | the loop itself, on any set of instants closed under the interval |
| `IntervalScheduler.BacklogCollapses` | backend/internal/datalogger/interval_scheduler.go:106-112 | a late wake-up captures the single latest grid point not after the clock and jumps over none the clock had not passed |
| `Instants.Elapsed` | backend/internal/datalogger/interval_scheduler.go:220-220 | the distance of two instants is exact in the range of a 64-bit duration, held at its ends outside, and keeps its sign |
| `Calendar.Define` | backend/internal/datalogger/calendar_scheduler.go:161-197 | an accepted definition has valid unit, interval, times and weekdays, the same ones as configured, sorted |
| `Calendar.DefinitionIsAccepted` | backend/internal/datalogger/calendar_scheduler.go:161-197 | exactly which definitions are accepted, and which count as disabled, field by field |
| `Calendar.GridRuns` | backend/internal/datalogger/calendar_scheduler.go:141-149 | minute and hour schedules run a whole number of intervals after the start, an interval being the configured number of minutes or hours, or one if none is given |
| `Ordering.InOrderIsIncreasing` | backend/internal/datalogger/service.go:486-530 | sorting distinct times or weekdays orders them |
| `CalendarScheduler.CivilDays` | backend/internal/datalogger/calendar_scheduler.go:271-273 | days between dates are exact up to the duration's range and never overcounted |
| `CalendarScheduler.NextMultipleIsLeast` | backend/internal/datalogger/calendar_scheduler.go:275-281 | the next multiple is the least one not below the value |
| `CalendarScheduler.FirstOnDay` | backend/internal/datalogger/calendar_scheduler.go:209-214 | the first of a date's times not before start and threshold, if there is one |
| `CalendarScheduler.NextDailyRun` | backend/internal/datalogger/calendar_scheduler.go:199-218 | a found run is the least active occurrence; when none is found no active date within eight cycles has one; without gaps, and with dates near enough to be counted, it lies within two cycles of the threshold's date |
| `CalendarScheduler.FirstInWeek` | backend/internal/datalogger/calendar_scheduler.go:231-241 | the search of one active week finds its least run or passes the whole cycle |
| `CalendarScheduler.NextWeeklyRun` | backend/internal/datalogger/calendar_scheduler.go:220-245 | the same for the chosen weekdays of every so many ISO weeks from the week of the start date |
| `CalendarScheduler.FoundIsNext` | backend/internal/datalogger/calendar_scheduler.go:199-245 | with no run on earlier active dates, a date's first run is the least occurrence of all |
| `CalendarScheduler.WeekIsActive` | backend/internal/datalogger/calendar_scheduler.go:229-243 | within one cycle exactly the chosen weekdays of its first week are active |
| `CalendarNext.NextCalendarRun` | backend/internal/datalogger/calendar_scheduler.go:130-159 | a scheduled run is an occurrence within the schedule and the least one not before start and threshold, exactly when the arithmetic reaches the threshold; there is none exactly when the one found is past the end or the zero time; the search fails exactly when none of eight cycles has a run |
| `CalendarNext.AnswersAreUnique` | backend/internal/datalogger/calendar_scheduler.go:130-159 | logger and threshold determine the answer |
| `CalendarFailure.FailsIff` | backend/internal/datalogger/calendar_scheduler.go:199-245 | where every date shows every time, a daily or weekly search fails exactly when all times of the last date of its eight cycles lie before the instant searched from |
| `CalendarFailure.MidnightsAreMissed` | backend/internal/datalogger/calendar_scheduler.go:199-218 | in UTC, for every start and every later instant, a run of the daily midnight schedule is due within a day, and the search fails exactly for instants after the midnight seven days beyond the greatest number of days counted |
| `CalendarFailure.LastDateIsLast` | backend/internal/datalogger/calendar_scheduler.go:204-218 | the last date looked at is active, and every active date up to the end of the eight cycles is at or before it |
| `CalendarFailure.FailureNeedsGap` | backend/internal/datalogger/calendar_scheduler.go:271-273 | while dates are near enough to be counted, a search fails only where some date lacks a time |
| `CalendarTrace.CalmIncreases` | backend/internal/datalogger/calendar_scheduler.go:72-111 | from a threshold within reach, on readings up to a bound, captures strictly increase from the threshold on |
| `CalendarTrace.TracesAreUnique` | backend/internal/datalogger/calendar_scheduler.go:72-111 | the readings of the clock determine the captures and how the loop ends |
| `CalendarTrace.HorizonCapturedTwice` | backend/internal/datalogger/calendar_scheduler.go:72-111 | without an end before the horizon, two readings at the horizon capture it twice |
| `CalendarTrace.IncreasingIff` | backend/internal/datalogger/calendar_scheduler.go:72-111 | for every bound on the clock and number of readings, all captures strictly increase exactly when the schedule ends in time or the first run and that many steps stay below the horizon |
| `CalendarTrace.IncreasingOnEveryClockIff` | backend/internal/datalogger/calendar_scheduler.go:72-111 | they increase on every clock exactly for date schedules and for schedules that end before the horizon or in the zero time |
| `CalendarRun.Choose` | backend/internal/datalogger/calendar_scheduler.go:87-101 | a run at most a second late is captured, and later only a run due at that very instant |
| `CalendarRun.Run` | backend/internal/datalogger/calendar_scheduler.go:72-111 | for any clock readings the loop does what the trace says; captures are occurrences within the schedule, at most a second late, and strictly increase where there is room before the horizon; on a steady clock they leave out only occurrences that were past at a reading before the next capture, every reading without a capture was more than a second late, and a finished loop left out nothing else |
| `CalendarRun.LateProgress` | backend/internal/datalogger/calendar_scheduler.go:87-100 | a late reading moves the threshold to it and forgets only occurrences that were past |
| `LoggerRuntime.RuntimeIsSafe` | backend/internal/datalogger/runtime.go:128-266 | in every interleaving of reconciliation, stop, job start and job exit at most one run of each logger is live, none is live once the stopping call has returned, and every job waited for was told to end |
| `LoggerRuntime.StopCanReturn` | backend/internal/datalogger/runtime.go:154-180 | from every state that keeps the invariant a stop that has begun can return: no call waits for ever, whoever holds the reconcile lock |
| `LoggerRuntime.CanReconcile` | backend/internal/datalogger/runtime.go:182-237 | from every state that keeps the invariant a reconciliation under way can end |
| `LoggerRuntime.ReconcileInstallsDesired` | backend/internal/datalogger/runtime.go:182-237 | for every run between a listing and the end of its reconciliation, whatever jobs end meanwhile: unless a stop began, exactly the loggers of which the last enabled listing counts have a job, with the fingerprint of that listing; one that ran with this fingerprint keeps its job, any other gets a new one, and no other job from before is live |
| `LoggerRuntime.DesiredIsWanted` | backend/internal/datalogger/runtime.go:197-205 | a logger is desired exactly when it is named and listed as enabled, with the fingerprint of its last enabled listing |
| `LoggerRuntime.StepKeepsInvariant` | backend/internal/datalogger/runtime.go:128-266 | every step keeps each live run accounted for by the job map or by a waiting call |
| `DataLoggerRuntime.Runtime.Start` | backend/internal/datalogger/runtime.go:128-152 | a runtime starts once and not after a stop |
| `DataLoggerRuntime.Runtime.BeginStop` | backend/internal/datalogger/runtime.go:154-176 | the first call forbids further starts and cancels exactly the current jobs, which it then waits for |
| `DataLoggerRuntime.Runtime.CancelChanged` | backend/internal/datalogger/runtime.go:207-219 | exactly the jobs whose logger is still wanted with the fingerprint they run with stay, the others are cancelled, and the missing loggers are the wanted ones without such a job |
| `DataLoggerRuntime.Runtime.CollectDesired` | backend/internal/datalogger/runtime.go:197-205 | the desired loggers are the named ones listed as enabled, with the fingerprint of their last enabled listing |
| `DataLoggerRuntime.Runtime.StartMissing` | backend/internal/datalogger/runtime.go:224-236 | every missing logger gets one new job, unless a stop has begun |
| `MqttQueue.MessageQueue.Push` | backend/internal/publisher/mqtt_transport.go:523-535 | a full queue drops its oldest message, and the new one is last |
| `MqttQueue.MessageQueue.PushFront` | backend/internal/publisher/mqtt_transport.go:537-549 | a full queue drops its newest message, and the returned one is first |
| `MqttQueue.MessageQueue.Pop` | backend/internal/publisher/mqtt_transport.go:551-561 | the oldest message leaves, the others keep their order |
| `MqttSender.SenderIsSafe` | backend/internal/publisher/mqtt_transport.go:232-350 | over every run in which publishers push after they found the transport open, connections are marked after they found it so and messages are popped after a connection was found, be it closed or lost by then, the depth stays within the capacity; accepted messages are acknowledged, dropped, queued or in flight, each in one place; acknowledged, in-flight and queued ones are in push order, in this order; attempts are in push order; and a sleeping sender with work to do has a wake-up on its way |
| `MqttSender.NumbersOnce` | backend/internal/publisher/mqtt_transport.go:512-561 | each accepted message is counted once, so none is both delivered and dropped |
| `MqttSender.HeadCanBeDelivered` | backend/internal/publisher/mqtt_transport.go:299-350 | from every state that keeps the invariant, asleep or not, a connected sender that has not ended can come to have the head of its queue acknowledged: nothing queued is stuck |
| `MqttSender.StepKeepsOrder` | backend/internal/publisher/mqtt_transport.go:299-350 | every step, a failed publish that puts its message back included, keeps push order |
| `MqttSender.StepConserves` | backend/internal/publisher/mqtt_transport.go:299-350 | every step keeps the balance of accepted, acknowledged, dropped, queued and in-flight messages |
| `MqttSender.StepDropsForRoom` | backend/internal/publisher/mqtt_transport.go:512-561 | a message is dropped only from a full queue, the oldest for a new one and the newest for one put back, and acknowledged only when it was in flight |
| `MqttSender.StepMovesInTurn` | backend/internal/publisher/mqtt_transport.go:512-561 | a new message is the last of the queue, one put back is the first, and the first is the one sent |
| `MqttSender.StepKeepsAttempts` | backend/internal/publisher/mqtt_transport.go:299-350 | attempts never go back before an earlier one |
| `MqttQueue.TopicMatches` | backend/internal/publisher/mqtt_transport.go:645-657 | the loop decides matching by levels, with `+` for one level and `#` for any number of them |
| `MqttQueue.MultiLevelMatch` | backend/internal/publisher/mqtt_transport.go:645-657 | a final `#` matches exactly the topics extending a match of the levels before it, the parent level included (section 4.7 of MQTT 3.1.1) |
| `OutputBroker.OutputSubscription.Offer` | backend/internal/plugin/output_store.go:116-137 | a batch is sent, or closes the subscription for lag; what was delivered stays an unbroken prefix of what was published |
| `OutputBroker.OutputSubscription.Receive` | backend/internal/plugin/output_store.go:139-144 | the n-th batch received is the n-th published for the instance since subscribing |
| `OutputBroker.OutputBroker.Subscribe` | backend/internal/plugin/output_store.go:96-114 | a new open subscription with nothing published yet; the nil instance is refused |
| `OutputBroker.OutputBroker.Close` | backend/internal/plugin/output_store.go:155-171 | the subscription is closed and forgotten and keeps what it holds |
| `OutputBroker.OutputBroker.PublishOutputBatch` | backend/internal/plugin/output_store.go:116-137 | a valid batch reaches every open subscription of its instance and no other; one without room is closed and forgotten |
| `SourceFeed.SourceSubscription.Publish` | backend/internal/publisher/source_feed.go:693-711 | a repeated sample is skipped, another one is sent and becomes the cursor, and a full channel records the error and closes |
| `SourceFeed.PublishKeepsValid` | backend/internal/publisher/source_feed.go:693-711 | cursors stay the last emitted samples, each source's samples properly ordered, and every offered sample covered while there is no error |
| `SourceFeed.OrderNeedsAvailability` | backend/internal/publisher/source_feed.go:693-711 | the order of a source survives a publication exactly when the sample is not an unavailable one after an available one |
| `SourceHandoff.StepKeepsInvariant` | backend/internal/publisher/source_feed.go:226-300 | every step keeps each stored value of a followed source arrived or on its way |
| `SourceHandoff.StepClosesForRoom` | backend/internal/publisher/source_feed.go:226-300 | an open channel takes what it is sent and stays open, except when a batch finds it full |
| `SourceHandoff.StepFailsForRoom` | backend/internal/publisher/source_feed.go:693-758 | an error is recorded only when the channel to the consumer is full or an upstream has closed |
| `SourceHandoff.OnItsWayMoves` | backend/internal/publisher/source_feed.go:226-300 | whatever is on its way in a streaming subscription can be moved on |
| `SourceHandoff.SharedUpstream` | backend/internal/publisher/source_feed.go:226-300 | all tags share one upstream, and outputs exactly with the same plugin instance |
| `SourceHandoff.EmittedInOrder` | backend/internal/publisher/source_feed.go:693-758 | over every run a source's samples are at most one unavailable one, first, and then strictly increasing; until an error is recorded every sample reaching the subscription was emitted or is no newer than an emitted one |
| `SourceHandoff.QuietSourceIsCurrent` | backend/internal/publisher/source_feed.go:226-300 | nothing is lost between snapshot and stream: a drained open source without error has the stored value as its last emitted sample |
| `SourceHandoff.PublishInitialOrderly` | backend/internal/publisher/source_feed.go:381-405 | publishing the next initial sample keeps them one for each source not yet seen, so an unavailable one is the first of its source |
| `Rollup.EveryPlanIsExclusive` | backend/internal/asset/aggregation.go:165-209 | for every iteration order a resulting plan has no meter beside an included main meter of its group and no direct input beside an included virtual meter, and leaves out only what policy, a main meter or an acting virtual meter excludes |
| `Rollup.OrderMatters` | backend/internal/asset/aggregation.go:185-196 | the result is the same for every map order exactly when a condition on the nesting of live virtual meters holds |
| `Rollup.FlatIsOrderIndependent` | backend/internal/asset/aggregation.go:185-196 | without nested virtual meters the plan is order-independent, and every include-policy meter counts or is an input of an included virtual meter |
| `Rollup.NestedMetersDependOnOrder` | backend/internal/asset/aggregation.go:185-196 | a concrete catalogue whose plan depends on the order |
| `Rollup.UnforcedCanBeAvoided` | backend/internal/asset/aggregation.go:185-196 | for a set of meters not forced to act there is an order in which none of them does |
| `Rollup.ForcedActs` | backend/internal/asset/aggregation.go:185-196 | in every order some meter of a forced set acts |
| `RollupPlanner.DependencyWalk.Visit` | backend/internal/asset/aggregation.go:227-252 | the walk finds a cycle only where there is one and finishes everything it reaches otherwise |
| `RollupPlanner.VirtualDependencyCycle` | backend/internal/asset/aggregation.go:227-252 | true exactly when the virtual meters depend on each other in a cycle |
| `RollupPlanner.Admit` | backend/internal/asset/aggregation.go:98-149 | a candidate is refused exactly when it is invalid for the target or repeats a meter or a source |
| `RollupPlanner.Register` | backend/internal/asset/aggregation.go:131-158 | every admissible candidate is registered under its identifier |
| `RollupPlanner.FindMains` | backend/internal/asset/aggregation.go:163-183 | the included main meter of each group, refused exactly when a group has two |
| `RollupPlanner.ReplaceInputs` | backend/internal/asset/aggregation.go:185-196 | the loop over virtual meters gives the selection of some iteration order |
| `RollupPlanner.BuildRollupPlan` | backend/internal/asset/aggregation.go:131-209 | a plan partitions the registered meters by the selection of some order, with both lists sorted; invalid candidates, cycles, conflicts and excluded inputs are refused |
| `AssetService.ValidatePlacement` | backend/internal/asset/hierarchy.go:17-34 | accepted exactly when kinds are valid and sites, and only they, have no parent |
| `AssetService.ValidateAncestry` | backend/internal/asset/hierarchy.go:36-55 | accepted exactly when asset and ancestors are distinct, none is nil and the depth is within 16 |
| `AssetService.Service.Place` | backend/internal/asset/service.go:90-111 | the checks shared by create and move succeed exactly when kind, depth and acyclicity allow the place, and otherwise the error names the one that does not |
| `AssetService.Service.LineageOf` | backend/internal/asset/postgres/repository.go:147-162 | walking up the parents gives the path from the root |
| `AssetService.Service.Create` | backend/internal/asset/service.go:82-117 | exactly when accepted the asset is added; the hierarchy stays a forest whose roots are the sites, measured assets stay leaves, and the new depth is within 16 |
| `AssetService.Service.Update` | backend/internal/asset/service.go:190-238 | exactly when accepted the fields but not the parent change, with the same invariant |
| `AssetService.Service.Move` | backend/internal/asset/service.go:240-275 | exactly when accepted the parent and position change, with the same invariant and the moved asset's depth within 16 |
| `AssetService.Service.Delete` | backend/internal/asset/service.go:277-299 | exactly a leaf without measurements that bounds none is removed |
| `AssetService.Service.ReplaceBindings` | backend/internal/asset/service.go:312-377 | exactly a leaf's measurements, with boundaries on its lineage, are replaced as a whole |
| `AssetService.ReplacedIs` | backend/internal/asset/service.go:312-377 | replacing makes the owner's measurements the submitted ones and changes nobody else's |
| `AssetService.MoveKeepsSound` | backend/migrations/000019_create_assets_measurement_bindings.up.sql:26-70 | a placeable move under an unmeasured parent keeps the forest, the sites and the measured leaves |
| `AssetForest.ForestIsAcyclic` | backend/internal/asset/service.go:82-299 | in a forest every parent is present and the parent relation has no cycle |
| `AssetForest.MoveCarriesSubtree` | backend/internal/asset/service.go:240-275 | a move changes exactly the lineages through the moved asset, which keep their part from it on |
| `AssetForest.MoveKeepsDepths` | backend/internal/asset/service.go:240-275 | a move keeps all depths within 16 exactly when the deepest asset of the subtree still fits |
| `AssetMoves.MoveCanExceedDepth` | backend/internal/asset/service.go:240-275 | in a sound hierarchy a move that the service accepts may leave a descendant one level deeper than the deepest allowed |
| `AssetMoves.MoveCanCrossBoundary` | backend/internal/asset/service.go:240-275 | in a sound hierarchy a move that the service accepts may leave a measurement outside its boundary |
| `AssetForest.MoveKeepsBoundary` | backend/internal/asset/service.go:240-275 | a move keeps a measurement's boundary above its owner exactly when the owner is outside the subtree, the boundary inside it, or the boundary above the new place |
| `Sse.Consume` | frontend/src/services/tag.service.ts:76-123 | for every text and every cut into chunks the callbacks are those of the whole text, in order |
| `Sse.LinesOfMore` | frontend/src/services/tag.service.ts:105-116 | text that arrives later only extends the unterminated line |
| `Sse.EncodedIsRead` | frontend/src/services/tag.service.ts:65-99 | reading what a server wrote gives the parseable payloads, once each, in order |
| `SseItems.ItemsAreRead` | frontend/src/services/tag.service.ts:65-104 | reading any stream of well-formed items makes exactly their calls, in order: a tag value event gives the value of its data lines joined by newlines, if they parse; a reconnection time of digits only is reported; other events, comments and fields give nothing |
| `SseItems.JoinedLines` | frontend/src/services/tag.service.ts:71-71 | cutting joined data lines at newlines gives the lines back |
| `Sse.ReturnsDoNotMatter` | frontend/src/services/tag.service.ts:109-119 | ending lines with a carriage return and a newline changes no callback |
| `Sse.CommentsDoNotMatter` | frontend/src/services/tag.service.ts:91-91 | a comment line anywhere changes no callback |
| `Sse.LinesKeepText` | frontend/src/services/tag.service.ts:108-114 | the lines and the rest are the text |
| `ByteOrders.ApplyByteOrder` | backend/internal/tag/converter.go:84-112 | an even number of bytes is permuted as the order says, in a copy; odd lengths and unknown orders are refused |
| `ByteOrders.ReverseBytes` | backend/internal/tag/converter.go:129-133 | the in-place loop reverses the buffer and keeps its bytes |
| `ByteOrders.SwapWords` | backend/internal/tag/converter.go:97-102 | the in-place loop reverses the words, not the bytes within them |
| `ByteOrders.SwapBytes` | backend/internal/tag/converter.go:103-107 | the in-place loop swaps the bytes of each word |
| `ByteOrders.SourceTwice` | backend/internal/tag/converter.go:84-112 | each order's places are a permutation that is its own inverse |
| `ByteOrders.OrderIsInvolution` | backend/internal/tag/converter.go:84-112 | applying an order twice restores every even buffer |
| `ByteOrders.LittleEndianIsBothSwaps` | backend/internal/tag/converter.go:84-112 | little-endian is word swap and byte swap together, in either order |
| `BinaryConversion.ConvertBinary` | backend/internal/tag/converter.go:32-82 | a conversion gives the value of the window it names, or the error of the first failing check |
| `BinaryConversion.EncodeThenConvert` | backend/internal/tag/converter.go:32-82 | a value written in any order at any offset among any bytes is read back, for 16 and 32 bit integers, signed or not, and for the bits of finite floats |
| `BinaryConversion.BitsMakeByte` | backend/internal/tag/converter.go:47-52 | the truth values read from a byte, one for each bit, make up that byte |
| `BinaryConversion.FiniteIsBelowInfinity` | backend/internal/tag/converter.go:67-79 | apart from the sign the finite floats are those below infinity in the order of their bits |
| `BinaryConversion.FittingIsStored` | backend/internal/tag/service.go:754-798 | exactly the integers that fit the registers of a data type are stored as its values |

## Left out

- `AssetService.Service.ReplaceBindings`: the parameter `compatible` stands for the checks of each source and meter and for the rollup plan that is built at every boundary (backend/internal/asset/service.go:379-420); plans themselves are in `RollupPlanner.BuildRollupPlan`.
- `PersistentValueStore.Store.Start`: subscriptions taken before the start are not modelled, so before it the store is empty in every respect.
- Lexing: token sequences are the input of the parser; characters, keywords and the length limit of the text are not modelled.
- Floating point: numbers are reals and each arithmetic operation passes a rounding parameter that may fail; float registers are read as bit patterns with their finiteness.
- JSON, Postgres and GORM: repositories are maps whose operations may fail; a sibling-name clash or a lost connection is a refusal parameter. Whether a batch, a source or a meter passes its own field checks is a parameter too.
- Real time zones: a zone gives local dates that never go back and at most one instant for each date and time; the scan for the first of two equal local times is behind that function. Zones whose clocks are set back across midnight are outside it.
- Cancellation: a loop's clock readings end where its context is cancelled; cancellation during a capture or an evaluation is not modelled.
- Tag and asset edits are sequential: an edit between another edit's validation and its write is not modelled.
- The content of source samples: a stored batch is known by its upstream, its sequence and the sources it has values for.
- Plugin batches are complete: every batch of an instance carries all of its outputs, as publishing checks, so the latest batch has the latest value of each.
- Subscriptions of the acquisition runtime to readings, its error channel and its reconcile timer: plumbing around the cascade.
- MQTT connection management: readiness is a flag set and cleared by steps; retry delays, diagnostics and metrics are not modelled.
- `plugin.Manager` and `publisher.Manager`: they repeat the logger runtime's protocol with a way out on context expiry that weakens it.
- The device monitor's grace-period stop, HTTP handlers, pages and services of the user interface, field validators and clone helpers: they would add easy members only.
- Error texts and positions, timestamps of metrics and backoff jitter.
