# vm-proxy-auth: routing, tenant isolation and state keeping

A Dafny model of the parts of the proxy that carry its guarantees, with proofs of what
they guarantee over every input and every run.

| file | what it models |
|---|---|
| `Int32.dfy`, `Sums.dfy`, `Division.dfy`, `Lists.dfy` | Go's `int32`, vector sums, division, sorted lists |
| `Backends.dfy` | backend states, the candidates of every balancing strategy |
| `Schedules.dfy` | runs of a balancing rule and counting over the schedules they produce |
| `WeightedRoundRobin.dfy` | the smooth weighted round-robin balancer, in int32 as coded and over unbounded integers |
| `WeightedFairness.dfy` | exact proportionality of its schedule |
| `WeightedBounds.dfy` | how far its weights move over arbitrary sequences of candidate sets |
| `WeightedOverflow.dfy` | int32 safety across health changes, and when a selection finds nothing |
| `RoundRobin.dfy`, `LeastConnections.dfy` | the other two strategies and their even spreading |
| `HealthChecker.dfy` | the threshold machine, and its mirror in the balancer |
| `Ledger.dfy` | interleaved forwards over the least-connections balancer |
| `Forwarding.dfy` | the retry loop, the queued forward and its wait loop |
| `RequestQueue.dfy` | the bounded request queue |
| `TimedMap.dfy`, `LocalStorage.dfy`, `RaftFsm.dfy` | maps with lifetimes: the reference, the local storage, the Raft state machine |
| `Watchers.dfy` | watch channels: registration, closing, delivery |
| `TenantGroups.dfy` | grouping of tenants |
| `PromQL.dfy` | expressions, injection of tenant labels, and their meaning over a database of series |
| `Regexp.dfy` | regular expressions as label matchers read them: parsing, meaning, and the pattern built from project IDs |
| `QueryBuilder.dfy` | the same injection on heap nodes whose matcher lists are appended in place |
| `TenantIsolation.dfy` | what rewritten queries mean |
| `Permissions.dfy` | from a user's groups to tenants, and end to end to what their queries read |

## How to read the model

A method that a lock protects is one atomic step; a run is any sequence of such steps. Clock
readings, HTTP outcomes, contexts and the free choices of `select` and of map iteration are
arguments or arbitrary choices. Go panics are explicit results (`Crashed`, `Panicked`,
`Phantom`, `panicked`), so that a property which needs their absence has to prove it.

`PromQL.Eval` gives an expression a meaning in an arbitrary value type, with arbitrary
meanings for operators, functions and aggregations: nothing is assumed of them. Only where a
result speaks about instant vectors (`BareSelectorExact`) is the `or` operator the one that
Prometheus defines, matching elements by all labels but the metric name.

`Regexp.IsEngine` says what is assumed of the regular-expression engine: it reads the patterns
that the parser of `Regexp.dfy` accepts as their meaning there says. Results stated for engines
that read project IDs literally (`ReadsAllLiterally`) hold of such an engine whenever the IDs
have no metacharacters (`PlainReadsAll`).

Some properties hold of the code only under a condition, which the model states exactly:

- A weighted selection can find no backend after a health change and then index the backend
  list at -1 (`FindsIff`, `StuckAfterHealthChange`); it recovers within W selections
  (`RecoversAlways`).
- The round-robin counter wraps to a negative index (`CrashIff`, `WrapCrashes`).
- Project IDs reach the regular-expression engine unescaped: with projects `1.2` and `3` granted
  a query also reads project `1x2`. IDs are read literally exactly when none has a metacharacter
  (`LiteralIff`, `ReadsLiterallyIff`, `GrantedDotLeaks`).
- A selector that already names the tenant label is not filtered: a rewritten query is isolated
  exactly when such selectors match permitted series only (`IsolationIff`, `NamedAccountLeaks`).
- Two tenants can share an identifier, and deduplication then drops one, with its access
  (`TenantStringIff`, `DeduplicationExact`, `UnionIff`, `AccessLost`).
- A `Watch` after `Close` can make the end of an older watch close its channel again
  (`CancelPanicsIff`, `PanicCause`, `DoubleClose`).
- A receive woken by the closing of an empty queue is counted although nothing was dequeued, and
  crashes its forward (`RunLaws`, `MiscountedRun`, `Receive`, `ProcessFromQueue`).
- A cleanup that is delayed past its read deletes whatever was written meanwhile
  (`LateCleanupIff`, `LostWrite`).
- A direct forward with no retries dereferences a nil error (`ForwardDirect`).
- A report can be booked on another backend with the same URL (`BookedIff`).

## Model

| member | source | states |
|---|---|---|
| Backends.Selectable | internal/services/loadbalancer/weighted_round_robin.go:227-254 | candidates are in index order: every healthy backend, the rate-limited ones exactly when none is healthy, nothing else |
| Backends.Candidates | internal/services/loadbalancer/weighted_round_robin.go:78-88 | the two filter loops compute the candidates |
| Backends.WithState | internal/services/loadbalancer/weighted_round_robin.go:257-277 | only the first backend with the URL changes, and only its state |
| WeightedRoundRobin.WeightedBalancer.constructor | internal/services/loadbalancer/weighted_round_robin.go:26-66 | the configured weights (`ConfiguredFairness` says what they are), current weights zero, the total exact when it fits |
| WeightedRoundRobin.WeightedBalancer.NextBackend | internal/services/loadbalancer/weighted_round_robin.go:70-110 | the error, fast-path and selection cases, and the crash when the selection finds nothing |
| WeightedRoundRobin.WeightedBalancer.SelectByWeight | internal/services/loadbalancer/weighted_round_robin.go:114-165 | the two loops with their guards compute one int32 selection step on the array |
| WeightedRoundRobin.WeightedBalancer.UpdateBackendState | internal/services/loadbalancer/weighted_round_robin.go:257-277 | the new backend list |
| WeightedRoundRobin.PickIsFirstMax | internal/services/loadbalancer/weighted_round_robin.go:139-157 | a selection finds the first largest candidate above -1, and nothing exactly when there is none |
| WeightedFairness.SmoothIsFair | internal/services/loadbalancer/weighted_round_robin.go:114-165 | from balanced weights the selection always serves a candidate whose bumped weight is positive |
| WeightedFairness.AlwaysFinds | internal/services/loadbalancer/weighted_round_robin.go:118-164 | in every run from zero every selection finds a backend of the set |
| WeightedFairness.PrefixFairness | internal/services/loadbalancer/weighted_round_robin.go:118-164 | after k selections the weight is k·w − W·count and above −W, weights sum to zero, the count is within one selection above and n − 1 below its share |
| WeightedFairness.WindowFairness | internal/services/loadbalancer/weighted_round_robin.go:114-165 | any W consecutive selections choose each backend exactly as often as its weight, and W selections restore zero |
| WeightedOverflow.CodeFairness | internal/services/loadbalancer/weighted_round_robin.go:114-165 | of the int32 code: any W consecutive selections choose each backend exactly as often as its weight, and W selections restore zero |
| WeightedOverflow.CodePrefixFairness | internal/services/loadbalancer/weighted_round_robin.go:114-165 | of the int32 code: every selection finds a backend of the set, and every prefix is within one selection above and n − 1 below each share |
| WeightedOverflow.ConfiguredFairness | internal/services/loadbalancer/weighted_round_robin.go:26-165 | a new balancer serves every candidate exactly as often as its configured weight, or once where that is not positive, in any window of their sum; other backends not at all |
| WeightedOverflow.StepRefines | internal/services/loadbalancer/weighted_round_robin.go:123-162 | within the bounds the guards never fire and nothing wraps |
| WeightedBounds.CappedStep | internal/services/loadbalancer/weighted_round_robin.go:114-165 | every selection, fruitless ones included, keeps the bound k(2n−1−k)·W/2 on the sum of any k current weights |
| WeightedOverflow.NoOverflowEver | internal/services/loadbalancer/weighted_round_robin.go:123-162 | over any sequence of candidate sets, selections that find nothing included, the int32 run equals the unbounded one and every weight stays within [−W, (n−1)·W]; while all selections find a backend the weights sum to zero |
| WeightedOverflow.FindsIff | internal/services/loadbalancer/weighted_round_robin.go:139-164 | from any int32 weights a selection finds a backend exactly when the bump brings some candidate to zero or above |
| WeightedOverflow.StuckAfterHealthChange | internal/services/loadbalancer/weighted_round_robin.go:101-102 | a reachable state in which the next selection finds nothing |
| WeightedOverflow.RecoversWithin | internal/services/loadbalancer/weighted_round_robin.go:139-157 | from any int32 weights, a candidate that owes d ends a stuck phase of the code within d selections |
| WeightedOverflow.RecoversAlways | internal/services/loadbalancer/weighted_round_robin.go:114-165 | after any sequence of candidate sets, a stable set is served again after at most W fruitless selections |
| RoundRobin.RoundRobinBalancer.NextBackend | internal/services/loadbalancer/round_robin.go:33-77 | the result and the counter in every case, with the wrapping counter and the truncated remainder |
| RoundRobin.EvenTurns | internal/services/loadbalancer/round_robin.go:61-69 | while the counter stays below its maximum, any n consecutive calls choose each candidate once |
| RoundRobin.CrashIff | internal/services/loadbalancer/round_robin.go:68-69 | exactly which counters lead to a negative index |
| RoundRobin.WrapCrashes | internal/services/loadbalancer/round_robin.go:68-69 | with three candidates the call at the counter's maximum computes index -2 |
| LeastConnections.LeastConnectionsBalancer.NextBackend | internal/services/loadbalancer/least_connections.go:35-99 | a backend is chosen exactly when there is a candidate; it has the fewest connections of all candidates and the smallest index among equals; connection count and total after the selection |
| LeastConnections.LeastConnectionsBalancer.FewestConnections | internal/services/loadbalancer/least_connections.go:73-83 | the loop computes the first candidate with fewest connections |
| LeastConnections.LeastConnectionsBalancer.ReportResult | internal/services/loadbalancer/least_connections.go:102-133 | the guarded decrement at the first backend with the URL |
| LeastConnections.ArgMinIsLeast | internal/services/loadbalancer/least_connections.go:73-83 | no candidate has fewer connections than the chosen one |
| LeastConnections.ArgMinIsFirst | internal/services/loadbalancer/least_connections.go:78-82 | among equals the smallest index is chosen |
| LeastConnections.ChoosesLeast | internal/services/loadbalancer/least_connections.go:73-89 | the chosen candidate is the first of the least loaded |
| LeastConnections.EvenSpreading | internal/services/loadbalancer/least_connections.go:73-89 | of the first k selections of a new balancer every candidate receives the floor or the ceiling of k/n, the first k mod n candidates the ceiling |
| HealthChecker.Checker.constructor | internal/services/health/checker.go:60-106 | threshold defaults, a copy of the backends, fresh counters per URL |
| HealthChecker.Checker.RecordHealthCheck | internal/services/health/checker.go:150-245 | the checker's new state; the callback fires exactly when the stored state changes, with the state before and after |
| HealthChecker.CountersExact | internal/services/health/checker.go:161-173 | the counters are the trailing runs and the totals of the history |
| HealthChecker.LastRunDecides | internal/services/health/checker.go:203-211 | the state is the verdict of the last run that reached its threshold, or the initial state |
| HealthChecker.FlipSpacing | internal/services/health/checker.go:203-223 | a flip follows every earlier flip by at least its threshold in checks |
| HealthChecker.RepeatFlips | internal/services/health/checker.go:68-77 | n equal results in a row decide the state exactly when n has reached the configured threshold, 2 successes or 3 failures unless configured |
| HealthChecker.CheckerFlips | internal/services/health/checker.go:150-223 | the same for a new checker under any interleaving of checks |
| HealthChecker.MaintenanceIsManual | internal/services/health/checker.go:195-198 | checks never enter or leave maintenance |
| HealthChecker.RunIsPerBackend | internal/services/health/checker.go:150-223 | in every run of interleaved checks each backend has the counters and state of its own history |
| HealthChecker.MirrorAgrees | internal/services/proxy/enhanced_service.go:597-615 | in every run the balancer's backends equal the checker's, even with repeated URLs |
| HealthChecker.PicksRespectChecker | internal/services/proxy/enhanced_service.go:597-615 | no candidate is unhealthy or in maintenance to the checker, and rate-limited ones appear only when it holds none healthy |
| HealthChecker.CheckAndNotify | internal/services/health/checker.go:213-236 | one check with the callback wired keeps the two lists equal |
| Ledger.ReportIsBooked | internal/services/loadbalancer/least_connections.go:107-111 | in every consistent state a report finds a positive count and lowers it by one |
| Ledger.LedgerBalances | internal/services/proxy/enhanced_service.go:373-594 | in every interleaving, even with candidates collected at an earlier moment, connections equal attempts in flight, totals count selections, selections are reports plus attempts in flight |
| Ledger.QuiescentIsZero | internal/services/proxy/enhanced_service.go:373-594 | when all forwards rest all connection counts are zero |
| Ledger.IdleSelects | internal/services/proxy/enhanced_service.go:373-419 | an idle forward that sees a candidate selects the least loaded one and holds it |
| Ledger.HolderReports | internal/services/proxy/enhanced_service.go:421-594 | a forward that holds a backend reports it within three steps, at once when a step fails |
| Ledger.BookedIff | internal/services/loadbalancer/least_connections.go:107-111 | a report is booked on its own backend exactly when no earlier backend shares the URL |
| Forwarding.Service.ForwardToBackend | internal/services/proxy/enhanced_service.go:373-419 | every outcome restores the connection counts and counts one selection; a response exactly on success below 500 |
| Forwarding.Service.Execute | internal/services/proxy/enhanced_service.go:421-594 | every error and success path reports exactly once |
| Forwarding.Service.ForwardDirect | internal/services/proxy/enhanced_service.go:326-370 | the first success is returned with its exact selections and wait, or the failure after all attempts or the cancelled backoff; at most R selections, a crash exactly without retries |
| Forwarding.TotalClosed | internal/services/proxy/enhanced_service.go:333-339 | the backoffs before R attempts add up to backoff·R(R−1)/2 |
| Forwarding.FirstSuccessAnswers | internal/services/proxy/enhanced_service.go:326-370 | if attempt a is the first to succeed and no backoff up to it is cancelled, the result is its response after a + 1 selections |
| Forwarding.Service.Receive | internal/services/proxy/enhanced_service.go:267-271 | what both selects of Dequeue return and leave, with a closing between them; a missing request is read exactly when the queue is closed under the blocked receive |
| Forwarding.Service.ProcessFromQueue | internal/services/proxy/enhanced_service.go:261-323 | the result, selections and queue in every case: the response of the forward, the re-queueing after a failure, a crash exactly when the queue is closed under the receive or a forward has no retries |
| Forwarding.ReceiveLeads | internal/services/proxy/enhanced_service.go:267-271 | with nothing interrupting, the oldest request is forwarded, or the caller's own when a queue without timeout is empty |
| Forwarding.RequeueKeeps | internal/services/proxy/enhanced_service.go:305-323 | going back to the queue never counts a drop; with room and time the request becomes the last one |
| Forwarding.Service.ProcessQueued | internal/services/proxy/enhanced_service.go:225-247 | the wait loop is entered at most timeout over 100 ms, rounded up, times; the queue is processed exactly if a check in time is the first to find a healthy backend, otherwise the request fails and the queue is left alone |
| Forwarding.Service.ForwardWithQueue | internal/services/proxy/enhanced_service.go:168-222 | with a healthy backend the first successful attempt answers and the queue is untouched; after a failure a full queue is left alone, otherwise the request is offered to it; without a healthy backend it is offered at once; at most 2R selections |
| RequestQueue.MemoryQueue.Enqueue | internal/services/queue/memory_queue.go:38-80 | the new queue and the result, which `OfferDecides` characterises |
| RequestQueue.MemoryQueue.Select | internal/services/queue/memory_queue.go:46-79 | the select of Enqueue, also on a channel closed since the check |
| RequestQueue.MemoryQueue.Dequeue | internal/services/queue/memory_queue.go:83-127 | the first select |
| RequestQueue.MemoryQueue.Await | internal/services/queue/memory_queue.go:128-148 | the blocking select, with the wake-up by a closed channel |
| RequestQueue.LastWoken | internal/services/queue/memory_queue.go:128-148 | a step counts a dequeue without a request exactly when it is a blocked receive on a queue that was closed before and is empty, and no timer or context wins |
| RequestQueue.RunLaws | internal/services/queue/memory_queue.go:38-183 | in every run size ≤ maxSize, output is a prefix of input, and enqueued − dequeued = size exactly when no blocked receive is woken by the closing of an empty queue |
| RequestQueue.OfferDecides | internal/services/queue/memory_queue.go:38-80 | after any run, on an open queue with a live context a request is accepted exactly when fewer than maxSize wait, and is then the last one; a refusal happens exactly at maxSize and is counted |
| RequestQueue.DequeueDecides | internal/services/queue/memory_queue.go:83-127 | after any run, with nothing interrupting the oldest waiting request is handed out; timeouts, cancellations and closing are told apart |
| RequestQueue.AwaitDecides | internal/services/queue/memory_queue.go:128-148 | the same for a blocked receive, which a closed queue still serves |
| RequestQueue.MiscountedRun | internal/services/queue/memory_queue.go:128-148 | a two-step run after which the counters differ by −1 on an empty queue |
| RequestQueue.ClosedIsFinal | internal/services/queue/memory_queue.go:38-80 | after a Close no run of events accepts, drops or counts a further request |
| TimedMap.ReadsSeeLastWrite | internal/services/statestorage/local_storage.go:33-104 | under a non-decreasing clock, and while late cleanups hit only expired entries, every read returns what the last write prescribes; lazy deletion is unobservable |
| TimedMap.LivesUntil | internal/services/statestorage/local_storage.go:33-38 | in every run a value put at t with lifetime d reads back until t + d and not after, with lifetime 0 for ever, until the key is written again |
| TimedMap.GoneAfterRemove | internal/services/statestorage/local_storage.go:92-104 | a removed key reads as absent until it is written again |
| TimedMap.LateCleanupIff | internal/services/statestorage/raft_storage.go:1002-1010 | a cleanup that runs after its read is unobservable exactly when the key is gone or expired by then |
| TimedMap.LostWrite | internal/services/statestorage/local_storage.go:52-61 | a write between a read and its late cleanup is lost |
| TimedMap.SameWritesSameReads | internal/services/statestorage/local_storage.go:51-63 | stores with the same writes read alike whatever they cleaned up |
| TimedMap.BulkInAnyOrder | internal/services/statestorage/raft_storage.go:917-936 | single writes in any covering order equal the bulk write |
| TimedMap.SnapshotReadsAlike | internal/services/statestorage/raft_storage.go:953-974 | a snapshot reads like the live map at every later time |
| LocalStorage.Storage.Get | internal/services/statestorage/local_storage.go:51-63 | a value exactly for a present item within its lifetime, and its cleanup otherwise |
| LocalStorage.Storage.Set | internal/services/statestorage/local_storage.go:66-89 | the stored item and the notification |
| LocalStorage.Storage.Delete | internal/services/statestorage/local_storage.go:92-104 | the removal and the notification |
| LocalStorage.Storage.GetMultiple | internal/services/statestorage/local_storage.go:107-118 | exactly the present keys with their values, and no later read changes |
| LocalStorage.Storage.SetMultiple | internal/services/statestorage/local_storage.go:121-132 | all items are stored, whatever the iteration order, and watchers are notified of each item once in that order |
| LocalStorage.Storage.Watch | internal/services/statestorage/local_storage.go:135-152 | a new open channel is registered under the prefix |
| LocalStorage.Storage.RemoveWatcherAndClose | internal/services/statestorage/local_storage.go:229-269 | the registration and the channel after the end of a watch |
| LocalStorage.Storage.Close | internal/services/statestorage/local_storage.go:155-189 | every registered channel is closed once, all records and data are cleared |
| LocalStorage.Storage.NotifyWatchers | internal/services/statestorage/local_storage.go:203-226 | every registered channel with a matching prefix is sent the event once, in whatever order |
| Watchers.LifeCycle | internal/services/statestorage/local_storage.go:135-189 | with no Watch after Close nothing is closed twice or sent to after closing, and exactly the open channels are registered |
| Watchers.HealthyThroughout | internal/services/statestorage/local_storage.go:135-269 | in every run the same registration holds for as long as nothing panics |
| Watchers.CancelPanicsIff | internal/services/statestorage/local_storage.go:229-269 | exactly when the end of a watch panics |
| Watchers.PanicCause | internal/services/statestorage/local_storage.go:176-178 | in every run only that step can panic, and only after Close |
| Watchers.DoubleClose | internal/services/statestorage/local_storage.go:176-178 | a four-step run that panics |
| Watchers.CancelEnds | internal/services/statestorage/local_storage.go:229-269 | the end of an open watch closes and unregisters its channel and touches no other |
| Watchers.CloseEnds | internal/services/statestorage/local_storage.go:155-189 | Close ends every watch |
| Watchers.WatchHears | internal/services/statestorage/local_storage.go:135-152 | a new watch hears of every key that continues its prefix and of no other |
| Watchers.Delivery | internal/services/statestorage/local_storage.go:203-226 | every channel is given the events offered to it, those whose key begins with its prefix, in order, except those that met a buffer of 100 waiting events |
| RaftFsm.Fsm.Apply | internal/services/statestorage/raft_storage.go:866-950 | the data after a command, an error exactly for unknown or malformed ones |
| RaftFsm.Fsm.Get | internal/services/statestorage/raft_storage.go:997-1018 | a value exactly for a present item within its lifetime, and the cleanup |
| RaftFsm.Fsm.Snapshot | internal/services/statestorage/raft_storage.go:953-974 | the copy holds exactly the unexpired items |
| RaftFsm.FoldSeesLastCommand | internal/services/statestorage/raft_storage.go:866-950 | folded over any log, a read returns what the last command to the key prescribes |
| RaftFsm.SetThenRead | internal/services/statestorage/raft_storage.go:866-915 | a set value reads back until its timestamp plus its lifetime, a deleted key not at all |
| RaftFsm.SnapshotThenRest | internal/services/statestorage/raft_storage.go:953-974 | snapshot plus the rest of a log reads like the whole log |
| TenantGroups.DeduplicateStrings | internal/services/tenant/filterstrategies/or_query_builder.go:170-182 | first occurrences are kept |
| TenantGroups.SortThenDeduplicate | internal/services/tenant/filterstrategies/or_query_builder.go:147-151 | sorting then deduplicating yields the strictly sorted list of the set |
| TenantGroups.CollectTenants | internal/services/tenant/filterstrategies/or_query_builder.go:121-131 | the two maps hold the wildcard accounts and the listed projects |
| TenantGroups.OptimizeGroups | internal/services/tenant/filterstrategies/or_query_builder.go:117-167 | for every map order the result is the canonical list of the set of tenants, so order and repetition of tenants never show |
| TenantGroups.GroupsPreserveAccess | internal/services/tenant/filterstrategies/or_query_builder.go:115-155 | groups permit exactly the pairs the tenants permit |
| TenantGroups.CanonicalShape | internal/services/tenant/filterstrategies/or_query_builder.go:157-160 | accounts strictly increase, projects strictly increase, wildcard exactly without projects |
| PromQL.InjectGroup | internal/services/tenant/filterstrategies/or_query_builder.go:226-267 | the result names the tenant label, and a list that already names it is left alone |
| PromQL.InjectTenant | internal/services/tenant/filterstrategies/promql_parser.go:79-141 | the same for the single-tenant injector |
| PromQL.InjectOnce | internal/services/tenant/filterstrategies/or_query_builder.go:233-237 | a second injection of any group is a no-op |
| PromQL.ImplementationsAgree | internal/services/tenant/filterstrategies/promql_parser.go:74-147 | the single-tenant injector yields the expression of the group path |
| TenantIsolation.InjectedByFields | internal/services/tenant/filterstrategies/or_query_builder.go:204-265 | the injected matchers accept exactly the series whose configured account label, vm_account_id by default, is the group's account and whose configured project label, vm_project_id by default, is one of its projects |
| TenantIsolation.SingleByFields | internal/services/tenant/filterstrategies/promql_parser.go:79-141 | the same for the single-tenant injector |
| QueryBuilder.SelectorNode.InjectGroup | internal/services/tenant/filterstrategies/or_query_builder.go:226-267 | the matchers appended in place |
| QueryBuilder.SelectorNode.InjectTenant | internal/services/tenant/filterstrategies/promql_parser.go:79-141 | the matchers appended in place |
| QueryBuilder.Inspect | internal/services/tenant/filterstrategies/or_query_builder.go:214-220 | every selector is rewritten once, shared nodes included |
| QueryBuilder.InjectTenantToExpression | internal/services/tenant/filterstrategies/or_query_builder.go:199-223 | the AST afterwards is the pure injection of the AST before |
| QueryBuilder.InjectTenantLabels | internal/services/tenant/filterstrategies/promql_parser.go:51-59 | the same for the single-tenant injector |
| QueryBuilder.Clone | internal/services/tenant/filterstrategies/or_query_builder.go:185-196 | a structural copy of fresh nodes |
| QueryBuilder.InjectClones | internal/services/tenant/filterstrategies/or_query_builder.go:86-93 | disjunct i is the injection of group i alone and the input is intact |
| QueryBuilder.CreateSecureOr | internal/services/tenant/filterstrategies/or_query_builder.go:72-106 | the OR tree of the injections of the canonical groups; with two or more groups the input is unchanged |
| QueryBuilder.BuildSecureQuery | internal/services/tenant/filterstrategies/or_query_builder.go:36-68 | errors exactly without tenants or a parse, otherwise one rewriting on both the single and the OR path |
| TenantIsolation.InjectionReads | internal/services/tenant/filterstrategies/or_query_builder.go:199-274 | for every expression: selectors naming the tenant label read everything, all others only the group's series |
| TenantIsolation.InjectionMeaning | internal/services/tenant/filterstrategies/or_query_builder.go:199-274 | the injected expression means the original over the restricted database |
| TenantIsolation.QueryDependence | internal/services/tenant/filterstrategies/or_query_builder.go:72-106 | databases that agree on permitted series give the rewritten query the same value under every semantics, if selectors that name the tenant label match permitted series only |
| TenantIsolation.IsolationIff | internal/services/tenant/filterstrategies/or_query_builder.go:226-237 | under values that record all reads, a rewritten query depends on permitted series alone exactly when selectors that name the tenant label match permitted series only |
| TenantIsolation.UnconfinedLeaks | internal/services/tenant/filterstrategies/or_query_builder.go:232-237 | a selector that names the tenant label and matches a series nobody granted lets it through |
| TenantIsolation.NamedAccountLeaks | internal/services/tenant/filterstrategies/or_query_builder.go:232-237 | a query that asks for a foreign account by name is not isolated |
| TenantIsolation.BareSelectorExact | internal/services/tenant/filterstrategies/or_query_builder.go:86-105 | a rewritten selector yields exactly the original result limited to permitted series |
| Regexp.PatternMeaning | internal/services/tenant/filterstrategies/or_query_builder.go:258-265 | the pattern built from project IDs matches exactly what one of the IDs, read as a pattern, matches |
| Regexp.LiteralIff | internal/services/tenant/filterstrategies/or_query_builder.go:258-265 | that pattern matches the IDs and nothing else exactly when no ID has a metacharacter |
| Regexp.AnythingThere | internal/services/tenant/filterstrategies/or_query_builder.go:258-265 | where a matched value has a metacharacter, any other character in its place matches as well |
| TenantIsolation.ReadsLiterallyIff | internal/services/tenant/filterstrategies/or_query_builder.go:258-265 | an engine reads a group's projects literally exactly when none has a metacharacter |
| TenantIsolation.PlainReadsAll | internal/services/tenant/filterstrategies/or_query_builder.go:258-265 | for tenants without metacharacters in project IDs every group is read literally |
| TenantIsolation.DotLeak | internal/services/tenant/filterstrategies/or_query_builder.go:258-265 | a dot in a project ID makes the injected matchers accept every project that differs from it there |
| TenantIsolation.GrantedDotLeaks | internal/services/tenant/filterstrategies/or_query_builder.go:258-265 | with projects 1.2 and 3 granted a plain query also reads project 1x2 |
| Permissions.TenantStringIff | internal/domain/types.go:30-36 | two tenants have one identifier exactly when they are equal or one covers the other, spelling part of its account as project |
| Permissions.TenantStringClash | internal/domain/types.go:30-36 | two different tenants with one identifier |
| Permissions.ColonFreeUnambiguous | internal/domain/types.go:30-36 | tenants with colon-free accounts never cover each other |
| Permissions.HasGroupMatch | internal/services/auth/service.go:205-213 | true exactly when a user group is required |
| Permissions.RemoveDuplicateVMTenants | internal/services/auth/service.go:230-242 | the loop keeps the first tenant of every identifier |
| Permissions.DetermineUserPermissions | internal/services/auth/service.go:161-202 | the tenants of matching mappings without repeated identifiers; read-only exactly when a matching mapping lacks write |
| Permissions.DeduplicationKeeps | internal/services/auth/service.go:230-242 | nothing is invented and no identifier is lost, for any account IDs |
| Permissions.DeduplicationExact | internal/services/auth/service.go:230-242 | it is the first-occurrence deduplication exactly when no listed tenant covers another |
| Permissions.GroupsPermitUnion | internal/services/auth/service.go:161-202 | unless granted tenants cover one another, the groups built from a user's tenants permit exactly the union of what matching mappings grant |
| Permissions.UnionIff | internal/services/auth/service.go:161-242 | the groups permit exactly that union exactly when every granted tenant is subsumed by one that deduplication keeps |
| Permissions.AccessLost | internal/services/auth/service.go:230-242 | of two tenants of which one covers the other, the one listed second is lost with its access |
| Permissions.UserIsolation | internal/services/auth/service.go:161-202 | for project IDs without metacharacters, databases that agree on what the matching mappings grant give the user's rewritten query the same value |

## Left out

- Regular expressions with character classes, counted repetition, anchors, escapes or repeated postfix operators: nothing is said about project IDs whose pattern uses them, except that IDs without metacharacters never do.
- Printing and parsing of PromQL: the Prometheus parser is foreign; a parsed query is the input, and cloning by printing and parsing is a fresh structural copy, without the fallback that returns the original when the copy does not parse.
- WeightedRoundRobin.WeightedBalancer.NextBackend: collects candidates and selects in one step; the code releases its lock in between, so a selection may use candidates that a state update has just changed. `NoOverflowEver` covers this, since its candidate sets are arbitrary.
- LocalStorage.Storage.Get: reads and cleans up in one step; the code does not lock in between, and what a write there loses is stated by `LateCleanupIff` and `LostWrite`.
- LocalStorage.Storage.SetMultiple: uses one clock reading for all items; the code reads the clock for each.
- RequestQueue.MemoryQueue.Enqueue: does not hand a request directly to a blocked receiver, which an unbuffered channel would do.
- RaftFsm.Fsm.Get: cleans up as part of the read; the code deletes later in a goroutine that does not look at the key again, which is the late cleanup of `LateCleanupIff`.
- Raft snapshots as bytes: Persist and Restore encode unexported fields, so no round trip is stated.
- LeastConnections.LeastConnectionsBalancer.NextBackend: collects candidates and counts in one step (`LedgerBalances` covers candidates collected earlier), and does not model 64-bit wrap-around of the request totals.
- Forwarding.Service.ProcessQueued: sees the health of the backends through an argument, because other requests and the checker change it meanwhile.
- Matching a queued response to its own caller: the code may hand a caller the response of another queued request.
- SetMaintenanceMode: it changes only the balancer, so runs with it are outside the mirror property.
- ResetStats of the least-connections balancer: runs with it are outside the ledger property.
- Watchers of the Raft and Redis storages, Redis, BoltDB, memberlist, mDNS, JWT verification, token caching, configuration, metrics, logging and HTTP handlers: libraries, or code that only passes values along.
