# A verified model of an agent-orchestration engine

The engine runs crews of LLM agents behind an HTTP API. This project models the parts of
it that are algorithms or protocols and proves what they promise, for every input, every
interleaving or every run. `dafny verify dfyconfig.toml` checks all of it.

| module | models |
|---|---|
| `KickoffLedger`, `KickoffServer`, `KickoffProtocol` | a kickoff request on its way through the idempotency ledger, the session table and the counting semaphore, and the detached run that settles all three: the tables and the effect of each locked block, the object that updates them in place, and the state machine of any number of interleaved requests |
| `Graph` | the graph scheduler: rounds of ready tasks that run in parallel, with feedback edges that un-process tasks while a round is still launching |
| `Flows`, `Checkpoints`, `Delegation` | the flow interpreter and its parallel joins, checkpoints and resuming, and the manager's parallel delegation as a client of the engine |
| `CircuitBreaker`, `TokenBucket`, `RateLimiter`, `Usage` | admission control against the history of what was admitted |
| `Text`, `Iteration`, `Interpolation`, `NestedInputs`, `InputWalk`, `Splitter`, `Scope`, `Ranking`, `Similarity` | placeholder interpolation, chunk splitting, memory scopes, top-k merging, cosine similarity |

State that the program updates in place is a class or an array here, and each method is
proved against a function of the old state; the theorems are about those functions and
about runs made of them. Integers are unbounded, times and floating-point numbers are
reals, and clocks, stores and agents are parameters.

## What the proofs found

- A session id that requests with different keys share can lose a finished run's outcome
  for good: the second key overwrites the reverse mapping and its release deletes it
  (`SharedSessionLosesOutcome`, `LostOutcomeNeverReplays`). It can also make a key replay
  the outcome of the other run (`SharedSessionCrossesOutcomes`), even a key whose only
  request was rejected (`RejectedKeyReplays`), although the handler's comment promises that
  a retry is not blocked. `FinishRecordsItsKey` says exactly when a finish records its own
  run, and `DoneIffFinished` that replays are exactly right as long as no other request
  names the sessions of a key.
- A request turned away because the semaphore is full leaves its session "running", and
  that session id can never run again (`FullTurnsAway`, `BusyIsReached`,
  `BusySessionIsStuck`).
- `executeGraph` returns without an error when its cycle bound is used up. Without errors
  and feedback it then leaves tasks out exactly when a chain of dependencies is longer than
  the bound (`ReturnsUnfinishedIff`, `LongRowReturnsUnfinished`). With feedback any task
  that keeps selecting itself is left out (`FeedbackReturnsUnfinished`), and if no task may
  select itself a large enough bound always completes (`FeedbackSettlesIff`).
- Restoring a checkpoint overlays the flow's initial state, so a key that an action
  dropped comes back (`RestoredExactly`, `DroppedKeyComesBack`), and resuming after a
  router follows its first successor instead of its choice (`RouterResumesElsewhere`).
- An error of the agent that took a delegated task is dropped: its branch counts as a
  success and its empty result is stored as an answer, as the model of a branch does.
- `Load` looks at file names only: a flow sees the checkpoints of another flow exactly
  when one id followed by an underscore begins the other (`FilesOfOtherFlows`).
- A call admitted while the breaker was closed can end during half-open and let a second
  trial in (`TwoTrialsHappen`); `SecondTrialIff` says exactly when a second one is possible.
- The comment on `AdmitBudget` says that concurrent requests cannot consume the same
  budget. They can: every slot may overspend by one call, and no more (`SpendBound`,
  `ReachTheBound`), so any budget can be overspent unless no call can be made or all are
  free (`OverspendIff`).
- `SplitText` does not finish on a long text when the overlap is not smaller than the chunk
  size, which the default overlap of 100 is for chunks of at most 100 words
  (`FinishesIffOverlapSmaller`, `DefaultOverlapNeedsLargeChunks`).
- The comment in `InterpolateInputs` calls its rescan bounded. Values that use each other
  in a circle keep it going for ever, and among values that are whole templates nothing
  else does (`HaltsIffNotCircular`, `HaltsIffShallow`, `SelfReferenceNeverStops`).

## Model

| member | source | states |
|---|---|---|
| KickoffServer.Server.constructor | pkg/api/server.go:158-212 | a new server has an empty ledger and no sessions |
| KickoffServer.Server.CheckIdem | pkg/api/handlers.go:69-77 | a key is found exactly when it is recorded and its owner is the caller, unknown, or the caller is unknown; what is found is the recorded entry |
| KickoffServer.Server.DoIdem | pkg/api/handlers.go:102-141 | both maps after each of the four ledger operations, whether it applied, and the session that owns a key lost in the race |
| KickoffServer.Server.PersistSessionStart | pkg/api/handlers.go:694-745 | a session is inserted as running unless its id is invalid, or taken by another known tenant or running; a failed save removes it, and every refusal leaves the table alone |
| KickoffServer.Server.PersistSessionEnd | pkg/api/handlers.go:748-817 | an existing session takes the terminal status, an unknown id changes nothing |
| KickoffLedger.ValidIDsAreFileNames | pkg/crew/checkpoint.go:54-72 | a valid session id is a file name of at most 128 characters without separators that is neither of the two dot names |
| KickoffServer.Channel.TrySend | pkg/api/handlers.go:44-54 | a slot is taken exactly when the channel has room |
| KickoffServer.Channel.Receive | pkg/api/handlers.go:57-59 | releasing takes back one slot of the same channel |
| KickoffProtocol.KeysKept | pkg/api/handlers.go:102-141 | every step of every request keeps: a request past its reservation is the only one holding its key, and the entry is recorded for it |
| KickoffProtocol.ReverseKept | pkg/api/handlers.go:102-141 | every step keeps the reverse mapping inside the open entries |
| KickoffProtocol.SessionsKept | pkg/api/handlers.go:394-406 | every step keeps: a session is running exactly when one request occupies it, and never two |
| KickoffProtocol.SemsKept | pkg/api/handlers.go:44-59 | every step keeps the occupancy of each channel equal to the runs that hold a slot of it |
| KickoffProtocol.InvHolds | pkg/api/handlers.go:631-686 | all four invariants hold in every state that any interleaving reaches |
| KickoffProtocol.KeyLaunchesOnce | pkg/api/handlers.go:356-392 | over every interleaving of any number of requests a non-empty key launches at most one crew run, ever |
| KickoffProtocol.OneLiveRunPerSession | pkg/api/handlers.go:694-817 | in every reachable state live runs have different session ids, a live run's session is recorded as running, and a session is running exactly when some request occupies it |
| KickoffProtocol.SlotsAreHeldByRuns | pkg/api/handlers.go:44-59 | in every reachable state each channel's occupancy is the number of runs that acquired from that very channel, within its capacity, and a release never blocks, although the global channel may be replaced in between |
| KickoffProtocol.ReverseMapIsOpen | pkg/api/handlers.go:102-141 | in every reachable state a reverse mapping points to an existing entry that is not done and names that session |
| KickoffProtocol.OtherTenantSeesNoEntry | pkg/api/handlers.go:69-77 | in every reachable state a request of another known tenant never learns from its lookup that a key is held, neither as a replay nor as a duplicate |
| KickoffProtocol.LoserIsToldTheWinner | pkg/api/handlers.go:110-112 | in every reachable state a request that tries to reserve a held key is told the session of its holder and changes nothing |
| KickoffProtocol.OtherTenantsSessionIsRefused | pkg/api/handlers.go:703-716 | a session that is running, or that another known tenant recorded, is not started again |
| KickoffProtocol.FinishedRunIsRecorded | pkg/api/handlers.go:670-680 | a finished run whose session id no request with another key, or with none, has named has its key recorded as done with exactly the session's terminal status |
| KickoffProtocol.FinishedRunsReplay | pkg/api/handlers.go:356-372 | every later request with the key of such a run, a retry with the same session id included, replays that outcome unless it is another tenant's |
| KickoffProtocol.UnfinishedRunsAreReported | pkg/api/handlers.go:357-364 | until a run that owns its session id has finished, every later request with its key is told that this session is still running |
| KickoffProtocol.ReplayTellsHowItEnded | pkg/api/handlers.go:670-680 | over whole runs, a key replays "failed" exactly for a crew that failed and "completed" for one that did not, whatever happens in between |
| KickoffProtocol.DoneIffFinished | pkg/api/handlers.go:102-141 | as long as no other request names the sessions of a key's requests, the key is recorded as done if and only if a run of that key has finished, and then with that run's session, owner and terminal status |
| KickoffProtocol.FinishRecordsItsKey | pkg/api/handlers.go:131-138 | with shared session ids, finishing a run records its outcome for its key if and only if the reverse mapping still names that key or the same outcome was recorded before |
| KickoffProtocol.LostOutcomeNeverReplays | pkg/api/handlers.go:357-364 | once a finished run's outcome is lost, every later request with its key is told for ever that it is still running, unless it is another tenant's |
| KickoffProtocol.SharedSessionLosesOutcome | pkg/api/handlers.go:114-118 | such a state is reached from the start: a second key naming the same session loses the first run's outcome |
| KickoffProtocol.SharedSessionCrossesOutcomes | pkg/api/handlers.go:673-679 | a run from the start after which a key replays the outcome of another run on the same session although its own run ended otherwise |
| KickoffProtocol.RejectedKeyReplays | pkg/api/handlers.go:409-416 | a run from the start after which a key replays an outcome although its only request was rejected and no crew ever ran for it |
| KickoffProtocol.BusySessionIsStuck | pkg/api/handlers.go:657-664 | after a request was turned away for lack of a slot its session stays running and no run is ever launched for it |
| KickoffProtocol.FullTurnsAway | pkg/api/handlers.go:657-664 | from any state with a full channel a request with a valid, unused session id can be turned away, and then leaves that session running |
| KickoffProtocol.BusyIsReached | pkg/api/handlers.go:657-664 | this is reached from the start on the channel the server starts with: ten live runs fill it and the eleventh request is turned away |
| Graph.ReadyTasksAre | pkg/crew/crew.go:1000-1018 | the ready list holds exactly the unprocessed tasks whose dependencies are all processed |
| Graph.ScanReady | pkg/crew/crew.go:1000-1022 | the scan returns the ready list, and says that all is done exactly when every task is processed |
| Graph.RoundInvKept | pkg/crew/crew.go:1029-1061 | every move of the launch loop or of a goroutine keeps the processed set equal to what was processed or launched minus the targets reset so far |
| Graph.RoundIsConfluent | pkg/crew/crew.go:1029-1062 | for fixed outcomes every interleaving of a round ends with the same processed set, (processed + ready) minus the reset targets, and errors of the same tasks |
| Graph.RoundEnds | pkg/crew/crew.go:1029-1062 | a round never blocks before its end, and every move uses up one of finitely many |
| Graph.SlotsAreEnough | pkg/crew/crew.go:988-992 | in every interleaving no more tasks execute at the same time than there are slots |
| Graph.RunRound | pkg/crew/crew.go:1029-1068 | the loop with a free scheduler ends with that processed set and those errors |
| Graph.ExecuteGraph | pkg/crew/crew.go:973-1073 | the rounds run and the result, deadlock and first failing round included, are those of the round-by-round specification |
| Graph.RunIsExplained | pkg/crew/crew.go:999-1073 | from log and outcomes alone: every round ran exactly the unprocessed tasks whose dependencies were processed, in the order of the crew, and what a task sent the crew back to, itself or a dependency, was unprocessed afterwards |
| Graph.TaskErrorIff | pkg/crew/crew.go:1039-1043 | the result is an error exactly when a task of the last logged round failed; no earlier round holds a failed task, and any other result means that none failed |
| Graph.ResultsMean | pkg/crew/crew.go:999-1073 | a deadlock means that tasks are left and none of them can run, a return that all are processed or the bound is used up |
| Graph.DeadlockIffStuck | pkg/crew/crew.go:1024-1026 | a deadlock can be reported exactly when some tasks of the crew all wait on one another or on tasks outside it |
| Graph.AcyclicNeverDeadlocks | pkg/crew/crew.go:1024-1026 | acyclic dependencies inside the crew never lead to a reported deadlock, whatever is reset |
| Graph.ReturnedMeans | pkg/crew/crew.go:999-1073 | for all outcomes, a return without an error means that all tasks are processed or that the whole bound of rounds was run |
| Graph.ReturnsUnfinishedIff | pkg/crew/crew.go:999-1073 | without errors or feedback, a crew that cannot deadlock always returns without an error, and leaves tasks unprocessed if and only if some chain of dependencies is longer than the bound |
| Graph.LongRowReturnsUnfinished | pkg/crew/crew.go:994-1073 | a plain row of more tasks than the bound, 101 by default, returns without an error and unfinished |
| Graph.SelfSelectedIsNeverProcessed | pkg/crew/crew.go:1046-1059 | a task that selects itself in every round is left unprocessed by every run, whatever the crew and the other outcomes |
| Graph.FeedbackReturnsUnfinished | pkg/crew/crew.go:1046-1059 | in every crew that cannot deadlock such a task makes every bound return without an error and unfinished, if no task fails |
| Graph.FeedbackSettles | pkg/crew/crew.go:1046-1059 | if no task fails or selects itself, feedback to dependencies wears off: with as many rounds as the ranks of the tasks add up to, every task ends up processed, whatever is reset and when |
| Graph.FeedbackSettlesIff | pkg/crew/crew.go:999-1073 | for a crew that cannot deadlock and a bound of at least the square of its size, every failure-free choice that NextPaths allow completes the crew if and only if no task lists itself in NextPaths |
| Graph.EveryTaskRunsOnce | pkg/crew/crew.go:999-1073 | with no resets or errors, a crew that cannot deadlock and a bound of at least the number of tasks, every task runs exactly once, in a later round than all its dependencies |
| Graph.EveryTaskRunsOnceIff | pkg/crew/crew.go:999-1073 | with no resets or errors every task is processed, having run exactly once, if and only if dependencies stay inside the crew and no chain of them is longer than the bound; no task ever runs twice or before a dependency |
| Flows.MergeGetsAPermutation | pkg/flows/engine.go:72-122 | for every schedule a parallel node hands Merge a permutation of the successful branch states |
| Flows.EveryOrderHappens | pkg/flows/engine.go:72-93 | conversely every order of the branches is the result of some schedule |
| Flows.ParallelHandsOn | pkg/flows/engine.go:95-122 | a parallel node fails exactly when it has branches and none succeeds; else it hands on the Merge of the branch states, or the state of the first branch to succeed, or its own |
| Flows.ScheduleIndependent | pkg/flows/engine.go:33-192 | if every Merge is insensitive to order, running any flow, cyclic ones included, gives the same outcome under all schedules |
| Flows.LineSucceedsIff | pkg/flows/engine.go:39-41 | a line of steps that cannot fail succeeds exactly when it has at most 256 of them |
| Flows.JoinBranches | pkg/flows/engine.go:73-105 | whatever order branches complete in, the collected states are a permutation of the successful ones, some schedule explains them, and the rest are counted as failed |
| Flows.RunItems | pkg/flows/engine.go:129-156 | whatever order items complete in, slot i of the results is the result of item i or null, and the failure count reaches the number of items exactly when all failed |
| Flows.MapNodeLaw | pkg/flows/engine.go:124-169 | a map node calls its action once for every item, on the state with that item added, and stores what each call left under "result", or null, in the order of the items; it fails when all of at least one call fail, and passes a missing or unlisted source through |
| Flows.RunMapNode | pkg/flows/engine.go:124-169 | the method does what that law says, whatever order items complete in |
| Checkpoints.CheckpointManager.Save | pkg/flows/checkpoint.go:72-105 | one file per flow and node is overwritten, and nothing changes for an unclean id |
| Checkpoints.CheckpointManager.Load | pkg/flows/checkpoint.go:108-147 | the result is a matching file of maximal time, and none exactly when the id is unclean or no file matches |
| Checkpoints.CleanIff | pkg/flows/checkpoint.go:37-48 | an id is clean exactly when it is not empty, has at most 128 bytes, no separator and no two dots in a row |
| Checkpoints.CleanNamesStayInside | pkg/flows/checkpoint.go:96-97 | the file of clean ids lies in the directory of the checkpoints |
| Checkpoints.LastCheckpointIsLatest | pkg/flows/checkpoint.go:72-147 | after any run of saves over older files, the latest match is the last save |
| Checkpoints.RunIsAPath | pkg/flows/engine.go:57-191 | a successful run of any flow is a path: every node got what the one before it left and did what its type says, a router's choice or the first successor comes next, and no node is skipped |
| Checkpoints.RestoredExactly | pkg/flows/state.go:26-28 | restoring gives exactly the checkpointed state if and only if that state has every key of the state restored into |
| Checkpoints.SuccessIsShort | pkg/flows/engine.go:39-41 | a successful run passes at most as many nodes as the depth guard allows |
| Checkpoints.ContinueFrom | pkg/flows/engine.go:213-229 | going on from any checkpoint of a successful run, at depth 0 again, ends as the run did |
| Checkpoints.ResumeEqualsRun | pkg/flows/engine.go:195-231 | stopping after any checkpoint and resuming a fresh copy of the flow gives the final state of the uninterrupted run, if the checkpoint has every key of the initial state and its node goes on where its Next says |
| Checkpoints.StepsCanResume | pkg/flows/engine.go:195-231 | so a flow of step, map and reduce nodes whose actions never drop a key of the initial state can be resumed after any checkpoint |
| Checkpoints.Flow.ExecuteNode | pkg/flows/engine.go:33-192 | the recursion returns the outcome of the interpreter and leaves one checkpoint after every node that succeeded, parallel nodes included, in the order of the path |
| Checkpoints.Flow.RunFlow | pkg/flows/engine.go:23-31 | the flow's state becomes the final state, and is untouched by a failed run; the files are those of the checkpoints on its path |
| Checkpoints.Flow.ResumeFlow | pkg/flows/engine.go:195-231 | without a manager or a checkpoint nothing changes; otherwise the outcome is that of resuming from a latest one, the restored state stays behind when that fails, and the files are those of the checkpoints on the resumed path |
| Checkpoints.DroppedKeyComesBack | pkg/flows/state.go:26-28 | a flow whose action drops a key of the initial state resumes to a different final state |
| Checkpoints.RouterResumesElsewhere | pkg/flows/engine.go:219-225 | a flow whose router's choice is not its first successor resumes to a different final state |
| Checkpoints.FilesOfOtherFlows | pkg/flows/checkpoint.go:113-113 | among clean ids, a flow's pattern matches a file that Save writes for another flow exactly when one id followed by an underscore begins the other |
| Delegation.BranchIDsDiffer | pkg/agents/manager.go:123-138 | different branches have different ids, hence write different keys |
| Delegation.AnswersAre | pkg/agents/manager.go:123-141 | the answers are exactly what the agents returned that took a task, each under the word task, a dash and the number of that task |
| Delegation.DecimalIs | pkg/agents/manager.go:124-124 | branch numbers are written in decimal without leading zeros |
| Delegation.MergeAllInAnyOrder | pkg/agents/manager.go:151-161 | the merge gives the same map for every order of states that agree on common keys |
| Delegation.DelegationReturnsAnswers | pkg/agents/manager.go:109-176 | under every schedule the flow that delegation builds fails exactly when it has branches and no agent took any of them, and otherwise ends with exactly what the agents that took one returned |
| Delegation.DelegateParallelTasks | pkg/agents/manager.go:109-176 | the program that builds that flow node by node and runs it returns those answers |
| CircuitBreaker.CircuitBreakerObject.constructor | pkg/llm/circuitbreaker.go:37-45 | a new breaker is closed, with the defaults for a threshold or cooldown that is not positive |
| CircuitBreaker.CircuitBreakerObject.Before | pkg/llm/circuitbreaker.go:49-69 | the admission and the new state of the breaker for each of its three states |
| CircuitBreaker.CircuitBreakerObject.After | pkg/llm/circuitbreaker.go:71-94 | the new state of the breaker after a success, a failure or an uncounted result |
| CircuitBreaker.InvHolds | pkg/llm/circuitbreaker.go:49-94 | over every run of overlapping calls the failure count is the trailing run of counted failures, and an active trial is an outstanding call |
| CircuitBreaker.TripsOnTrailingFailures | pkg/llm/circuitbreaker.go:71-94 | in every run the breaker is not closed exactly when the counted failures since the last success reach the threshold |
| CircuitBreaker.TrialsWaitForCooldown | pkg/llm/circuitbreaker.go:49-69 | a call admitted while it is not closed comes at least the cooldown after the most recent counted failure |
| CircuitBreaker.UncountedChangesNothing | pkg/llm/circuitbreaker.go:72-79 | a cancelled or fast-failed call leaves breaker and history alone, except that a trial makes room for the next |
| CircuitBreaker.NeverWedged | pkg/llm/middleware.go:198-210 | with no call outstanding a call is admitted exactly when the breaker is closed or the cooldown has passed |
| CircuitBreaker.SecondTrialIff | pkg/llm/circuitbreaker.go:49-94 | while a trial is outstanding a second one can still be admitted if and only if some other call is outstanding too or the breaker is not half-open with its trial active |
| CircuitBreaker.AtMostOneTrial | pkg/llm/circuitbreaker.go:49-94 | if no ordinary call is outstanding whenever a trial starts, there is never more than one trial |
| CircuitBreaker.TwoTrialsHappen | pkg/llm/circuitbreaker.go:71-94 | a run from a new breaker with two trials outstanding |
| TokenBucket.TokenBucketObject.constructor | pkg/llm/middleware.go:290-298 | a new bucket is full and refills its capacity once per window |
| TokenBucket.TokenBucketObject.TryTake | pkg/llm/middleware.go:303-320 | the new contents of the bucket, a grant exactly when a whole token is there after the refill, and otherwise the time to sleep |
| TokenBucket.WindowRefills | pkg/llm/middleware.go:290-298 | one window fills an empty bucket |
| TokenBucket.TokensInRange | pkg/llm/middleware.go:301-329 | in every run of interleaved attempts the tokens stay between none and the maximum |
| TokenBucket.GrantsBound | pkg/llm/middleware.go:301-329 | the grants in any interval, together with what is left, are at most max + rate times its length |
| TokenBucket.GrantsExactlyTheAllowance | pkg/llm/middleware.go:301-329 | an attempt is granted if and only if that keeps every interval ending now within its allowance |
| TokenBucket.LoneWaiterIsServed | pkg/llm/middleware.go:318-327 | a lone waiter that slept the computed time or longer is granted exactly when the bucket can hold a token |
| RateLimiter.FilterInPlace | pkg/api/server.go:50-56 | filtering by moving to the front keeps exactly the fresh times, in order |
| RateLimiter.FreshIs | pkg/api/server.go:50-56 | fresh times are those younger than the window, and the times of an address are those of its own admissions |
| RateLimiter.Limiter.Sweep | pkg/api/server.go:61-82 | the early-exit sweep drops only stale times, and makes room exactly when some address has no fresh admission |
| RateLimiter.Limiter.Allow | pkg/api/server.go:43-85 | a request is admitted if and only if its address is below the limit and the table has or can get room; the table keeps agreeing with the history and never exceeds 10000 addresses |
| RateLimiter.AdmittedIff | pkg/api/server.go:57-84 | in terms of the history of admissions: admitted exactly when the address is below its limit within the window and either has an admission in it, or the table has room, or holds an address without one |
| RateLimiter.WindowBound | pkg/api/server.go:43-85 | in every history the limiter can produce, any interval as long as the window holds at most `limit` admissions of an address |
| RateLimiter.SweepIsFaithful | pkg/api/server.go:61-78 | dropping stale times never changes what the table shows from now on |
| RateLimiter.RefusalIsJustified | pkg/api/server.go:57-82 | a refusal means that the address used its limit within the window or that all 10000 addresses had an admission in it |
| Usage.UsageTracker.Add | pkg/llm/usage.go:57-69 | the call is appended and every running total grows by exactly its number |
| Usage.TotalGrows | pkg/llm/usage.go:57-69 | the total of the recorded calls grows field by field by the numbers of each further call, from zero |
| Usage.TotalPermutes | pkg/llm/usage.go:57-69 | the order in which calls are recorded does not change their total |
| Usage.UsageTracker.AdmitBudget | pkg/llm/usage.go:395-436 | a call is admitted exactly when there is no positive budget or the spend so far is below it |
| Usage.SpendBound | pkg/llm/usage.go:391-436 | with at most N calls in flight, each costing at most C, the spend stays below B + N * C over every run |
| Usage.TrackedSpendBound | pkg/llm/usage.go:391-436 | over every interleaving of admissions and records, the sum of the recorded costs stays below B + N * C |
| Usage.SpendBoundIsTight | pkg/llm/usage.go:391-436 | from any spend below the budget a run adds N * C in full |
| Usage.ReachTheBound | pkg/llm/usage.go:391-436 | any spend below the budget plus the full N * C is reached from an empty ledger |
| Usage.OverspendIff | pkg/llm/usage.go:391-436 | from an empty ledger some run spends more than a positive budget if and only if there is a slot and a call can cost anything |
| Usage.PriceCache.SetPricing | pkg/llm/usage.go:210-218 | a price is set in the effective and in the dynamic prices |
| Usage.PriceCache.CommitFetch | pkg/llm/usage.go:298-331 | a refresh replaces the prices: dynamic ones come first, then custom, live and built-in ones, and nothing else is left |
| Usage.SetPriceSurvives | pkg/llm/usage.go:298-331 | over every interleaving of prices set and refreshes committed, a model's effective price is the last one set for it |
| Usage.UnsetPriceIsGathered | pkg/llm/usage.go:298-331 | a model whose price was never set has the price that the last refresh gathered, and none if it gathered none |
| Interpolation.InterpolateInputs | pkg/crew/inputs.go:15-51 | the loop returns the outcome of the rescan; a rendered text has no opening pair of braces; without opening braces in values it is the outcome of the single pass |
| Interpolation.RescanIsOnePass | pkg/crew/inputs.go:15-51 | when no input value holds an opening brace the rescan ends and its text or failure is that of one pass from left to right |
| Interpolation.OnePassSucceedsIff | pkg/crew/inputs.go:12-14 | rendering succeeds exactly when the template is well formed and each placeholder has a value that is neither empty nor too long, and then gives the template with every placeholder replaced |
| Interpolation.OnePassReportsMissing | pkg/crew/inputs.go:34-49 | missing inputs are reported exactly when they are all that is wrong, each name once and none left out |
| Interpolation.LackingInOrder | pkg/crew/inputs.go:33-39 | missing names come in the order of their first use |
| Interpolation.ParseOfWrite | pkg/crew/inputs.go:22-33 | reading a template that was written from text and names gives back that text and those names |
| Interpolation.PaddedPlaceholder | pkg/crew/inputs.go:29-33 | spaces on either side of a name are not part of it |
| Interpolation.ParseOfPadded | pkg/crew/inputs.go:22-33 | reading a template gives back its pieces however its names were padded with spaces |
| Interpolation.BlankPlaceholder | pkg/crew/inputs.go:29-32 | a placeholder of nothing but spaces is an error of its own for all inputs |
| Interpolation.UnclosedPlaceholder | pkg/crew/inputs.go:25-28 | a placeholder that is not closed is an error of its own for all inputs |
| Interpolation.LongValueIsReported | pkg/crew/inputs.go:41-45 | a value of more than 20000 bytes is an error under its name |
| Interpolation.SelfReferenceNeverStops | pkg/crew/inputs.go:41-46 | a template that uses an input whose value is its own placeholder is rescanned for ever |
| NestedInputs.HaltsIffNotCircular | pkg/crew/inputs.go:15-51 | when every value is a whole template and short enough, the rescan of any template ends if and only if no chain of names from its placeholders through the values' placeholders comes back to a name |
| InputWalk.HaltsIffShallow | pkg/crew/inputs.go:15-51 | when every value is a whole template, of any length, the rescan of any template ends if and only if the depth-first walk through its names gets no deeper than there are inputs before it ends or meets a value that is too long |
| InputWalk.DeepIsEndless | pkg/crew/inputs.go:21-46 | a walk deeper than there are names that use others never comes to an end |
| NestedInputs.MutualReferenceNeverStops | pkg/crew/inputs.go:41-46 | two values that use each other keep the rescan going for ever |
| NestedInputs.NamesJoin | pkg/crew/inputs.go:22-46 | a whole value followed by text uses its own names and then those of the text, so substituting it neither makes nor breaks a placeholder of its surroundings |
| Text.TrimSpaceIs | pkg/crew/inputs.go:29-29 | trimming removes spaces, all of them and nothing else, from both ends of a name |
| Text.SpacesAre | pkg/crew/inputs.go:29-29 | the characters that count as spaces, in ASCII and beyond |
| Text.WidthIs | pkg/crew/inputs.go:43-43 | the bytes of a character in UTF-8 |
| Text.FieldsOfJoin | pkg/knowledge/splitter.go:77-93 | taking the words of joined words gives back the words |
| Text.FieldsSplit | pkg/knowledge/splitter.go:77-77 | a space, wherever it stands, separates the words before it from those after it and loses none |
| Text.JoinLength | pkg/knowledge/splitter.go:93-93 | exactly one character stands between two joined words |
| Splitter.SplitText | pkg/knowledge/splitter.go:76-104 | a short text is one chunk, and a longer one is cut into the word slices that start every size - overlap words and stop at the first that reaches the end; it panics exactly on a longer text with an overlap larger than the size |
| Splitter.ChunkWords | pkg/knowledge/splitter.go:93-93 | the words of a chunk of text are the slice it was made of |
| Splitter.HowManyChunks | pkg/knowledge/splitter.go:87-101 | there are exactly ceil((n - size) / (size - overlap)) + 1 chunks |
| Splitter.DefaultsCutThousands | pkg/knowledge/splitter.go:62-73 | with default sizes a text of n words is one chunk up to 1000 words and ceil((n - 1000) / 900) + 1 beyond |
| Splitter.Neighbours | pkg/knowledge/splitter.go:87-101 | chunks have at most size words, all but the last exactly that many, and neighbours share exactly the overlap |
| Splitter.ChunksRebuild | pkg/knowledge/splitter.go:87-101 | removing the overlaps rebuilds the words of the document |
| Splitter.FinishesIffOverlapSmaller | pkg/knowledge/splitter.go:87-101 | on a longer text the loop finishes if and only if the overlap is smaller than the size; an equal one repeats the first chunk for ever, a larger one slices from a negative index |
| Splitter.DefaultOverlapNeedsLargeChunks | pkg/knowledge/splitter.go:62-73 | with the default overlap it finishes on longer texts exactly when the chunk size is defaulted too or above 100 |
| Scope.InScopeIsAbove | pkg/memory/unified.go:429-452 | a record is in scope exactly when the scope's slash-separated segments begin the record's, the root being above all |
| Scope.SpellingsAgree | pkg/memory/unified.go:429-440 | a path of non-empty segments has those segments whether or not it is written with a slash at either end, and both spellings of the root have none |
| Scope.ScopesNest | pkg/memory/unified.go:442-452 | being in scope is transitive, and two scopes that share a record are one inside the other |
| Scope.MutualScopesAreEqual | pkg/memory/unified.go:429-452 | two scopes lie in each other exactly when they normalize to the same text |
| Scope.InMemCosineStore.DeleteScope | pkg/memory/cosine.go:92-110 | the items outside the scope are kept in order, and the count is how many went |
| Scope.ItemIsWhereItSays | pkg/memory/cosine.go:98-103 | an item belongs to the scope of its label, and without one to the root |
| Scope.ScopeIsGone | pkg/memory/cosine.go:92-110 | no item at or below the scope is left, and every other item is there as often as before |
| Scope.DeletingBelowAddsNothing | pkg/memory/cosine.go:89-110 | deleting a scope and one below it, in either order, is deleting the upper one |
| Ranking.SortScoredMemories | pkg/memory/scope.go:129-135 | the swaps in place leave the array sorted by the specification of insertion sort |
| Ranking.SortedDescends | pkg/memory/scope.go:129-135 | the result has descending scores |
| Ranking.SortedPermutes | pkg/memory/scope.go:129-135 | the result is a permutation |
| Ranking.SortedIsStable | pkg/memory/scope.go:129-135 | memories of equal score keep their order |
| Ranking.StableSortIsUnique | pkg/memory/scope.go:129-135 | no other stable descending order exists |
| Ranking.TopOfTops | pkg/memory/scope.go:94-126 | merging lists that were already trimmed to the limit gives the same scores as the top of the untrimmed union |
| Ranking.ConcatIs | pkg/memory/scope.go:97-111 | the merged results hold every list in order and nothing else |
| Ranking.MergeScopes | pkg/memory/scope.go:94-126 | the merged, sorted and trimmed list is a top of the given results, with 10 as the limit when none is asked for |
| Similarity.CauchySchwarz | pkg/memory/vector.go:15-20 | the square of the dot product is at most the product of the squared norms, for vectors of any length |
| Similarity.DotAt | pkg/memory/vector.go:16-20 | changing one coordinate changes the product by exactly its share |
| Similarity.CosineSimilarity | pkg/memory/vector.go:10-28 | the result lies between -1 and 1, is an error exactly for different lengths, is 0 when a norm is 0, times both norms gives the dot product, and is 1 or -1 for a vector and a positive or negative multiple of it that are not zero |

## Left out

- LLM provider, vector-database, Redis, SQLite and mesh clients, HTTP routing and payloads, authentication, the dashboard and the command line: no algorithm of their own.
- storeIdem and the wall-clock age limits of the ledger: a second, older way into the ledger that bypasses the reverse mapping.
- Server shutdown, its wait group and panics inside a crew: a detached run either fails or completes.
- A semaphore channel that was filled before it becomes the global one: new channels start empty.
- Task execution: an arbitrary outcome per task and round; the tasks of a crew are assumed to be distinct, as are pointers in the program.
- The other process kinds of a crew (sequential, hierarchical, reflective, consensual, state machine): their control depends on text that an LLM returns.
- Cancellation of contexts in flows, crews and waits.
- Flows.ScheduleIndependent: actions, routers and merges are functions of the state they are given, so branches that share memory behind their copied maps are not captured.
- KickoffServer.Server.PersistSessionEnd: the reason of a failure, the finish time and the write to the checkpoint store, whose failure is only logged.
- Graph.ExecuteGraph: the text that is returned, the output of the last task, since outcomes carry no text.
- Checkpoints.SuccessIsShort: for flows without parallel nodes.
- Checkpoints.ContinueFrom: for flows without parallel nodes.
- Checkpoints.Flow.ExecuteNode: the checkpoints that branches of a parallel node write themselves; those on the path of the flow are all there.
- Checkpoints.Flow.RunFlow: states are values, so that an action or a map node can write into the flow's own state in place before the run fails is not captured.
- Flows.RunMapNode: the result list is stored in a new map, where the program writes into the current one in place.
- RateLimiter.Limiter.Allow: the slices of the table are values, so that filtered and unfiltered slices share memory is shown for one slice only, in FilterInPlace; the clock is assumed not to go back in the order in which requests take the lock.
- Checkpoints.ResumeEqualsRun: for flows without parallel nodes, with every checkpoint saved at increasing times under clean ids.
- Graph.ReturnsUnfinishedIff: for outcomes without feedback; FeedbackSettlesIff is about feedback, for bounds of at least the square of the number of tasks.
- Checkpoints.CheckpointManager.Save: the size limit of a checkpoint and failures of the file system.
- Checkpoints.CheckpointManager.Load: files that are too large or cannot be read or decoded, and ids with the metacharacters of file-name patterns.
- JSON: encoding and decoding are faithful, so the change of number types by a round trip is not captured.
- TokenBucket.TokenBucketObject.constructor: a window of zero, for which the program's rate is infinite, is left out.
- TokenBucket.TokenBucketObject.TryTake: one turn of the waiting loop; rounding to nanoseconds is not captured.
- Usage.PriceCache.CommitFetch: the live prices are given; fetching, parsing and shortening model names is not modelled.
- Usage.SpendBound: the budget is fixed during a run, and a call records its cost once.
- Interpolation.InterpolateInputs: requires that the rescan ends, because on other inputs it does not return; RescanIsOnePass and HaltsIffShallow say when it does. Text that is not valid UTF-8 is not captured.
- NestedInputs.HaltsIffNotCircular: for values that are short enough and whole; HaltsIffShallow is for whole values of any length.
- InputWalk.HaltsIffShallow: for values that are whole; one that breaks off inside a placeholder or ends in an opening brace can join with the text that follows it.
- applyInputs: interpolates two fields of each task in turn.
- Splitter.SplitText: leaves out an overlap equal to the chunk size on longer texts, for which the loop never ends; SemanticSplitter has the same loop with other defaults.
- Ranking.TopOfTops: which of several memories with the same score are kept is left open, as it is where the program sorts with an unstable sort.
- Recall's scoring, deep recall, and the stores' Search, Delete and Reset: easy members around the ranking and the filter.
- Floating-point rounding and overflow: reals; CosineSimilarity takes the square root as a parameter.
