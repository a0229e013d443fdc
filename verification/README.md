# Verified models of Eylo's stateful cores

This project models the stateful and incremental parts of the Eylo platform in Dafny and proves
properties of them over whole runs. Each area has its own module or modules. An object that the
program updates in place is a class whose methods are proved equal to a function on the object's
state; the theorems are lemmas about those functions, over every input, every run or every
interleaving.

`dafny verify dfyconfig.toml` checks everything.

| files | what they model |
|---|---|
| `ReactiveStore`, `ReactiveStoreRuns`, `ReactiveStoreEffects`, `ReactiveStoreObject` | the widget's store: cached computed values repaired by recursive invalidation, changes batched until a flush |
| `PostCommitEvents` | event batches per transaction and savepoint, refined to a flat log |
| `BoundWork`, `BoundWorkHistory`, `BoundWorkProtocol`, `BoundWorkSweep` | the lifecycle of a product row, and what its history says about it; spawners, cancellers and workers interleaving over it and the engine; one spawn and the recovery sweep as steps of that protocol |
| `Transcript`, `TranscriptRuns`, `TranscriptEffects`, `TranscriptObjects`, `TranscriptWriters` | the append-only transcript of an agent run, its replay, re-emission after a crash, and writers that wait for each other |
| `Invitation`, `InvitationProtocol` | invitation exchange between browsers and the server over a lossy network |
| `SchemaResolver` | reference and allOf resolution of OpenAPI schemas |
| `EgressPath` | the path policy of outbound HTTP |
| `Heartbeat` | the claim heartbeat around a durable operation |
| `AudioBuffers`, `Resample` | chunk queue, capped frame buffer, noise loop, resampling kernels, byte carry |
| `TabElection` | the election among tabs that copied one user session |
| `Compaction` | the cursor of context compaction |
| `Luhn` | the mod-10 check |
| `Basics` | what several models share |

## What turned out not to hold as promised

Each of these comes with the condition under which it holds, and mostly with an input that breaks it. The condition
is exact unless said otherwise.

- Store invalidation stops at recursion depth 100. Chains that fit are repaired on every graph
  (`SetKeepsCoherent`); the guard turns away a key with readers exactly when they do not fit (`GuardDropsExactly`),
  and until then it changes nothing (`UndroppedMeansUnlimited`). For coherence that condition is one way, since a
  shorter path may repair the same readers; on a single chain it is exact: 101 links are repaired, 102 are left
  stale (`ChainLimit`).
- A canceller or spawner that crashes after its commit and before its engine call strands the cancel,
  and no later cancel or sweep repairs it (`CancelOwedUnlessAllCrashed`, `CrashStrandsTheCancel`,
  `StrandedForGood`).
- A row's attempts can pass its budget, since beginning an attempt does not consult it; only recorded
  retries are bounded (`AttemptsUnbounded`, `LifecycleInvariant`). A run stays within the budget if and only if
  no attempt was begun on a bound, open row without budget left (`AttemptsWithinBudget`).
- Renewal latencies below two thirds of the lease do not always exclude two running workers. With latencies up
  to L, an interval I and a lease T they are excluded in every run if and only if 2L + I <= T, or L + I <= T when
  a renewal takes effect as its call returns (`ExcludedExactly`). With an interval of a third of the lease that
  is one third, or two thirds (`ThirdsAreExact`); `LongGapOverlaps` is the run that fails.
- A route prefix with a final slash does not admit the same path without it (`AllowsPathIsSegmentPrefix`,
  `TrailingSlashIsStricter`).
- A buffer capped at zero keeps an odd number of bytes (`CapIsKept`); a noise frame longer than the loop
  can come out short (`FrameIsLooped`).
- An older tab can take a session too late. When every probe posted since then hears its claim, and all have probed,
  it is the only holder if and only if no other holder had already probed at that time, and none ended unheard a
  probe it had posted before (`ExactlyOneHolderRemains`; `LateOlderTabLeavesTwoHolders` and
  `OpenProbeLeavesTwoHolders` break one condition each).
- A tab does not always get back what its invitation was consumed for. Its request is granted if and only if it could
  read a stored entry that names the consuming request, and the session still lives (`RetryGrantedExactly`); after a
  foreign response has dropped the entry it is refused (`DroppedEntryIsRefused`).
- A message stored later but positioned at or before the newest boundary never reaches the context
  (`EarlierPositionsAreSwallowed`).

## Assumptions

- Store: a computed function is pure and sees its declared dependencies only; deep equality is equality
  of values; listeners do not call back into the store while it flushes. `Admissible` says what a caller
  must see to: computed dependencies are registered before their readers, and chains fit the depth limit.
- Transactions: a database transaction is one atomic step; savepoints nest; the session ends open
  savepoints innermost first.
- Engine: spawning is idempotent per key; nothing else is assumed of it.
- Digests (transcript correlation, invitation token) are injective.
- Resampling positions are exact rationals instead of 64-bit floats.
- A browser's generated request id is new; lengths of tokens are counted in characters.
- Clocks, randomness, the network and database errors are parameters or steps of the environment.

## Model

| member | source | states |
|---|---|---|
| ReactiveStoreRuns.CachedEqualsFromScratch | widget/src/base/BaseReactiveStore.ts:81-206 | after any admissible run of sets, registrations, flushes and destroys, reading any key gives what evaluating it with no cache gives, for every dependency graph |
| ReactiveStore.InvalidateRepairs | widget/src/base/BaseReactiveStore.ts:180-206 | invalidating a key settles every entry that reads it and unsettles none that was settled, although entries are recomputed several times and through stale values |
| ReactiveStore.InvalidateFirstRepairs | widget/src/base/BaseReactiveStore.ts:202-204 | the nested invalidations repair together what each repairs |
| ReactiveStore.RecomputeFirstSettles | widget/src/base/BaseReactiveStore.ts:185-201 | midway through the loop only later dependents, and readers of recomputed entries, may lag |
| ReactiveStore.SetKeepsCoherent | widget/src/base/BaseReactiveStore.ts:82-112 | setting a key of a coherent store leaves it coherent when no chain of its readers exceeds the depth limit |
| ReactiveStore.RegisterKeepsCoherent | widget/src/base/BaseReactiveStore.ts:144-177 | registering a computed key after its dependencies, and before its readers, keeps the store coherent |
| ReactiveStore.CoherentMeansFromScratch | widget/src/base/BaseReactiveStore.ts:114-124 | a coherent store reads every key as a from-scratch evaluation does |
| ReactiveStoreRuns.ChainLimit | widget/src/base/BaseReactiveStore.ts:180-184 | on a single chain of copies, setting its head leaves the store coherent if and only if the chain has at most 101 links |
| ReactiveStoreRuns.GuardDropsExactly | widget/src/base/BaseReactiveStore.ts:180-204 | on any graph the depth guard turns away a key that has readers if and only if some chain of readers does not fit the limit |
| ReactiveStoreRuns.UndroppedMeansUnlimited | widget/src/base/BaseReactiveStore.ts:180-206 | when the guard turns away no such key, setting a key leaves the store that any higher limit would leave |
| ReactiveStoreRuns.ChainInvalidate | widget/src/base/BaseReactiveStore.ts:180-206 | invalidation carries a value along a chain up to key 101 and no further |
| ReactiveStoreRuns.MirrorEqualsStoreAfterFlush | widget/src/base/BaseReactiveStore.ts:180-228 | a copy that applies each notification equals the store after every flush; a flush notifies a key at most once, with its final value |
| ReactiveStoreRuns.RunKeepsMirror | widget/src/base/BaseReactiveStore.ts:82-228 | in every run the mirror is the store up to the updates still pending, and pending updates always have a flush scheduled |
| ReactiveStoreRuns.PutIsLastWord | widget/src/base/BaseReactiveStore.ts:105-109 | replacing a pending entry in place makes its value the last word on its key |
| ReactiveStoreEffects.PutKeepsPlace | widget/src/base/BaseReactiveStore.ts:105-109 | an update of a key that already waits takes its place, another goes to the end |
| ReactiveStoreEffects.SetStores | widget/src/base/BaseReactiveStore.ts:82-112 | a set stores the value it was given and leaves every other key alone; a computed key and a destroyed store cannot be set |
| ReactiveStoreEffects.LastSetIsRead | widget/src/base/BaseReactiveStore.ts:82-177 | over every run a plain key holds the last value set for it, followed key by key with no cache and no other key |
| ReactiveStoreEffects.RegisterTakesEffect | widget/src/base/BaseReactiveStore.ts:144-177 | a new key is added with its function's value on what can be read then; a key that is taken keeps what it has |
| ReactiveStoreEffects.UnchangedIsNotNotified | widget/src/base/BaseReactiveStore.ts:189-200 | listeners of a computed key whose value never changes hear nothing in any run, however often it is recomputed |
| ReactiveStoreEffects.FlushLeavesNothing | widget/src/base/BaseReactiveStore.ts:220-228 | after a flush nothing waits and none is scheduled, so a second one sends nothing |
| ReactiveStoreEffects.DestroyedIsSilent | widget/src/base/BaseReactiveStore.ts:260-267 | a destroyed store keeps its values for good and never notifies again |
| ReactiveStoreObject.BaseReactiveStore.Set | widget/src/base/BaseReactiveStore.ts:82-112 | the method with its early returns and nested invalidation leaves the store SetKey describes |
| ReactiveStoreObject.BaseReactiveStore.InvalidateDependent | widget/src/base/BaseReactiveStore.ts:180-206 | the two loops and the recursion leave the store Invalidate describes |
| ReactiveStoreObject.BaseReactiveStore.Getter | widget/src/base/BaseReactiveStore.ts:165-175 | a cached value is returned unchanged, a missing one is computed from the current values and kept |
| ReactiveStoreObject.BaseReactiveStore.Get | widget/src/base/BaseReactiveStore.ts:114-124 | in a well-shaped store reading changes nothing and gives the cached or the state value |
| ReactiveStoreObject.BaseReactiveStore.RegisterComputed | widget/src/base/BaseReactiveStore.ts:144-177 | an existing key is refused; otherwise the entry is added and its first value cached |
| ReactiveStoreObject.BaseReactiveStore.FlushPending | widget/src/base/BaseReactiveStore.ts:220-228 | all pending updates are sent in order and cleared |
| ReactiveStoreObject.BaseReactiveStore.FlushIfScheduled | widget/src/base/BaseReactiveStore.ts:281-286 | nothing is sent unless a flush is scheduled |
| PostCommitEvents.StepRefines | server/eylo/common/database.py:119-163 | every step of the batch map is the same step of a flat log that rollback truncates |
| PostCommitEvents.RootCommitEmits | server/eylo/common/database.py:127-136 | a root commit emits, in registration order, exactly the events whose every enclosing savepoint committed since the last root boundary |
| PostCommitEvents.EmittedExactlyPublished | server/eylo/common/database.py:110-152 | over a whole run an event is emitted once, and if and only if its own fate is to be published |
| PostCommitEvents.CommitRefines | server/eylo/common/database.py:127-136 | a commit merges the scope into its parent, or emits at the root, as the log does |
| PostCommitEvents.RollbackRefines | server/eylo/common/database.py:138-145 | ending a scope without commit drops its batch and those below it, as truncating the log does |
| PostCommitEvents.BlockEmits | server/eylo/common/database.py:177-203 | a block that raises emits only what its body had committed itself; one that ends normally also emits what is still held; no batch is left |
| PostCommitEvents.CommitToRoot | server/eylo/common/database.py:190-191 | committing through every open savepoint emits exactly the log |
| PostCommitEvents.RollbackToRoot | server/eylo/common/database.py:192-194 | rolling back to the root emits nothing |
| PostCommitEvents.SessionEvents.RegisterAfterCommit | server/eylo/common/database.py:119-125 | the event joins the batch of the innermost open scope, beginning a transaction if there is none |
| PostCommitEvents.SessionEvents.CommitListener | server/eylo/common/database.py:127-136 | the batch moves to the parent, or is emitted and all batches are cleared |
| PostCommitEvents.SessionEvents.EndListener | server/eylo/common/database.py:138-145 | exactly the batches of scopes inside the ended one are deleted |
| PostCommitEvents.SessionEvents.DescendsFrom | server/eylo/common/database.py:155-163 | the parent walk decides whether a scope lies inside another |
| BoundWorkProtocol.OneTaskForever | server/eylo/absurd_work/binding.py:32-76 | under every interleaving a bound row keeps its one task, and it is the one the engine holds for its key |
| BoundWorkProtocol.BindingNeverMeetsAnotherTask | server/eylo/absurd_work/service.py:97-121 | no spawner is ever told that the row is bound to another task |
| BoundWorkProtocol.CancelOwedUnlessAllCrashed | server/eylo/absurd_work/binding.py:63-73 | a cancelled, bound row always has a process that came to owe the engine cancel; the cancel is delivered or owed by a live process if and only if not all of these crashed |
| BoundWorkProtocol.OnlyCancelledWorkIsStopped | server/eylo/absurd_work/binding.py:114-132 | the engine is told to cancel a task only if its row is cancelled and bound to it |
| BoundWorkProtocol.CancelTakesEffect | server/eylo/absurd_work/binding.py:114-132 | a cancel leaves the row terminal, an open one cancelled at that time, and whoever cancelled a bound one owes the engine's cancel |
| BoundWorkProtocol.CrashStrandsTheCancel | server/eylo/absurd_work/binding.py:121-131 | a crash between the canceller's commit and its engine call leaves a cancelled row whose task runs on |
| BoundWorkProtocol.StrandedForGood | server/eylo/absurd_work/binding.py:114-132 | no later spawn, sweep, cancel or worker step delivers a stranded cancel |
| BoundWorkProtocol.NextKeepsInvariant | server/eylo/absurd_work/binding.py:32-132 | each step of each process keeps the agreement between row, engine, processes and debts |
| BoundWorkSweep.SpawnBound | server/eylo/absurd_work/binding.py:32-76 | one spawn, with other processes acting between its steps: a returned task is the one the row is bound to and no cancel is owed; a conflict is raised if and only if the row was cancelled unbound; other errors need a fault, and a failed cancel is lost |
| BoundWorkSweep.SpawnUnbound | server/eylo/absurd_work/binding.py:79-111 | the sweep performs such a spawn for every scanned row, counts exactly those that end bound, passes over those cancelled first, and reports the other failures in order |
| BoundWorkSweep.BindingBinds | server/eylo/absurd_work/binding.py:63-73 | a process with an engine task in hand always gets the row bound to it, and owes a cancel if and only if the row is cancelled |
| BoundWork.LifecycleInvariant | server/eylo/absurd_work/service.py:70-199 | over every run: the finish time is set exactly in terminal states; running, succeeded and failed rows are bound; the projection runs at most once and only into success; recorded retries stay below the budget |
| BoundWork.SettledForGood | server/eylo/absurd_work/service.py:70-199 | a terminal outcome never changes, except that a cancelled row may still be bound; a binding and the time of the first attempt never change |
| BoundWorkHistory.OpenUntilEnded | server/eylo/absurd_work/service.py:123-199 | over every run a row is open exactly as long as no cancel, success or final failure has ended it |
| BoundWorkHistory.FirstEndDecides | server/eylo/absurd_work/service.py:123-199 | the first of these decides state, finish time, error and result for good; so a row is cancelled if and only if a cancel came first |
| BoundWorkHistory.EndedRowWasDecided | server/eylo/absurd_work/service.py:123-199 | every row that is not open was ended by such an operation |
| BoundWorkHistory.FirstBindingWins | server/eylo/absurd_work/service.py:97-121 | a row is bound to the first task anyone binds to it |
| BoundWorkHistory.AttemptsAreCounted | server/eylo/absurd_work/service.py:70-95 | the row counts every attempt begun while it was bound and open, and keeps the time of the first |
| BoundWorkHistory.RunningExactly | server/eylo/absurd_work/service.py:70-181 | an open row is running from the beginning of an attempt until the attempt ends or is put back |
| BoundWorkHistory.RepliesTellEffects | server/eylo/absurd_work/service.py:70-199 | each reply says what has become of the row, and each refusal why it changed nothing |
| BoundWork.RetriedExactly | server/eylo/absurd_work/service.py:153-181 | a failure returns a row to pending if and only if it is a running row's retryable failure within the budget; the error is recorded either way |
| BoundWork.AttemptsUnbounded | server/eylo/absurd_work/service.py:70-95 | beginning attempts never stops at the budget |
| BoundWork.AttemptsWithinBudget | server/eylo/absurd_work/service.py:70-95 | a run stays within its budget if and only if every attempt was begun with budget left, or on a terminal or unbound row |
| BoundWork.WorkRow.Begin | server/eylo/absurd_work/service.py:70-95 | the row becomes running with one more attempt, unless terminal or unbound |
| BoundWork.WorkRow.Bind | server/eylo/absurd_work/service.py:97-121 | binds once, only pending or cancelled rows, and reports a pending cancellation |
| BoundWork.WorkRow.RecordSuccess | server/eylo/absurd_work/service.py:123-151 | only a running row succeeds; a raising projection leaves the row as it was |
| BoundWork.WorkRow.RecordFailure | server/eylo/absurd_work/service.py:153-181 | a running row fails when terminal or out of budget, and otherwise returns to pending |
| BoundWork.WorkRow.RecordCancel | server/eylo/absurd_work/service.py:183-199 | a non-terminal row is cancelled and its task reported |
| TranscriptRuns.ReplayNeverFails | server/eylo/pipelines/agent_run_transcript.py:128-181 | after any run, with crashes anywhere, the committed rows are numbered 1..n, one per identity, each result after its call, and replay raises no error |
| TranscriptRuns.ReplaySplits | server/eylo/pipelines/agent_run_transcript.py:148-181 | replay splits the rows, in order, into the calls without a result and one message for every other row |
| TranscriptRuns.CallsAreFollowedByResults | server/eylo/pipelines/agent_run_transcript.py:161-170 | every replayed call message is followed by the message with its result |
| TranscriptRuns.IdentityNeverChanges | server/eylo/pipelines/agent_run_transcript.py:172-176 | a call keeps the command identity it was first committed with, across crashes and replays, and every bridge knows it by that one |
| TranscriptRuns.ReemissionAppendsNothing | server/eylo/pipelines/agent_run_transcript.py:352-428 | re-emitting the pending calls through the model wrapper and the bridge changes no row |
| TranscriptRuns.PausedCallStaysPending | server/eylo/pipelines/agent_run_transcript.py:209-225 | a committed call that only pauses is still among the pending calls of any later replay |
| TranscriptRuns.SecondResult | server/eylo/pipelines/agent_run_transcript.py:293-311 | a second, different result of a call is refused, and the same one again adds nothing |
| TranscriptRuns.StepKeeps | server/eylo/pipelines/agent_run_transcript.py:264-335 | every step keeps the transcript sound and never removes or changes a committed row |
| TranscriptRuns.RestartKeeps | server/eylo/pipelines/agent_run_transcript.py:128-181 | a restart from committed rows replays without error and rebuilds a bridge that knows every pending call |
| TranscriptRuns.CommandIdsAre | server/eylo/pipelines/agent_run_transcript.py:172-176 | the command identities are exactly the ids of the call rows |
| Transcript.AppendKeepsSound | server/eylo/pipelines/agent_run_transcript.py:264-335 | an append keeps all rows, adds at most one with the next number, and returns a row with its payload |
| Transcript.AppendSucceedsExactly | server/eylo/pipelines/agent_run_transcript.py:264-335 | an append succeeds if and only if the payload is admitted, a result's call is on record, and no row of its identity holds anything else |
| TranscriptWriters.WritersKeepOneRowPerIdentity | server/eylo/pipelines/agent_run_transcript.py:279-335 | with any number of writers, each waiting for the row lock, every interleaving of appends, commits and aborts leaves one committed row per identity, numbered 1..n |
| TranscriptWriters.RetryFindsCommittedRow | server/eylo/pipelines/agent_run_transcript.py:279-311 | what one writer committed, a retry by any other finds instead of inserting it again |
| TranscriptWriters.CommittedRowIsSeen | server/eylo/pipelines/agent_run_transcript.py:279-335 | a writer that need not wait gets its append made, and its commit shows the row to all and frees the lock |
| TranscriptWriters.LookupWithoutLockDuplicates | server/eylo/pipelines/agent_run_transcript.py:279-283 | without the lock two writers that look before either commits insert the identity twice |
| TranscriptRuns.RecordResponseAdvances | server/eylo/pipelines/agent_run_transcript.py:183-207 | a recorded response is committed and its identities are those of the rows; a refused one commits nothing |
| TranscriptEffects.ResponseRecordedExactly | server/eylo/pipelines/agent_run_transcript.py:183-207 | a response is recorded if and only if all it asks for is admitted and contradicts neither the transcript nor itself; then its text and every call are committed, in order and once, nothing else is, and the identities returned are those of its calls |
| TranscriptRuns.RecordResultAdvances | server/eylo/pipelines/agent_run_transcript.py:209-225 | a result is committed, a pause or an error changes nothing, and no other call is resolved |
| TranscriptEffects.ResultRecordedExactly | server/eylo/pipelines/agent_run_transcript.py:209-225 | a result is recorded if and only if it names its call, has none of the four pause flags and can be appended |
| TranscriptEffects.TurnIsRemembered | server/eylo/pipelines/agent_run_transcript.py:352-366 | after a turn that could be recorded the bridge knows every call by the identity of its committed row; another turn changes nothing |
| TranscriptEffects.NewCallsExactly | server/eylo/pipelines/agent_run_transcript.py:359-361 | exactly the calls of unknown identity are recorded |
| TranscriptEffects.DoneCallIsResolved | server/eylo/pipelines/agent_run_transcript.py:209-225 | a tool that is done is resolved through any later run, and no restart re-emits its call |
| TranscriptEffects.RestartReemits | server/eylo/pipelines/agent_run_transcript.py:128-181 | after a restart exactly the committed calls without a result wait to be re-emitted, each with its identity |
| TranscriptEffects.ReplayFailsExactly | server/eylo/pipelines/agent_run_transcript.py:128-160 | replay fails if and only if a result has no call or a row does not decode |
| TranscriptObjects.AgentRunTranscript.AppendRow | server/eylo/pipelines/agent_run_transcript.py:264-335 | the checks in order, the idempotent lookup and the insert |
| TranscriptObjects.AgentRunTranscript.RecordResponse | server/eylo/pipelines/agent_run_transcript.py:183-207 | text, then each call, then one commit; an error stops before the commit |
| TranscriptObjects.AgentRunTranscript.RecordResult | server/eylo/pipelines/agent_run_transcript.py:209-225 | a foreign result is refused, a pause records nothing, another result is appended and committed |
| TranscriptObjects.PendingToolCallsModel.Generate | server/eylo/pipelines/agent_run_transcript.py:408-428 | pending calls are re-emitted once, then the delegate answers |
| TranscriptObjects.AgentRunTranscriptBridge.AfterResponse | server/eylo/pipelines/agent_run_transcript.py:352-366 | only calls without a known identity are recorded, and their identities are added |
| TranscriptObjects.AgentRunTranscriptBridge.Turn | server/eylo/pipelines/agent_run_transcript.py:352-428 | a model turn through wrapper and bridge is a step of the run model |
| TranscriptObjects.AgentRunTranscriptBridge.AfterToolResult | server/eylo/pipelines/agent_run_transcript.py:385-391 | a finished tool call is a step of the run model |
| InvitationProtocol.OneSessionPerInvitation | server/eylo/pipelines/widget_invitations.py:128-243 | whatever is lost, repeated or reloaded, an invitation has at most one session and one conversation, and all granted replies are the same reply to the same request |
| InvitationProtocol.GrantsAreFinal | server/eylo/pipelines/widget_invitations.py:139-142 | once granted, no later run grants the invitation to another request or names another session |
| InvitationProtocol.GrantedExactly | server/eylo/pipelines/widget_invitations.py:128-243 | an exchange is granted if and only if it is the first of a live invitation, or the consuming request repeated while its session lives; what is granted exists and belongs to the invitation; a refusal or replay changes nothing |
| InvitationProtocol.IdentityNamesOneInvitation | widget/preact-ui/src/invitation-session.ts:36-53 | in every run a request identity is only ever sent for one invitation |
| InvitationProtocol.RetryRecoversLostReply | widget/preact-ui/src/invitation-session.ts:48-88 | a tab that stored its request and heard no response retries with that request, and is granted the very session the lost reply named |
| InvitationProtocol.EntryKept | widget/preact-ui/src/invitation-session.ts:48-64 | network failures, reloads and retries leave the stored pending exchange in place |
| InvitationProtocol.SendStores | widget/preact-ui/src/invitation-session.ts:36-53 | a page with a fitting token sends it, and stores what it sends if storage accepts it |
| InvitationProtocol.UnfitIsNotSent | widget/preact-ui/src/invitation-session.ts:36-47 | without a token nothing is sent; a token of the wrong length is dropped from the URL unsent |
| InvitationProtocol.StoredRequestIsAskedAgain | widget/preact-ui/src/invitation-session.ts:48-64 | after network failures and reloads the page asks again with the very request it stored |
| InvitationProtocol.ResponsesEnd | widget/preact-ui/src/invitation-session.ts:60-88 | any response ends the exchange and drops token and entry, a grant is kept as the session, and a network failure keeps all |
| InvitationProtocol.RetryGrantedExactly | widget/preact-ui/src/invitation-session.ts:48-88 | whenever a tab's request for a consumed invitation is delivered, it is granted the session and conversation of the consumption if and only if the tab could read an entry that names the consuming request, and the session still lives |
| InvitationProtocol.DroppedEntryIsRefused | widget/preact-ui/src/invitation-session.ts:66-83 | a response that makes the page drop its entry leaves it with a new identity that the consumed invitation refuses |
| InvitationProtocol.ExchangeSound | server/eylo/pipelines/widget_invitations.py:128-243 | an exchange keeps sessions and conversations tied one to one to consumed invitations, and never changes a consumption |
| Invitation.InvitationServer.ExchangeInvitation | server/eylo/pipelines/widget_invitations.py:128-243 | the transaction: replay for the consuming request, refusal for any other, otherwise session, conversation and consumption together |
| Invitation.WidgetPage.BeginExchange | widget/preact-ui/src/invitation-session.ts:36-53 | a token of the wrong length is refused; the stored request id is reused for the same token only, and stored before the request is sent if storage accepts it |
| Invitation.WidgetPage.FinishExchange | widget/preact-ui/src/invitation-session.ts:55-88 | a network failure keeps the entry and the URL; any response drops the URL's token, and the entry if storage allows |
| SchemaResolver.RaisesExactlyOnCycles | cli/api_cli.py:558-586 | resolution raises if and only if a cycle of local references is reachable through references and allOf parts |
| SchemaResolver.RequiredIsLeavesInOrder | cli/api_cli.py:578-586 | otherwise the required list joins the leaves' lists in reading order, and later leaves override properties |
| SchemaResolver.RaisesThroughDirect | cli/api_cli.py:566-586 | a schema raises if and only if one of the references it leads to directly is already seen or raises |
| SchemaResolver.ReferenceStandsForTarget | cli/api_cli.py:566-577 | a local reference stands for the document's schema of that name, or for an empty one |
| SchemaResolver.ResolvesToLeaves | cli/api_cli.py:558-586 | with any set of references already seen, a result carries the leaves' required lists and properties |
| SchemaResolver.FollowingShrinksUnseen | cli/api_cli.py:570-577 | following a reference the document defines uses it up, so resolution ends on every document |
| SchemaResolver.ResolveSchema | cli/api_cli.py:558-586 | the recursive loop with its accumulators returns what Resolve says |
| EgressPath.AcceptedExactly | server/eylo/common/http_egress.py:485-503 | a path is accepted if and only if it is rooted, its decoded form has no backslash, decoding commutes with splitting, and the decoded form is a fixed point of dot-segment removal |
| EgressPath.RefusedExactly | server/eylo/common/http_egress.py:485-503 | each refusal names its first reason: the form of the path, then an encoded separator, then a dot segment |
| EgressPath.DecodingCommutesIff | server/eylo/common/http_egress.py:491-497 | decoding commutes with splitting on a slash if and only if no slash is percent-encoded |
| EgressPath.FixedPointOfDotRemoval | server/eylo/common/http_egress.py:498-502 | dot-segment removal (section 5.2.4 of RFC 3986) leaves a rooted path alone if and only if no segment is a dot segment |
| EgressPath.EncodedSlashIsRefused | server/eylo/common/http_egress.py:491-496 | the lower-cased search finds exactly the encoded slashes |
| EgressPath.AllowsPathIsSegmentPrefix | server/eylo/common/http_egress.py:216-222 | a route admits a path if and only if its segments, without a final empty one, lead the path's, and the prefix is not the path with a slash added |
| EgressPath.TrailingSlashIsStricter | server/eylo/common/http_egress.py:221-222 | "/a/" does not admit "/a", though its segments lead |
| EgressPath.NormalisedTargetStaysInSubtree | server/eylo/common/http_egress.py:216-222 | after decoding and dot removal an admitted path is still below the decoded route |
| EgressPath.TargetsInReach | server/eylo/common/http_egress.py:247-260 | a target passes if and only if its path is accepted and a route in reach, of its origin, holds it in its subtree |
| Heartbeat.RunWithHeartbeat | server/eylo/durable_runtime.py:418-451 | the loop, which always makes a first call, leaves the trace that Beats describes; non-positive values are refused |
| Heartbeat.RunsAreSound | server/eylo/durable_runtime.py:418-451 | in every run calls follow one another by exactly the interval or the operation's end; a failed renewal stops the operation and loses the claim, and otherwise its error, or its result validated by a renewal begun after its end, is handed back |
| Heartbeat.ResultIsFenced | server/eylo/durable_runtime.py:439-444 | a returned result has a successful renewal that began after the operation finished; any failed renewal means no result |
| Heartbeat.NoConcurrentExecution | server/eylo/durable_runtime.py:418-451 | if each renewal comes before the last runs out, a lease that another worker can claim belongs to a stopped operation |
| Heartbeat.NoTwoWorkersAtOnce | server/eylo/durable_runtime.py:191-217 | with the platform's interval, two running workers are excluded in every run if and only if the longest gap fits the lease; from three seconds on, latencies up to a third of it (two thirds when effective at return) suffice |
| Heartbeat.ExcludedExactly | server/eylo/durable_runtime.py:429-444 | for every latency bound L, interval I and lease T, all runs exclude two running workers if and only if 2L + I <= T, or L + I <= T when renewals take effect at return |
| Heartbeat.ThirdsAreExact | server/eylo/durable_runtime.py:429-444 | with an interval of a third of the lease, the exact latency bound is one third, or two thirds when renewals take effect at return |
| Heartbeat.LongGapOverlaps | server/eylo/durable_runtime.py:429-451 | for every latency past the bound, a run of the loop whose operation is still running when the lease has run out |
| Heartbeat.GapBetweenRenewals | server/eylo/durable_runtime.py:430-438 | successive renewals start at most one interval and one latency apart |
| Heartbeat.IntervalWithinAThird | server/eylo/durable_runtime.py:201-207 | the interval is at most a third of the lease if and only if the lease is at least three seconds |
| Heartbeat.IntervalIsLongest | server/eylo/durable_runtime.py:201-207 | no longer interval stays within both the platform's and a third of the lease |
| AudioBuffers.AudioChunkBuffer.Read | server/eylo/audio/ops.py:160-190 | n bytes from the front, or nothing and no change; turns of the loop plus chunks held never exceed writes plus successful reads |
| AudioBuffers.AudioChunkBuffer.Write | server/eylo/audio/ops.py:147-151 | appends the bytes |
| AudioBuffers.AudioBuffer.Write | server/eylo/audio/ops.py:515-533 | appends, then discards an even number of the oldest bytes when over the cap |
| AudioBuffers.AudioBuffer.ReadFrames | server/eylo/audio/ops.py:537-549 | whole frames in order, the bytes kept in order, and exactly the leftover of less than a frame that the run model keeps |
| AudioBuffers.AudioBuffer.ReadAll | server/eylo/audio/ops.py:551-559 | hands out everything, or nothing when empty |
| AudioBuffers.NewestSuffixKept | server/eylo/audio/ops.py:515-574 | over every run of writes, reads and clears the buffer is a newest suffix of what was written, within its cap, and what it dropped is an even number of bytes |
| AudioBuffers.CapIsKept | server/eylo/audio/ops.py:527-533 | a write ends within the cap if and only if the cap holds a sample or the bytes are whole samples |
| AudioBuffers.AudioMixer.NextFrame | server/eylo/audio/ops.py:643-671 | silence when off; otherwise the slices from the current position, which moves on round the loop |
| AudioBuffers.FrameIsLooped | server/eylo/audio/ops.py:660-671 | a frame has the length asked for if and only if it passes the loop's end at most once, and then it is the loop from the current position |
| AudioBuffers.FramesAreSeamless | server/eylo/audio/ops.py:660-671 | successive frames are one stretch of the endless loop |
| Resample.MonoResample | server/eylo/audio/downsampler.py:360-388 | each output is the interpolation of its exact source position, with every index in range |
| Resample.StereoResample | server/eylo/audio/downsampler.py:306-344 | each output is that of the mono kernel on the mixed-down pairs |
| Resample.IndexInRange | server/eylo/audio/downsampler.py:369-381 | every source position lies inside the input, and one with a fraction has a next sample |
| Resample.MonoSampleBetweenNeighbours | server/eylo/audio/downsampler.py:379-386 | each output lies between two neighbouring inputs |
| Resample.MonoSampleIsAccurate | server/eylo/audio/downsampler.py:369-386 | each output is within one unit of the straight line between its neighbours at its exact source position |
| Resample.NegationCommutes | server/eylo/audio/downsampler.py:369-386 | rounding favours no direction: a negated signal gives the negated output |
| Resample.InputsReappear | server/eylo/audio/downsampler.py:369-386 | stretching by a whole factor keeps every input in its place, and an unchanged length changes nothing |
| Resample.MonoSampleIsPcm16 | server/eylo/audio/downsampler.py:381-386 | so the conversion to 16 bits never wraps |
| Resample.EndsPreserved | server/eylo/audio/downsampler.py:371-386 | the first and last outputs are the first and last inputs when there is more than one output |
| Resample.MonoSampleMonotone | server/eylo/audio/downsampler.py:360-388 | a non-decreasing input gives a non-decreasing output, for all lengths |
| Resample.MixIsPcm16 | server/eylo/audio/downsampler.py:325-336 | mixing two 16-bit channels stays in 16 bits |
| Resample.MixIsMean | server/eylo/audio/downsampler.py:299-336 | each mixed sample is the mean of its pair, at most half a unit below |
| Resample.ChannelsAreEqual | server/eylo/audio/downsampler.py:289-344 | exchanging the channels changes no output of the stereo kernels |
| Resample.SameChannelsAreMono | server/eylo/audio/downsampler.py:289-344 | a signal equal on both channels goes through the stereo kernels as through the mono ones |
| Resample.MonoDecimate | server/eylo/audio/downsampler.py:348-358 | every factor-th sample, in range |
| Resample.StereoDecimate | server/eylo/audio/downsampler.py:289-304 | every factor-th mixed pair, in range |
| Resample.DecimationUndoesStretching | server/eylo/audio/downsampler.py:348-388 | decimation takes back what stretching by the same whole factor added |
| Resample.DecimationComposes | server/eylo/audio/downsampler.py:348-358 | decimating twice is decimating by the product |
| Resample.SampleOfBytes | server/eylo/audio/downsampler.py:136-165 | a sample is the one 16-bit number that its two bytes spell, the low one first |
| Resample.SampleReader.Take | server/eylo/audio/downsampler.py:136-165 | complete samples now, an odd byte carried to the next call |
| Resample.ChunkingDoesNotMatter | server/eylo/audio/downsampler.py:136-165 | however the bytes are cut into chunks, the samples are those of the whole stream and at most one byte is held back |
| TabElection.OldestNeverReleases | widget/src/net/store.ts:159-199 | whatever the delays, a probe never takes the session from the oldest tab that ever held it |
| TabElection.HolderClaims | widget/src/net/store.ts:137-154 | a holder that another tab's probe reaches posts its claim, whatever it is doing itself |
| TabElection.ClaimIsHeard | widget/src/net/store.ts:168-180 | a claim that reaches the tab whose probe it answers is heard, and counts if it is an older tab's |
| TabElection.RoundTripReleases | widget/src/net/store.ts:137-199 | when a probe reaches an older holder and its claim the prober, the end of the probe takes the session |
| TabElection.DeliveriesElectTheOldest | widget/src/net/store.ts:130-199 | if every probe is delivered to the oldest holder and its claim back in time, the holders are it and the tabs still waiting for their turn |
| TabElection.HoldersAreOldestAndWaiting | widget/src/net/store.ts:130-199 | from any reachable state in which the oldest tab holds the session, while others join and probe any number of times and its claims arrive in time, the holders are exactly it and the tabs that have not ended a probe since |
| TabElection.ExactlyOneHolderRemains | widget/src/net/store.ts:130-199 | over the whole life of tabs that probe once each, when the probes posted since the oldest took the session hear its claim in time, holders stay and all have probed: it is the only holder if and only if no other had already probed at that time and none ended unheard a probe posted before |
| TabElection.OneHolderIfAllHear | widget/src/net/store.ts:130-199 | if the probes open at that time hear its claim as well, the first of these conditions decides |
| TabElection.OpenProbeLeavesTwoHolders | widget/src/net/store.ts:159-199 | a probe that was open when an older tab took the session leaves both holding it, though no claim is late |
| TabElection.LateOlderTabLeavesTwoHolders | widget/src/net/store.ts:159-199 | an older tab that restores the session after a younger has probed leaves both holding it |
| TabElection.StepKeeps | widget/src/net/store.ts:130-199 | every claim in the channel comes from a tab that held the session, and a probe's flag is set by, and only by, an older one |
| TabElection.ConnectionTab.OnProbe | widget/src/net/store.ts:137-154 | a holder, and only a holder, of the probed session claims it |
| TabElection.ConnectionTab.OnClaim | widget/src/net/store.ts:168-180 | only a claim for this probe and session, from an older tab, raises the flag |
| TabElection.ConnectionTab.StartProbe | widget/src/net/store.ts:160-188 | a tab with a session probes for it |
| TabElection.ConnectionTab.EndProbe | widget/src/net/store.ts:192-198 | the session is dropped if and only if an older tab claimed it and it has not changed |
| Compaction.UncompactedFollowsTheCut | server/eylo/common/context_compaction.py:68-107 | over every run of appends and valid summaries the uncompacted messages are the conversation past the newest summary's boundary |
| Compaction.UncompactedIsTheRest | server/eylo/common/context_compaction.py:94-107 | with the part up to the boundary the uncompacted messages give the whole conversation, in order and once; without a valid newest summary they are all of it |
| Compaction.UncompactedExactly | server/eylo/common/context_compaction.py:94-107 | the uncompacted messages are, in ascending order, exactly the conversational ones past the boundary of a valid newest summary, or all of them |
| Compaction.CursorExactly | server/eylo/common/context_compaction.py:56-91 | a cursor is the newest summary of all, valid if and only if its metadata names an earlier conversational message and the time that message has |
| Compaction.ContextExactly | server/eylo/common/context_compaction.py:110-116 | the context is led by a valid newest summary and goes on with what it did not replace; without one it is the conversation |
| Compaction.InputOrderDoesNotMatter | server/eylo/common/context_compaction.py:51-116 | cursor, uncompacted and context messages do not depend on the order of the input |
| Compaction.OrderedIsSortedPermutation | server/eylo/common/context_compaction.py:51-53 | ordering permutes the messages into ascending positions |
| Compaction.EarlierPositionsAreSwallowed | server/eylo/common/context_compaction.py:102-107 | a message at or before the boundary is never uncompacted |
| Luhn.Check | server/eylo/common/redaction.py:32-42 | the loop computes the weighted total's remainder |
| Luhn.SingleErrorIsCaught | server/eylo/common/redaction.py:32-42 | changing any one digit of a passing string makes it fail |
| Luhn.SwapIsCaughtExceptZeroNine | server/eylo/common/redaction.py:32-42 | swapping two different neighbours of a passing string makes it fail unless they are 0 and 9 |
| Luhn.ExactlyOneCheckDigit | server/eylo/common/redaction.py:32-42 | each string has exactly one check digit |

## Left out

- ChainLimit: the exact limit is stated for a single chain; on other graphs fitting chains suffice, and a shorter path may repair what the depth guard turned away.
- Store: `_delete` and `reset`, which do not invalidate dependents, and listeners that set keys during a flush.
- Store: a computed function that reads its own key, which would not end; events' `prev` values are modelled but only carried values are claimed.
- Transactions: the session's internal subtransactions, which never own a batch, and listeners that raise while events are emitted.
- SpawnUnbound: the scan for rows is a parameter, because it is a database query; a failure is named by its place in the scan.
- Bound work: deleted rows and missing rows, which every operation refuses alike; rows of other work items, which share no state.
- Transcript: JSON safety and the byte ceiling are a predicate on payloads; message text, request ids and the tool-result lookup are not modelled.
- Invitations: issuing, the development session, and reading an active session without a token.
- Schema resolver: building commands and unique action names from operations.
- Egress: hosts, ports, headers, redirects' hop count and UTF-8 after percent-decoding; decoding is per byte.
- Heartbeat: outer cancellation of the coroutine, and an operation that refuses to stop when cancelled; a late event loop counts as latency of the next call.
- Audio: generated noise, mixing, IIR filtering and the buffered method; 64-bit float rounding of source positions.
- Tab election: message order of the broadcast channel, which is not assumed; two connects of one tab whose probes overlap; and what a released tab does next.
- Compaction: metadata validation, which is a parameter: metadata either validated or is absent.
- Luhn: the patterns that find card-like digit runs.
