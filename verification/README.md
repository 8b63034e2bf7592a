# Causal document application, its readers and its harness: a verified model

The system applies signed changes to shared documents. A change names the inner hashes it
depends on; an applier selects what a set of target changes needs, has an engine
materialize the result and records the application as one event of a hash-chained,
append-only ledger per scope. Other parts read that ledger back, page a catalog of changes
to peers over a bounded protocol, bridge fetched candidates to the applier, and plan and
record the verification of the whole.

The model follows that structure, one module per component:

| modules | component |
|---|---|
| `ClosureWalk` | the depth-first walk that four procedures of the system each spell out |
| `Contracts`, `Admission` | `core_request`: as a function with its theory, and as the loops that compute it |
| `Dependencies` | `collect_dependencies` over the store |
| `Selection`, `CausalCheck`, `Collect` | `_collect`: selection, frontier, the causal check of every selected change |
| `Replay`, `ReadBack`, `History` | `_replay_request`, and its agreement with what was applied, up to whole runs |
| `Ledger`, `Audit`, `Pins` | the tables, `audit_records`, pins |
| `Prepare`, `Commit`, `Tickets`, `Applier`, `Runs`, `Genesis` | `DocumentApplier`, whole runs of it with crashes, and where they start |
| `Reports` | what is written down and what is reported, field by field and over whole runs |
| `Paging`, `Answering` | HAVE, NEED and GET answers, their schema check and a client's walk |
| `Server`, `ServerLoop`, `ReadServer` | the connection machine, its event loop and the `Server` object |
| `Controller`, `FetchController` | `FetchApplicationController` over a `DocumentApplier` |
| `Waves`, `Scheduler` | `plan_waves` |
| `Planner` | `load_tasks` and `select` |
| `Resume`, `Campaigns` | lane receipts, `resume_plan`, `aggregate`; `run_campaign`, killed and repeated |
| `CheckNames`, `Impact`, `ImpactRun` | `_check_to_entries`, `_affected_tasks` and `select_impact` |
| `Shards`, `Coverage` | `shard_plan` and `_coverage` |
| `Ordering` | sorted listings and counting |

`dafny verify dfyconfig.toml` checks the whole project.

## How the system is read

- Envelope ids, inner hashes, actors, digests, task and lane names are natural numbers. The
  byte strings among them have a fixed length, so they sort as the numbers they spell.
- Lists the system requires to be free of duplicates and sorts before use (dependencies,
  targets, heads, input lists) are sets or maps; `sorted` is `Ordering.Sorted`. A dictionary
  that the system iterates is iterated in an arbitrary order, so a contract never depends on
  it: at most the choice between two simultaneous errors does.
- `canonical` and `encode` keep values as they are. A hash is a function parameter; a lemma
  that needs it to be injective says so (`Pins.InjectiveRecords`, `Controller.InjectiveRevision`).
  Opening a signed envelope is a partial function of the envelope and its bytes.
- The store is a durable value and an optional open transaction. Every call inside and after
  the transactions of `prepare` and `commit` that can raise may do so, the encryption after
  the nonce reservation and the closing read after `commit` included; COMMIT may raise with or
  without effect, ROLLBACK may fail, and a crash drops everything that is not durable. A
  transaction left open by a failed ROLLBACK is taken as gone: the owner refuses every call
  while one is open, and here such calls may fail or go on.
- Clocks, sockets, engine reports, guards and budgets are inputs of the operation that
  consults them, so every contract holds for every behaviour of the surroundings.
- Ghost fields such as `log`, `used`, `chunks` and `answers` are histories: they record what
  happened so that a property of a whole run can be stated. No decision reads them.
- Automatic induction is off for every lemma, so each proof is the one written down.

## What turned out

- The over-limit branch of the core's closure walk, the missing-dependency branch of its
  predecessor worklist and the no-progress error of `plan_waves` cannot be reached
  (`Contracts.ExactClosureVerdict`, `Admission.RunWorklist`, `Scheduler.PackWave`).
- The audit that `commit` repeats inside its transaction cannot fail for a prepared value
  (`Commit.CommitKeepsAudit`).
- A commit that fails with a code other than outcome-unknown may have added its event: exactly
  when its closing read of the pin raised (product/wp04/application.py:330), outside the
  handler. A preparation that fails may have left its reservation: exactly when the encryption
  after it raised (application.py:282). `Runs.WhatFailuresLeave` says so for every step,
  `Genesis.FailedCommitMayAdd` and `Genesis.FailedPrepareMayReserve` give runs from the empty
  store. Exactly-once holds regardless.
- Selection is not monotone in the changed paths: `ImpactRun.LargerChangeSelectsLess` gives
  the case, `Impact.SelectionGrows` the exact condition on the two changes.
- Receipts are found by the lane they name, not by their file, so a misnamed file can spoil a
  campaign whose commands all pass: one that the run leaves alone doubles a lane that ran, one
  that it overwrites held the pass of a lane that did not run. `Campaigns.PassExactly` gives the
  exact condition, `Campaigns.OtherNameDoubles` and `Campaigns.TakenNameLosesPass` a ledger
  each; names that are merely swapped do no harm (`Campaigns.SwappedNamesHarmless`).
- Shard ids carry a twelve-digit token of their parent, so two parents may share them; such a
  campaign is refused (`Coverage.SharedTokenIsRefused`). A shard with the id of an entry that
  is itself sharded does no harm: `Coverage.ShardedCampaignAccepted` is exact.
- The coverage check compares no shard's command with its cases, so a campaign may be accepted
  whose shards run nothing (`Coverage.IdleShardsAccepted`); `Coverage.AcceptedRuns` is the exact
  condition, and the shards that `shard_plan` makes meet it (`Coverage.MadePlansRun`).
- The most specific mapping of a check is always one name (`CheckNames.MostSpecificIsOne`); the
  only tie is between a domain and an alias of the same spelling.
- Once the applier's own outcome is unknown it refuses inquiries too, so the controller's
  unresolved intent then stays unresolved for as long as it keeps that applier (a clause of
  `FetchController.FetchApplicationController.Inquire`).

## Model

| member | source | states |
|---|---|---|
| `ClosureWalk.WalkTopological` | product/wp04/contracts.py:86-94 | a finished walk lists each key once, after all of its parents |
| `ClosureWalk.WalkWithin` | product/wp04/contracts.py:86-94 | it lists nothing outside any closed set that holds its start |
| `ClosureWalk.WalkSucceeds` | product/wp04/contracts.py:86-94 | it finishes whenever a topological listing of the start exists within the limit |
| `ClosureWalk.WalkAgrees` | product/runtime_read/application.py:143-163 | its order depends only on the part of the graph it lists |
| `ClosureWalk.WalkBlames` | product/wp04/contracts.py:87-92 | a missing-key or cycle verdict comes with a path from the start to the missing key or round the cycle |
| `ClosureWalk.WalkOverLimit` | product/wp04/application.py:195-203 | an over-limit verdict means every closed set around the start exceeds the limit |
| `ClosureWalk.WalkHasRoom` | product/wp04/contracts.py:86-95 | with room for every known key the limit is never met |
| `ClosureWalk.Walker.Visit` | product/wp04/contracts.py:87-93 | the recursive procedure with its mutable sets computes the walk |
| `ClosureWalk.Walker.VisitAll` | product/wp04/contracts.py:92-94 | so does its loop over parents or roots |
| `Contracts.CoreAcceptsExactly` | product/wp04/contracts.py:75-115 | accepted if and only if within budget, names distinct, one scope, the closure is exactly the acyclic ancestor set, every predecessor is an ancestor, and slots are distinct |
| `Contracts.CoreOrderIsCausal` | product/wp04/contracts.py:86-94 | the output lists each dependency once, all parents earlier, and is a permutation of the closure |
| `Contracts.CoreCycleIsReal` | product/wp04/contracts.py:89 | behind a cycle verdict stands a change of the closure that is its own ancestor |
| `Contracts.CoreMissingIsReal` | product/wp04/contracts.py:88 | a missing verdict comes with a path from the candidate's dependencies to one that is not in the closure |
| `Contracts.CoreRefusalsAreReal` | product/wp04/contracts.py:75-115 | whatever code refuses a candidate, its cause is there: too much, a foreign scope, a doubled name, a gap, a cycle, an unrelated change, the candidate itself, an absent predecessor or a shared slot |
| `Contracts.ExactClosureVerdict` | product/wp04/contracts.py:86-113 | for an exact acyclic closure with distinct slots only scope and predecessor verdicts remain |
| `Contracts.CoreIgnoresTupleOrder` | product/wp04/contracts.py:79-115 | the request does not depend on the order of the closure tuple |
| `Contracts.ActorHistoriesAreChains` | product/wp04/contracts.py:97-113 | two changes of one author in an accepted request are ordered by ancestry; the sequence numbers up to any change are all present |
| `Contracts.SequenceIsBounded` | product/wp04/contracts.py:62-113 | no sequence number exceeds the closure's size plus one, hence 129 |
| `Admission.RunCoreRequest` | product/wp04/contracts.py:75-115 | the imperative checker returns exactly the specified verdict |
| `Admission.IndexClosure` | product/wp04/contracts.py:78-85 | the two indexes find exactly the equivocations |
| `Admission.RunWorklist` | product/wp04/contracts.py:104-108 | the worklist ends, with the least closed set around its roots; its own missing branch cannot be taken |
| `Admission.CollectAncestors` | product/wp04/contracts.py:104-109 | so it reaches exactly the ancestors of the change |
| `Admission.CheckPredecessor` | product/wp04/contracts.py:98-109 | passes exactly when the predecessor is the author's previous change and an ancestor |
| `Admission.CheckSlots` | product/wp04/contracts.py:110-113 | passes exactly when no two changes share an author slot |
| `Dependencies.CollectDependencies` | product/wp04/dependencies.py:19-49 | succeeds exactly when the ancestors can all be read within both budgets, and returns them in walk order; each refusal has its cause in the store or the walk, and a moved owner is reported exactly when only that stood in the way |
| `Dependencies.Collector.Visit` | product/wp04/dependencies.py:23-46 | the nested procedure follows the walk and its running total, failing only for a cause that exists |
| `Dependencies.ExtractedClosureWalks` | product/wp04/dependencies.py:19-49 | over an extracted closure the core's walk finishes with the same order |
| `Dependencies.ExtractedClosureAgrees` | product/wp04/contracts.py:77-96 | the core finds an extracted closure neither missing, cyclic, extraneous nor over budget, and emits the same order when it accepts |
| `Selection.SelectLists` | product/wp04/application.py:195-203 | a finished walk is a selection: known changes, each once, roots included, dependencies first |
| `Selection.SelectionIsLeast` | product/wp04/application.py:195-203 | the selected set is the least dependency-closed set that holds targets and old inputs |
| `Selection.HeadsCover` | product/wp04/application.py:216-217 | every selected change is a head or an ancestor of one |
| `Selection.FrontierIsMaximal` | product/wp04/application.py:216-217 | heads are a non-empty antichain: exactly the selected changes with no selected descendant; every selected change stays covered |
| `Selection.RecordedSelects` | product/runtime_read/application.py:143-163 | selecting over only the recorded inputs gives the same list as over the larger pool |
| `CausalCheck.CollectedClosureVerdict` | product/wp04/application.py:205-215 | the core's verdict on each closure built during collection: accepted exactly when scope and predecessors fit, otherwise one of those two codes |
| `Collect.RunCollect` | product/wp04/application.py:183-219 | succeeds exactly when the inputs are collectable; the request then holds every record's change once, each after the changes it depends on, heads are the hashes nothing listed depends on, and records keep the stored bytes; a refusal has its stated cause |
| `Collect.GatheredDelivers` | product/wp04/application.py:195-219 | whatever is collectable, what is collected has these properties, told from the request and the records alone |
| `Collect.MergeInputs` | product/wp04/application.py:184-188 | merges stored into external inputs, refusing exactly two values for one envelope |
| `Collect.OpenPool` | product/wp04/application.py:189-194 | opens all inputs, refusing exactly unreadable ones and shared hashes or slots, each by its code |
| `Collect.ClosureOf` | product/wp04/application.py:209-215 | the nested `ancestor` collects exactly the ancestors |
| `Collect.CheckSelection` | product/wp04/application.py:205-215 | passes exactly when every selected change is currently authorized and causally sound; a refusal names a selected change that is not |
| `Replay.RunReplay` | product/runtime_read/application.py:124-168 | returns a request exactly when the recorded inputs replay to one; it holds the changes of exactly those inputs, dependencies first, and the recorded heads |
| `Replay.ReplayedIsCausal` | product/runtime_read/application.py:143-168 | every replayed request is causal and made of exactly the recorded inputs |
| `Replay.ReopenInputs` | product/runtime_read/application.py:128-142 | reopens the recorded inputs, or no pool exists that they open to |
| `Replay.ReplayRefinesCollect` | product/runtime_read/application.py:143-168 | replay over the recorded inputs rebuilds the very request that collection produced |
| `ReadBack.CommittedEventReplays` | product/runtime_read/application.py:199-214 | after a commit and whatever was committed since, replaying that event against its predecessor yields the original request, so the digest check passes |
| `Ledger.InputsGrow` | product/wp04/application_schema.py:72-73 | along a scope's events the recorded inputs strictly grow |
| `Ledger.StoredAreLast` | product/wp04/application_schema.py:67-79 | a scope's stored inputs are exactly those of its last event |
| `Ledger.FrontierIsLastEvent` | product/wp04/application_schema.py:78-79 | in an audited store a frontier row has the revision, digest, evidence and heads of the last event of its scope, and its heads are hashes of that event's inputs |
| `Audit.AuditRecords` | product/wp04/application_schema.py:54-82 | the scan in order passes if and only if the store satisfies the declarative invariant |
| `Audit.CheckEvent` | product/wp04/application_schema.py:61-76 | one event passes exactly when it parses, is bound, chained, attributed and nonce-linked |
| `Audit.CheckFrontiers` | product/wp04/application_schema.py:77-79 | frontiers pass exactly when each is the last event of its scope |
| `Commit.CommitKeepsAudit` | product/wp04/application.py:299-315 | the inserts for a ready ticket lead from an audited store to an audited one, uniqueness constraints included |
| `Prepare.PreparedFits` | product/wp04/application.py:248-285 | what preparation builds fits the store it was built on |
| `Prepare.PreparedRecords` | product/wp04/application.py:248-285 | field by field: the record names the intent, the store's frontier, the surroundings, and of the collected request the inputs, heads and digests |
| `Prepare.PreparedIsReady` | product/wp04/application.py:248-285 | and is ready to commit there |
| `Prepare.ReserveKeepsAudit` | product/wp04/application.py:267-270 | reserving a nonce keeps the audit |
| `Tickets.PrepareKeepsLedger` | product/wp04/application.py:248-285 | a preparation keeps the store audited and all outstanding tickets good |
| `Tickets.CommitKeepsLedger` | product/wp04/application.py:293-330 | a commit keeps the store audited; other tickets stay good or become stale |
| `Pins.PinStays` | product/wp04/application.py:351-363 | an accepted pin stays accepted in every later state |
| `Pins.OwnPinAccepted` | product/wp04/application.py:351-363 | the pin of an audited store is accepted by it |
| `Pins.OwnPinNamesLast` | product/wp04/application.py:351-354 | the pin of an audited store is of the last event of its scope, zero exactly without one |
| `Pins.PrefixAgreement` | product/wp04/application_schema.py:61-66 | under an injective digest equal event digests at a revision mean equal events at every revision up to it |
| `Pins.PinFixesPrefix` | product/wp04/application.py:355-363 | so two audited stores that accept one pin agree on the whole prefix |
| `Pins.HistoryIsComplete` | product/wp04/application_schema.py:64 | a scope's history has an event at every revision up to its frontier |
| `Applier.DocumentApplier.Inquire` | product/wp04/application.py:242-247 | finds exactly the recorded event of this intent, reports its operation, revision, digest, heads, inputs and evidence, and changes nothing but the remembered pin |
| `Applier.DocumentApplier.Prepare` | product/wp04/application.py:248-285 | issues a ticket exactly for a preparable intent when nothing strikes, fails with a code that has its cause, or leaves the outcome open; a failure has an effect exactly when it struck after the reservation's COMMIT |
| `Applier.DocumentApplier.Admit` | product/wp04/application.py:248-266 | lets an intent through exactly if it can be prepared on the store as it stands and nothing strikes, with the collected request; a refusal has its stated cause |
| `Applier.DocumentApplier.Reserve` | product/wp04/application.py:267-285 | the reservation's own transaction and the encryption after it, with a fault at every call; it succeeds exactly when none strikes |
| `Applier.DocumentApplier.WriteInputs` | product/wp04/application.py:305-308 | inserts exactly the new rows, refusing exactly a stored row that differs |
| `Applier.DocumentApplier.Transact` | product/wp04/application.py:299-318 | the store ends as it was or with exactly the ticket's event applied, whatever strikes, and with it exactly when nothing does |
| `Applier.DocumentApplier.RunTransaction` | product/wp04/application.py:299-330 | an exception before COMMIT adds no event; one at or after it in the `try` block makes the applier uncertain; one in the closing read fails with the event in place; without any the event is reported field by field |
| `Applier.DocumentApplier.Commit` | product/wp04/application.py:293-330 | returns the recorded result or applies the ticket, and reports the event field by field; fails, or leaves the outcome open; a failure has an effect exactly when the closing read raised |
| `Applier.DocumentApplier.Apply` | product/wp04/application.py:331-334 | an intent that can be applied is applied when nothing strikes; a found result tells the recorded event field by field, one revision on and with all targets; a failure adds an event, then this intent's, exactly when the closing read raised; a recorded intent is answered without a write |
| `Reports.CommittedFrontier` | product/wp04/application.py:311 | the frontier that a commit stores is the ticket's record, field by field |
| `Reports.CommittedHeadsAreMaximal` | product/wp04/application.py:216-217 | and its heads are exactly the maximal hashes among what the preparation selected |
| `Reports.ReportMatchesIntent` | product/wp04/application.py:237-241 | over every run from the empty store: a reported result is about the operation asked for, one revision after the expected one, with inputs that hold the targets and heads that are hashes of inputs, as the event records them |
| `Genesis.EmptyStoreIsOk` | product/wp04/application_schema.py:54-82 | the empty store satisfies the audit and every invariant a run starts from |
| `Genesis.FirstChangeApplies` | product/wp04/application.py:248-330 | an authorized change without dependencies can be prepared and committed on the empty store, and leaves exactly its event, its input and its hash as the only head |
| `Runs.NextKeepsWorld` | product/wp04/application.py:242-334 | every step of any applier, and a crash, keeps ledger, results and remembered pins in order |
| `Runs.RunKeepsWorld` | product/wp04/application.py:242-334 | so does every run from an audited store |
| `Runs.RunExtends` | product/wp04/application.py:242-334 | nothing recorded is ever lost along a run |
| `Runs.ExactlyOnce` | product/wp04/application.py:242-247 | over every run all results reported for one operation are the same, and its event is in the final store |
| `Runs.EventsArePermanent` | product/wp04/application.py:310-318 | an event stays unchanged in all later states |
| `Runs.OnlyCommitsAdd` | product/wp04/application.py:267-330 | only a commit adds an event, only its own, and only when it returns it, leaves the outcome open, or raised in its closing read |
| `Runs.WhatFailuresLeave` | product/wp04/application.py:267-330 | a failed commit added its event, and a failed preparation left its reservation, exactly when the exception struck after COMMIT outside the handler; every other failure leaves store and session as they were |
| `Genesis.FailedCommitMayAdd` | product/wp04/application.py:318-330 | a run from the empty store whose commit fails in the closing read and leaves its event |
| `Genesis.FailedPrepareMayReserve` | product/wp04/application.py:267-285 | a run from the empty store whose preparation fails after its COMMIT and leaves the reservation |
| `History.NextKeepsHistory` | product/wp04/application.py:242-334 | every step keeps that all tickets and events stem from a preparation and a commit on audited stores |
| `History.EveryEventReplays` | product/runtime_read/application.py:124-168 | over every run from the empty store under one opener, every event of every ledger on the way replays, so the digest check never fails |
| `Runs.UncertainRefuses` | product/wp04/application.py:130-132 | an applier whose outcome is unknown refuses everything until the process is gone |
| `Paging.HaveAnswerPasses` | product/wp04/exchange.py:195-212 | every HAVE answer over a well-formed catalog passes the reply check |
| `Paging.NeedAnswerPasses` | product/wp04/exchange.py:213-219 | every NEED answer does, and is null exactly for unknown names |
| `Answering.AnswerPasses` | product/wp04/exchange.py:195-233 | every answer over a well-formed view passes the client's check, for all three methods |
| `Answering.NeedIsAnswered` | product/wp04/exchange.py:350-352 | NEED is always answered: row by row the descriptor of that hash, null exactly if there is none |
| `Answering.HaveIsAnswered` | product/wp04/exchange.py:341-349 | HAVE is answered exactly under the live token or none and inside the catalog, with that part of it; each other case has its code |
| `Answering.GetIsAnswered` | product/wp04/exchange.py:353-356 | GET is answered exactly under the live token for a record of that hash, with that record; each other case has its code |
| `Answering.MalformedIsInvalid` | product/wp04/exchange.py:120-137 | a malformed request is an invalid one |
| `Answering.AnswerCarriesToken` | product/wp04/exchange.py:341-356 | every value carries the token of the snapshot it was read from |
| `Paging.WalkAdvances` | product/wp04/exchange.py:195-212 | against any server whose replies pass, offsets strictly advance and the token never changes |
| `Paging.WalkEnds` | product/wp04/exchange.py:195-212 | so a walk has at most 128 requests |
| `Paging.WalkIsComplete` | product/wp04/exchange.py:341-349 | under one token a finished walk yields the whole catalog in order |
| `Paging.WalkContinues` | product/wp04/exchange.py:341-349 | while a next-offset is given, the next request is well formed and answered |
| `Server.HeaderRoundTrip` | experiments/keeper-service/par_keeper_service/transport.py:8-10 | the four-byte length is read back as written |
| `Server.FragmentsDoNotMatter` | product/wp04/exchange.py:424-433 | however the stream is split, a completed request is exactly the framed payload at its start; a bad length is noticed after four bytes |
| `Server.FramedRequestIsRead` | product/wp04/exchange.py:424-433 | a framed request is understood, whatever follows it |
| `Server.SuccessIsOfSnapshot` | product/wp04/exchange.py:434-444 | a success is the signed answer to the checked request out of one snapshot, and its guard is that snapshot's token |
| `Server.DecidedExactly` | product/wp04/exchange.py:434-444 | success exactly when checked, readable, answered and signed; otherwise the refusal signed over the code of what failed, or none exactly when that cannot be signed |
| `Server.OneCode` | product/wp04/exchange.py:434-444 | a refused request has one code and is not answerable |
| `Server.ReadKeepsOk` | product/wp04/exchange.py:424-447 | reading keeps the connection's streams in order; a response is the frame of what was decided for exactly the received payload |
| `Server.WriteKeepsOk` | product/wp04/exchange.py:449-461 | writing delivers the output in order; a completed connection got exactly the frames of its challenge and of the one response |
| `ServerLoop.DropKeeps` | product/wp04/exchange.py:399-405 | dropping keeps the server's invariant |
| `ServerLoop.ArrivalKeeps` | product/wp04/exchange.py:407-422 | accepting keeps it: the connection bound and accepted = live + completed + dropped |
| `ServerLoop.ArrivalsFill` | product/wp04/exchange.py:407-422 | sockets are accepted while there is room; the others count as overloaded |
| `ServerLoop.ArrivalTakes` | product/wp04/exchange.py:407-420 | with room one more connection starts at the beginning of its own challenge |
| `ServerLoop.BadArrivalIsRejected` | product/wp04/exchange.py:413-422 | a socket whose set-up fails is counted as rejected and nothing else happens |
| `ServerLoop.ReadKeeps` | product/wp04/exchange.py:424-447 | a read keeps it: at most one answer per challenge, to exactly the framed request, a success read from the live snapshot |
| `ServerLoop.WriteKeeps` | product/wp04/exchange.py:449-461 | a write keeps it: every chunk of a success went out while the source's token was the answer's |
| `ServerLoop.OneReading` | product/wp04/exchange.py:424-433 | a read ends the connection, waits or completes a request: exactly one of them, told from the bytes received |
| `ServerLoop.ReadGoes` | product/wp04/exchange.py:424-431 | the first drops the connection, counted once |
| `ServerLoop.ReadWaits` | product/wp04/exchange.py:424-432 | the second leaves everything but the received bytes |
| `ServerLoop.ReadDecides` | product/wp04/exchange.py:433-447 | the third records exactly the decided outcome, counts a refusal as rejected, and drops exactly what cannot be signed or framed |
| `ServerLoop.WriteGoes` | product/wp04/exchange.py:449-456 | an outdated success or a closed socket ends the connection; only the former counts as changed |
| `ServerLoop.WriteSends` | product/wp04/exchange.py:456-461 | otherwise the next bytes go out, and the connection goes on, turns to its request or is complete |
| `ServerLoop.SuccessSentUnderItsToken` | product/wp04/exchange.py:449-461 | each chunk of a success belongs to the one answer of its connection and went out under exactly that answer's snapshot token |
| `ServerLoop.FinishedDeliveredItsAnswer` | product/wp04/exchange.py:456-461 | a completed connection delivered exactly its challenge and the response signed for its answer |
| `ServerLoop.HandledAll` | product/wp04/exchange.py:463-482 | the invariant holds after every sequence of events |
| `ServerLoop.LateEventDoes` | product/wp04/exchange.py:466-476 | an event past its deadline drops and counts its connection, one of a gone connection does nothing |
| `ReadServer.ReadServer.Drop` | product/wp04/exchange.py:399-405 | removes one connection and counts it once |
| `ReadServer.ReadServer.Accept` | product/wp04/exchange.py:407-422 | takes at most one socket more than the limit, in order |
| `ReadServer.ReadServer.Read` | product/wp04/exchange.py:424-447 | the in-place read, raising included, is the specified step |
| `ReadServer.ReadServer.Answer` | product/wp04/exchange.py:433-447 | check, answer, sign and the refusing branch in place decide and install exactly the specified outcome |
| `ReadServer.ReadServer.Write` | product/wp04/exchange.py:449-461 | the in-place write, guard first, is the specified step |
| `ReadServer.ReadServer.Handle` | product/wp04/exchange.py:471-482 | one ready descriptor is handled as specified |
| `ReadServer.ReadServer.Poll` | product/wp04/exchange.py:463-482 | expiry and then the descriptors in order, invariant kept |
| `ReadServer.ReadServer.Close` | product/wp04/exchange.py:484-489 | drops all live connections once; then accepted = completed + dropped |
| `Controller.AttemptIsSafe` | product/runtime_read/fetch.py:145-181 | with nothing unresolved one more attempt keeps the history safe, and an unknown outcome becomes the unresolved intent |
| `Controller.InquiryIsSafe` | product/runtime_read/fetch.py:183-204 | only an inquiry of the unresolved intent that finds its row settles it |
| `Controller.RevisionUsedOnce` | product/runtime_read/fetch.py:115-121 | under an injective digest an observation revision authorizes at most one command |
| `FetchController.FetchApplicationController.Observe` | product/runtime_read/fetch.py:85-113 | succeeds exactly with a guard, all views, a pin, an unmoved revision and room; reports the pin, every view and operation as they are; shown verdicts were given under the local revision it reports; a refusal has its cause |
| `FetchController.FetchApplicationController.TakeCommand` | product/runtime_read/fetch.py:115-121 | consumes exactly the latest, still current observation; a refusal has its cause and changes nothing |
| `FetchController.FetchApplicationController.Validate` | product/runtime_read/fetch.py:123-138 | verdicts are kept for all targets under one local revision or not at all, exactly as given; nothing is applied |
| `FetchController.FetchApplicationController.Apply` | product/runtime_read/fetch.py:145-181 | an attempt is made exactly for a consumed observation with nothing unresolved; the reported state is recorded with the event's revision, or unknown and unresolved, or the reason why nothing was attempted; a refusal has its cause |
| `FetchController.FetchApplicationController.Attempting` | product/runtime_read/fetch.py:157-178 | any exception after the call leaves exactly this intent unresolved |
| `FetchController.FetchApplicationController.Inquire` | product/runtime_read/fetch.py:183-204 | the reported state is recorded, with the event's revision, exactly when the row was found under a held guard, and only then is the intent cleared; not-observed means the store has no such event; a failed inquiry leaves the intent |
| `Waves.PlanPartitions` | harness/resource_scheduler.py:86-120 | the waves partition the request; each is non-empty, within workers, capacities and exclusives; an unsafe entry is alone |
| `Waves.UnsafeIsBarrier` | harness/resource_scheduler.py:88-99 | what stands before an unsafe entry runs in an earlier wave, what stands after it in a later one |
| `Waves.PlanIsGreedy` | harness/resource_scheduler.py:95-109 | an entry that waits within a safe segment did not fit beside the members of the wave ahead of it |
| `Waves.RefusedByWhole` | harness/resource_scheduler.py:95-109 | hence it could not have been added to the whole wave |
| `Waves.FirstGetsIn` | harness/resource_scheduler.py:109-112 | the first pending entry always gets in, so a wave is never empty |
| `Waves.FeasibleFits` | harness/resource_scheduler.py:95-107 | feasible means: workers, the sum of each weight, and pairwise exclusives are within their limits |
| `Waves.PlanFits` | harness/resource_scheduler.py:95-120 | every planned wave is non-empty and within each limit |
| `Waves.SchedulableMeans` | harness/resource_scheduler.py:79-85 | a request can be planned exactly when each entry is registered and no weight of it exceeds its capacity |
| `Scheduler.PackWave` | harness/resource_scheduler.py:91-113 | the inner loop with running totals and popped positions computes first fit |
| `Scheduler.MakeWaves` | harness/resource_scheduler.py:86-120 | the outer loop computes the reference plan with its reported sums |
| `Scheduler.PlanWaves` | harness/resource_scheduler.py:79-120 | a plan exactly for duplicate-free, registered, individually fitting ids, each reported sum within its limit; the errors otherwise |
| `Planner.Loader.Visit` | harness/planner.py:21-32 | success extends a topological listing of sound tasks, failure names a real defect |
| `Planner.CheckGraph` | harness/planner.py:20-33 | passes if and only if the plan is acyclic and every edge is known and allowed |
| `Planner.LoadTasks` | harness/planner.py:6-35 | loads exactly such plans, and a rejection names a real defect |
| `Planner.LocalNeverNeedsExternal` | harness/planner.py:26-31 | no LOCAL task depends on an EXTERNAL one, however indirectly |
| `Planner.SomethingIsReady` | harness/planner.py:37-50 | with all capabilities an unfinished LOCAL task means some task is ready, whatever is completed |
| `Planner.WorkReachesClosure` | harness/planner.py:37-50 | completing ready tasks one by one reaches local closure in exactly as many steps as LOCAL tasks were unfinished, and never gets stuck before |
| `Planner.Select` | harness/planner.py:37-50 | every task lands in the right list, ascending by priority and then id; closed means no LOCAL task is unfinished |
| `Resume.Verify` | harness/verification_ledger.py:121-133 | a receipt counts exactly when every bound field agrees; otherwise the problem names a check that fails |
| `Resume.ResumePlan` | harness/verification_ledger.py:169-185 | exactly the passed lanes are reused and all others run, in campaign order; fails exactly for damaged or duplicate receipts, and says which |
| `Resume.Aggregate` | harness/verification_ledger.py:148-166 | a verdict exactly for an intact, single, expected and current ledger; PASS exactly when every lane passed; an error has its cause in a file |
| `Resume.PassMeansNothingToRun` | harness/verification_ledger.py:148-185 | PASS if and only if the resume plan has nothing to run |
| `Resume.PlanSplitsCampaign` | harness/verification_ledger.py:169-185 | reuse and run are disjoint and together all lanes, each once |
| `Campaigns.OneMoreRun` | harness/verification_ledger.py:188-203 | running a lane without a recorded pass never repeats a passed lane and keeps every recorded pass |
| `Campaigns.RunConcludes` | harness/verification_ledger.py:188-204 | on any single, intact ledger: exactly which receipts are unexpected, doubled, missing and passed after a run to the end |
| `Campaigns.RunLeavesSingles` | harness/verification_ledger.py:97-107 | a run leaves one file per lane exactly when no file it leaves alone holds a receipt of a lane that ran |
| `Campaigns.PassExactly` | harness/verification_ledger.py:188-204 | PASS exactly when every command passed and no receipt file is misplaced |
| `Campaigns.WellNamedIsPlaced` | harness/verification_ledger.py:97-107 | files named as `write_receipt` names them are never misplaced |
| `Campaigns.PassSurvives` | harness/verification_ledger.py:97-107 | a pass survives a run, killed or not, exactly when its file is not one that the run wrote |
| `Campaigns.OtherNameDoubles` | harness/verification_ledger.py:148-154 | a ledger on which the run leaves a duplicate |
| `Campaigns.TakenNameLosesPass` | harness/verification_ledger.py:155-163 | a ledger on which the run overwrites another lane's pass, which is then missing and runs again |
| `Campaigns.SwappedNamesHarmless` | harness/verification_ledger.py:136-145 | swapped file names of two lanes that both run are not misplaced |
| `Campaigns.CampaignRunner.Run` | harness/verification_ledger.py:188-204 | on any ledger, however often it is called and killed: no lane runs again after a recorded pass; a damaged or doubled ledger runs nothing; the verdict of a run to the end follows exactly from the ledger before it and the outcomes |
| `Impact.AffectedTasks` | harness/impact_selection.py:192-208 | the queue loop yields the least set closed under reversed dependencies |
| `Impact.AffectedGrows` | harness/impact_selection.py:192-208 | more direct owners affect no fewer tasks |
| `Impact.SelectionGrows` | harness/impact_selection.py:250-265 | more changed paths select no fewer entries, exactly unless the smaller change had no verification route and the larger is certain, has a route and spares some entry |
| `Impact.SelectionIsFailClosed` | harness/impact_selection.py:229-265 | unless everything is selected, every path is owned, low-risk or critical, every check of an affected task has its most specific mapping, and all entries of that mapping and of the mandatory modules are selected |
| `CheckNames.CheckToEntries` | harness/impact_selection.py:172-189 | the loops over domains and aliases yield exactly the entries of the most specific candidates |
| `CheckNames.MostSpecificIsOne` | harness/impact_selection.py:183-189 | the most specific candidates are one name |
| `CheckNames.MappingIsOfOneName` | harness/impact_selection.py:172-189 | so the mapping is what that name stands for as domain and alias, and is empty exactly for a check without candidates |
| `CheckNames.MatchesExactly` | harness/impact_selection.py:176-180 | a name matches the check that it is and any check that goes on with an underscore after it |
| `CheckNames.AliasStandsFor` | harness/impact_selection.py:181-182 | an alias stands for the entries of those of its targets that are domains |
| `ImpactRun.LargerChangeSelectsLess` | harness/impact_selection.py:255-256 | a concrete change whose extension selects less |
| `ImpactRun.Assess` | harness/impact_selection.py:219-256 | owners, affected tasks and needed entries are as specified; the fallback reason is the first that applies |
| `ImpactRun.SelectImpact` | harness/impact_selection.py:211-268 | selects exactly the chosen entries and defers the others, both as the registry orders them; reason and mode are exactly told by mapping, gaps, paths and checks; low-risk and empty changes select exactly the baseline |
| `Shards.RankedPermutes` | harness/advanced_optimization.py:37-42 | ranking reorders the cases and nothing else |
| `Shards.RankedSorted` | harness/advanced_optimization.py:37-42 | the ranking is sorted by digest |
| `Shards.RankedUnique` | harness/advanced_optimization.py:37-42 | where digests differ it is the only sorted order of the cases |
| `Shards.DealtPartitions` | harness/advanced_optimization.py:55-57 | dealing loses and doubles nothing |
| `Shards.DealtRoundRobin` | harness/advanced_optimization.py:55-57 | case k goes to bucket k mod n as its k div n-th |
| `Shards.DealtSizes` | harness/advanced_optimization.py:55-57 | the exact size of every bucket |
| `Shards.DealtIsBalanced` | harness/advanced_optimization.py:53-57 | sizes differ by at most one and no bucket is empty |
| `Coverage.MakeShards` | harness/advanced_optimization.py:45-78 | a plan exactly for a CASE entry and a valid count; each lane runs `unittest` on exactly its own cases within the entry's time and tier |
| `Coverage.ShardsPartition` | harness/advanced_optimization.py:55-68 | the shard lanes partition the entry's cases into balanced non-empty lanes |
| `Coverage.CheckCoverage` | harness/evidence_promotion.py:50-77 | accepts exactly the campaigns of whole entries and exact shards, and then represents every entry; each refusal has its condition |
| `Coverage.WholeLaneRuns` | harness/evidence_promotion.py:42-45 | a whole lane runs its entry's command by this interpreter, for the entry's cases, time and tier |
| `Coverage.AcceptedCovers` | harness/evidence_promotion.py:50-77 | an accepted campaign lists every case of every CASE entry |
| `Coverage.AcceptedRuns` | harness/evidence_promotion.py:50-77 | it runs them all, by the entry's command or a shard's, exactly when its shards run what they list |
| `Coverage.MadePlansRun` | harness/advanced_optimization.py:55-68 | the shards that `shard_plan` makes do |
| `Coverage.IdleShardsAccepted` | harness/evidence_promotion.py:53-65 | two shards that run nothing are accepted |
| `Coverage.AcceptedAccounts` | harness/evidence_promotion.py:66-76 | every lane of it is a registry lane word for word or a shard with only its parent's cases |
| `Coverage.ShardedCampaignAccepted` | harness/evidence_promotion.py:53-77 | a campaign that replaces entries by their shards is accepted exactly when shards of one id are one lane and a shard with the id of an unsharded entry is that entry's lane; ids that are apart suffice |
| `Coverage.SharedTokenIsRefused` | harness/advanced_optimization.py:59-61 | two parents of one token cut into equally many different shards are refused |

## Left out

- Cryptography, CBOR and JSON encodings, certificates and membership: opaque functions and answers of the surroundings.
- `ChangeInput.create`: its header checks are properties a change has; only the sequence rule is used.
- Engine reports and note texts (`check_materialization`, `check_report`): one yes-or-no answer of the surroundings.
- Causes of a failed opening: unreadable envelopes are one error, whatever check refused them.
- Row-length CHECKs, `UNIQUE(key_context,nonce)` and the global event, nonce and byte budgets: an insert refused by them is a failure without effect that may strike at that point.
- DDL, migration, snapshot restore, fencing and the single-writer lock: the store is held by one process at a time, whose appliers may interleave.
- `document_inputs` rows hold the decoded record, and an event's heads and inputs are sets, so the order checks of `parse_record` hold by construction.
- An asynchronous interrupt inside an exception handler, which could cut the handler short.
- Re-entrant calls: `_busy` is modelled only in the controller; the other objects' re-entrancy refusals are not.
- A KeyboardInterrupt inside the controller's `inquire`: it skips the closing observation, which here is an observation that fails.
- All signatures of the read exchange: `sign` is a function that may fail.
- File descriptors: connections are named by their order of acceptance, so a reused descriptor is a new connection.
- Selector registration, deadlines as numbers, endpoint files: an event says that it is late, blocked or ready.
- An exception of another type than those `poll` catches: it leaves `poll` before the remaining descriptors are handled.
- `observe` of the application observer beyond history and frontier, `writer.py`, `sdk.py`, `subscriptions.py`: adapters.
- Time estimates of waves, host pre-flight and the worker processes of the scheduler.
- Path globbing and the registry's module names: given as functions from paths to owners, classes and rules and from modules to entries.
- Field and path checks of plan rows and policies: one flag per row.
- Duplicate-free reason records and the reported graph of `select_impact`.
- The reasons that `resume_plan` lists per lane: each is what `Resume.Verify` says of its receipt.
- Receipt timing, output digests and the seal computation: a receipt is intact, tampered or malformed.
- Sampling, caching, quarantine, packaging, promotion records, doctor and command line.
