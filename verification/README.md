# Ergo agent runtime: a verified model

A Dafny model of the parts of the runtime whose correctness does not show in any
one function, with proofs about whole runs of them.

- **Control plane** (`ControlPlane`, `ControlPlaneRows`, `ControlPlaneInvariants`,
  `ControlPlaneTheorems`, `ControlPlaneWaiting`, `ControlPlaneExamples`, `Executions`,
  `Repository`, `Worker`, `Publishers`, `Deliveries`, `PublisherExamples`,
  `ApprovalGate`, `Transactions`, `Leases`, `Deadlines`): the multi-worker protocol kept in SQL tables. Every
  transaction is one atomic step over the tables; any worker takes any step in any
  order. The class `Repository` performs the transactions on mutable tables and each method is
  proved to be the step of its name, so what holds of steps holds of any
  interleaving of calls. `ControlPlaneRows` restates a step row by row; the
  invariants and the theorems about runs use only that view. `Publishers` runs the
  publishers of the outbox as processes among all other steps. `Transactions` says
  by the rows alone when each transaction goes through and what it leaves; `Leases`
  and `Deadlines` say over whole runs what a lease, a delay or a deadline is worth.
- **Session tree and compaction** (`SessionTree`, `Compaction`,
  `CompactionCuts`, `CompactionTheorems`, `CompactionPairs`, `CompactionExamples`, `Session`, `Fork`):
  the append-only log of entries with parents, the branches of it, where a branch is cut for
  summarising, how the conversation is rebuilt, leaving a branch, forking. A
  summary is symbolic: it is what the summariser was given, so it can be asked
  which messages it goes back to.
- **File edits** (`Fuzzy`, `FuzzyTheorems`, `FuzzyMeaning`, `FileEdit`, `FileEditTheorems`, `Hunk`,
  `Lines`): several replacements found in the original text, tolerantly if need
  be, spliced in, with line endings restored and a unified hunk.
- **Agent packages** (`Names`, `AgentPackage`, `Delegation`, `AgentPackageManifest`): collecting
  what an entry agent may delegate to, and the independent check of the result.
- **Paged reading** (`Paging`) and **tool arguments** (`ToolValidation`,
  `ToolValidationTheorems`, `SchemaMeaning`).

Code that updates state is a class or a method with loops, proved against a
specification function; the properties are lemmas about those functions.

## Findings

Claims that look right and are not. The first lemma named with each refutes it by a
concrete case; those whose names end in `Iff`, and those said to, give the exact
condition.

- One active run per session: a worker may restart a failed run while another is
  active (`TwoActiveRuns`; exactly then, `SingleActiveIff`).
- A run that waits for input can be answered: nothing closes an interaction that
  lapses, and with its job finished the run waits for good (`SilentRun`,
  `SilentRunsStay`; the steps that lead there are exactly those of
  `StepKeepsInputLive`).
- A run that waits for approval can be approved. Its approval may have lapsed; then
  the next expiry fails it (`LapsedApproval`, `ExpiryFailsIff`). Or it may be closed:
  a lapsed approval is denied without its digest being listed as denied, the resumed
  engine asks again under the same identifier, the insert is ignored and the run
  waits for good (`StrandedRun`, `StrandedRunsStay`). The steps that lead to either
  are exactly those of `StepKeepsDecidable`, to the second alone those of
  `StepKeepsApprovalsOpen`; a run that none of those strands can be approved or fails at
  the next expiry (`UnstrandedRunsResolve`).
- An event is delivered once: a slow publisher and the one that takes its row over both
  deliver it (`DeliveredTwice`). Publication alone does not end deliveries: a slow
  publisher still posts a published row (`DeliveredAfterPublication`). Deliveries are over
  exactly when the row is published or out of attempts and nobody has it unsent in a batch
  (`OverIff`, `DeliveredOnceIff`); there are at most twenty, one for each lease
  (`DeliveriesAreBounded`).
- A late report cannot touch a job that was handed out again: it can when the same worker
  has it again, and then swallows the decision the job was handed out for
  (`LateReportSwallows`, `ReportStoredIff`; before it is handed out no report can,
  `ResumeIsNotSwallowed`).
- Only the worker that holds the job moves its run: events are taken from anybody
  (`LostWorkerCompletes`, `EventsIgnoreLeases`).
- A request forked at the same time by its twin gets the twin's session: not when a
  snapshot came between (`TwinNotFound`; exactly then, `RacingForks`).
- The last compaction's summary covers everything before it: when the cut falls in
  the turn that was kept first, the summary is written from that turn's start alone
  and the previous summary is lost (`SecondCompactionDrops`, `SummaryCoversHistoryIff`).
- The cached tail equals what it caches: a branch summary in the kept range, or an
  entry written between preparing and appending, is missing from it
  (`TailLosesBranchSummary`, `TailLosesLateMessage`, `RetainedTailAgreesIff`).
- The summary of an abandoned branch covers what is left on it: not what is written
  there while the summariser is at work (`LeavingForgetsLateMessage`,
  `LeavingCoversIff`).
- Kept tool results keep their calls: not when a steering message lands between
  them (`SteeringSplitsPair`). They do for every budget exactly when no place where
  some budget cuts comes between a result and its last call (`EveryTailAnswersIff`,
  `CutsAtIff`), as when no place to cut at all does (`KeptResultsKeepTheirCalls`).
- Edits do not depend on their order: they do in a file that is a single line of
  white space (`OrderMatters`, `OrderIrrelevantIff`).
- Line endings are restored: only when the file uses one ending throughout
  (`MixedEndings`, `EndingsRestoredIff`).
- The builder's packages pass the check: not when an agent without the subagent tool
  lists delegates that are not selected (`UnselectedDelegate`, `BuiltPassesIff`).
- Coercion leaves valid values alone: not with alternatives
  (`AlternativesChangeValid`, `ValidStaysIff`, `ChoiceStaysIff`).
- Coercing twice is coercing once: not with `allOf` (`AllOfTwiceDiffers`,
  `AllOfTwiceIff`, `BesideTwiceIff`), though it is for every value accepted by a schema without
  alternatives (`AcceptedArgumentsAreStable`), and by one with them exactly on the
  condition above (`AcceptedTwiceIff`).

## Model

| member | source | states |
|---|---|---|
| Repository.Repository.CreateRun | examples/ecs/internal/repository/mysql/mysql.go:50-234 | takes the create step exactly: key replay, foreign or busy session, unknown parent, then run, job, outbox row and key together or not at all |
| Repository.Repository.CancelRun | examples/ecs/internal/repository/mysql/mysql.go:276-308 | takes the cancel step exactly: an active run and its open jobs, with the event, or nothing |
| Repository.Repository.DecideApproval | examples/ecs/internal/repository/mysql/mysql.go:310-365 | takes the decide step exactly: an open, unlapsed approval is decided, its digest joins the payload, the job is ready again with a fresh budget; rolled back when the event cannot be recorded |
| Repository.Repository.AnswerInteraction | examples/ecs/internal/repository/mysql/mysql.go:431-500 | takes the answer step exactly, a questionnaire requeueing the job and an elicitation leaving it with its worker |
| Repository.Repository.RecordEvent | examples/ecs/internal/repository/mysql/mysql.go:527-542 | the event row and the outbox row of the same id appear together or neither does |
| Repository.Repository.StartRun | examples/ecs/internal/repository/mysql/mysql.go:544-556 | takes the start step exactly, failed runs included |
| Repository.Repository.Project | examples/ecs/internal/repository/mysql/mysql.go:581-626 | what each kind of event does to run, approvals and interactions, rows already there winning |
| Repository.Repository.AppendRunEvent | examples/ecs/internal/repository/mysql/mysql.go:558-631 | takes the append step exactly, unfenced, all or nothing |
| Repository.Repository.SelectJobs | examples/ecs/internal/repository/mysql/mysql.go:1141-1157 | an eligible, unlocked prefix of the queue in queue order, as many as asked for while there are any |
| Repository.Repository.LeaseJobs | examples/ecs/internal/repository/mysql/mysql.go:1129-1174 | takes the lease step exactly; hands out, each once, at most the limit of unlocked jobs that have attempts left, are due, and are ready or were leased until some time before, and leaves such a job out only behind as many that are due no later |
| Repository.Repository.ExpireApprovals | examples/ecs/internal/repository/mysql/mysql.go:1176-1194 | takes the expiry step exactly: lapsed approvals are denied and the runs waiting for them fail |
| Repository.Repository.HeartbeatJob | examples/ecs/internal/repository/mysql/mysql.go:1196-1206 | takes the heartbeat step exactly, a conflict unless the owner holds the job |
| Repository.Repository.CompleteJob | examples/ecs/internal/repository/mysql/mysql.go:1208-1218 | takes the complete step exactly, a conflict unless the owner holds the job |
| Repository.Repository.FailJob | examples/ecs/internal/repository/mysql/mysql.go:1220-1230 | takes the fail step exactly: ready again while attempts remain, dead otherwise |
| Repository.Repository.LeaseOutbox | examples/ecs/internal/repository/mysql/mysql.go:1232-1272 | takes the outbox lease step exactly on sendable, unlocked rows, oldest first: a row left out comes after every row taken, and only when the limit is reached |
| Repository.Repository.MarkOutboxPublished | examples/ecs/internal/repository/mysql/mysql.go:1274-1284 | takes the publish step exactly, a conflict unless the owner holds the unpublished row |
| Repository.Repository.FailOutbox | examples/ecs/internal/repository/mysql/mysql.go:1286-1296 | takes the release step exactly, a conflict unless the owner holds the unpublished row |
| Repository.Repository.PublishOutboxOnce | examples/ecs/cmd/agent-worker/main.go:147-189 | in a round nobody disturbs, tries the oldest unlocked events that are unpublished, due, tried fewer than twenty times and leased by nobody now; exactly those delivered with success are published, every other one tried is due again after its delay, no other row changes |
| Repository.DelaysDouble | examples/ecs/cmd/agent-worker/main.go:341-344 | the delay before a retry starts at two seconds, doubles with each attempt and ends at five minutes |
| Publishers.RunIsExecution | examples/ecs/cmd/agent-worker/main.go:147-189 | publishers that lease, deliver and report row by row, stop anywhere and interleave with each other and with everything else, only take steps of the control plane, so all of its invariants hold under them |
| Publishers.PublishedWereDelivered | examples/ecs/cmd/agent-worker/main.go:147-189 | in every such run a published row was leased by the owner that marked it, delivered with success under that lease, and marked after that, once, with no other lease of it in between or since |
| Publishers.ReportCountsIff | examples/ecs/internal/repository/mysql/mysql.go:1274-1296 | the report on a delivery, success or failure, is stored exactly when nobody has leased the row since its owner did, whether or not that lease has lapsed; otherwise it conflicts and changes nothing |
| Publishers.DeliveriesAreBounded | examples/ecs/internal/repository/mysql/mysql.go:1238-1268 | no two deliveries of a row are made under one lease, and leases are its attempts: at most twenty deliveries |
| Publishers.AnswerDecides | examples/ecs/cmd/agent-worker/main.go:178-187 | whatever went before, the report on a delivery nobody has overtaken publishes the event when the webhook answered with success and otherwise leaves it unpublished, due again after the delay for its attempts |
| Deliveries.OverIff | examples/ecs/cmd/agent-worker/main.go:147-189 | no continuation, whoever does what, delivers an event again exactly when its row is published or has used its twenty attempts and no publisher has it still to post in its batch |
| Deliveries.DeliveredOnceIff | examples/ecs/cmd/agent-worker/main.go:147-189 | hence an event that was delivered once stays so in every continuation exactly then |
| Worker.ProcessJob | examples/ecs/cmd/agent-worker/main.go:191-311 | for a worker nobody disturbs, the job takes a start, a prefix of the engine's events in order and one report, complete exactly when the engine succeeded or the run was cancelled, and is then no longer held |
| Worker.HeldMeansLeasedAgain | examples/ecs/cmd/agent-worker/main.go:191-311 | in any interleaving, a worker that holds a job after its report on it has been given that job again since |
| Worker.RecordEvents | examples/ecs/cmd/agent-worker/main.go:282-293 | stores the events in order as steps of their own, and stops at the first that cannot be stored |
| ControlPlaneRows.StepEvolves | examples/ecs/internal/repository/mysql/mysql.go:50-1296 | every transaction, whichever statements it is made of, moves each job, run, approval, interaction and outbox row only as the row-wise life cycles say and adds only the rows they name |
| ControlPlaneInvariants.RunHistory | examples/ecs/internal/repository/mysql/mysql.go:283-598 | over any run of steps completed and cancelled are absorbing, and an unchanged version means an unchanged run |
| ControlPlaneInvariants.RunMoves | examples/ecs/internal/repository/mysql/mysql.go:283-617 | one step changes a run only along the life cycle and then raises its version by one |
| ControlPlaneInvariants.StepKeepsJobRows | examples/ecs/internal/repository/mysql/mysql.go:1129-1230 | ready implies attempts left, leased exactly when owner and lease are set, attempts within the maximum: kept by every step |
| ControlPlaneInvariants.StepKeepsOneJobPerRun | examples/ecs/internal/repository/mysql/mysql.go:213-219 | every run has exactly one job: kept by every step |
| ControlPlaneInvariants.StepKeepsGrants | examples/ecs/internal/repository/mysql/mysql.go:310-365 | the digests a job carries as approved are exactly those of the run's allowed approvals: kept by every step |
| ControlPlaneInvariants.StepKeepsOutbox | examples/ecs/internal/repository/mysql/mysql.go:527-542 | every event has its outbox row, at most twenty attempts each, released for good once published: kept by every step |
| ControlPlaneInvariants.ReachableInv | examples/ecs/internal/repository/mysql/mysql.go:50-1296 | all table invariants hold in every state reachable by any interleaving |
| ControlPlaneTheorems.DecisionsAreWriteOnce | examples/ecs/internal/repository/mysql/mysql.go:318-340 | an approval never disappears, keeps everything but its decision, and once decided never changes |
| ControlPlaneTheorems.GrantsFollowDecisions | examples/ecs/internal/repository/mysql/mysql.go:340-357 | over any run, what a job lists as approved and as denied grows by exactly the digests decided on its run, in the order of the decisions |
| ControlPlaneTheorems.LeaseBudget | examples/ecs/internal/repository/mysql/mysql.go:1129-1174 | a lease spends an attempt and only a resume gives attempts back |
| ControlPlaneTheorems.LeasesAreBounded | examples/ecs/internal/repository/mysql/mysql.go:1129-1174 | in every run from the empty tables a job is leased at most max_attempts times for its creation, each decided approval and each closed questionnaire of its run |
| ControlPlaneTheorems.LostLeaseStaysLost | examples/ecs/internal/repository/mysql/mysql.go:1196-1230 | once an owner no longer holds a job, its heartbeat, complete and fail conflict and change nothing until a lease step gives it the job again |
| ControlPlaneTheorems.ResumeIsNotSwallowed | examples/ecs/internal/repository/mysql/mysql.go:355-355 | after a decision or an answer the job stays ready, with a full budget and the decision in its payload, whatever late reports and lost races for it there are, until somebody leases it or its run is cancelled |
| Executions.HeldIff | examples/ecs/internal/repository/mysql/mysql.go:1129-1230 | a worker holds a job exactly when some lease of the job to it has not been ended by a report of its holder, a new lease, a burial, a resume or a cancellation |
| Executions.ReportStoredIff | examples/ecs/internal/repository/mysql/mysql.go:1208-1230 | the report of an execution is stored exactly when its own lease stands, or a later lease of the job to the same worker does, which it then ends |
| Executions.EventsIgnoreLeases | examples/ecs/internal/repository/mysql/mysql.go:558-631 | whether an event is taken and what it does are the same whatever the jobs table holds |
| Leases.LeasedIff | examples/ecs/internal/repository/mysql/mysql.go:1135-1163 | which jobs a lease step gives out, which it buries and that it leaves every other row alone, by status, attempts, due time and lease of the row |
| Leases.LostRunsFail | examples/ecs/internal/repository/mysql/mysql.go:1138-1140 | after it no run is running whose job is dead, and no other run has changed |
| Leases.LiveLeaseProtects | examples/ecs/internal/repository/mysql/mysql.go:1129-1230 | over any run from the empty tables, a job leased or heartbeaten until some time stays as it is until then, whoever leases jobs meanwhile, unless its holder reports on it, a user decides or answers on its run, or its run is cancelled |
| Leases.TakenOverIff | examples/ecs/internal/repository/mysql/mysql.go:1141-1157 | after any time, the next worker that picks a leased job gets it exactly when the lease has run out before and attempts are left |
| Leases.DelayedJobWaits | examples/ecs/internal/repository/mysql/mysql.go:1141-1230 | over any run, a job given back with a delay is given to nobody before it is due |
| Leases.RowIsLeftAlone | examples/ecs/internal/repository/mysql/mysql.go:1232-1296 | over any run, an event leased to a publisher is not leased to another while that lease runs unless its owner reports on it, and one given back is leased to nobody before its next attempt is due |
| Deadlines.ApprovalWindow | examples/ecs/internal/repository/mysql/mysql.go:310-340 | over any run, an approval can be decided by its tenant, and by nobody else, exactly while nobody has decided it and less than a quarter of an hour has passed since it was asked for |
| Deadlines.InteractionWindow | examples/ecs/internal/repository/mysql/mysql.go:431-470 | over any run, an interaction can be answered by its tenant, and by nobody else, exactly while it is open and less than a day has passed since it was asked for |
| Deadlines.TenantsAreApart | examples/ecs/internal/repository/mysql/mysql.go:50-500 | nothing one tenant creates, cancels, decides or answers changes a run of another, its job, its approvals or its interactions |
| Transactions.RefusedLeavesNothing | examples/ecs/internal/repository/mysql/mysql.go:50-1296 | a transaction that does not go through changes no row of any table |
| Transactions.CreatedIff | examples/ecs/internal/repository/mysql/mysql.go:50-234 | when a run is created, by the rows there are, and the rows it then adds |
| Transactions.CancelledIff | examples/ecs/internal/repository/mysql/mysql.go:276-308 | when a run can be cancelled, and what is left of it and its job; all else is untouched |
| Transactions.DecidedIff | examples/ecs/internal/repository/mysql/mysql.go:310-365 | when an approval can be decided, and how the run and its job go on: queued if it waited, ready at once with all attempts, the decision and the last snapshot; all else is untouched |
| Transactions.AnsweredIff | examples/ecs/internal/repository/mysql/mysql.go:431-454 | when an interaction can be answered |
| Transactions.QuestionnaireAnswered | examples/ecs/internal/repository/mysql/mysql.go:464-500 | how a run goes on after a questionnaire is answered; all else is untouched |
| Transactions.ElicitationAnswered | examples/ecs/internal/repository/mysql/mysql.go:455-463 | after an elicitation is answered no job changes, and the run waits on exactly while something else of it is open |
| Transactions.StartedIff | examples/ecs/internal/repository/mysql/mysql.go:544-556 | when a run can be started |
| Transactions.AppendedIff | examples/ecs/internal/repository/mysql/mysql.go:558-631 | when an event is taken, and which tables it cannot touch |
| Transactions.ApprovalIsOpened | examples/ecs/internal/repository/mysql/mysql.go:592-604 | a request for approval opens one for a quarter of an hour unless there is one for the same call |
| Transactions.InteractionIsOpened | examples/ecs/internal/repository/mysql/mysql.go:605-617 | a request for input opens one for a day unless there is one for the same call, and the run waits exactly while the row under its identifier is open |
| Transactions.ReportedIff | examples/ecs/internal/repository/mysql/mysql.go:1196-1230 | only the holder of a job prolongs, finishes or gives back its lease |
| Transactions.ExpiredLeave | examples/ecs/internal/repository/mysql/mysql.go:1176-1194 | after an expiry no approval is open that has run out, and no run waits for one that just did |
| ControlPlaneWaiting.WaitingRunsHavePendingRow | examples/ecs/internal/repository/mysql/mysql.go:605-617 | awaiting_input implies an interaction row of that run with status pending, lapsed or not, throughout every run of engine-shaped events |
| ControlPlaneWaiting.StepKeepsInputLive | examples/ecs/internal/repository/mysql/mysql.go:438-500 | while every run that waits for input can be answered, a step keeps it so exactly when neither time passes the last live interaction of a waiting run, nor its last live one is closed while a lapsed one stays pending, nor a run asks again under a lapsed one |
| ControlPlaneWaiting.SilentRunsStay | examples/ecs/internal/repository/mysql/mysql.go:438-453 | a wait whose interactions have all lapsed is final: only cancelling the run, starting it again or a report on it moves it |
| ControlPlaneTheorems.SingleActiveIff | examples/ecs/internal/repository/mysql/mysql.go:90-96 | at most one active run per session throughout, exactly when no step restarts a failed run beside an active one |
| ControlPlaneWaiting.StepKeepsApprovalsOpen | examples/ecs/internal/repository/mysql/mysql.go:590-604 | every waiting run keeps an undecided approval, lapsed or not, exactly when the step does not ask again for one that is closed already |
| ControlPlaneWaiting.StrandedRunsStay | examples/ecs/internal/repository/mysql/mysql.go:1176-1194 | a run waiting without an undecided approval stays so under every step but its cancellation or another request |
| ControlPlaneWaiting.StepKeepsDecidable | examples/ecs/internal/repository/mysql/mysql.go:590-604 | while every run that waits for an approval can be decided, a step keeps it so exactly when neither time passes the last live approval of a waiting run nor a run asks again under an existing row while it has none left to decide |
| ControlPlaneWaiting.UnstrandedRunsResolve | examples/ecs/internal/repository/mysql/mysql.go:590-604 | throughout every run of steps that never asks again for a closed approval, a waiting run can be decided or fails at the next expiry |
| ControlPlaneTheorems.OutboxHistory | examples/ecs/internal/repository/mysql/mysql.go:1232-1296 | over any run attempts count leases exactly, at most twenty, none after publication, and a published row is final |
| ControlPlaneTheorems.RetriedCreationReplays | examples/ecs/internal/repository/mysql/mysql.go:51-66 | creating again under the same key, at any later time, returns the first run and changes nothing |
| ControlPlaneExamples.TwoActiveRuns | examples/ecs/internal/repository/mysql/mysql.go:547-547 | a reachable state with two active runs in one session |
| ControlPlaneExamples.StrandedRun | examples/ecs/internal/repository/mysql/mysql.go:600-604 | a reachable state in which a run waits for an approval nobody can decide |
| ControlPlaneExamples.LapsedApproval | examples/ecs/internal/repository/mysql/mysql.go:1179-1185 | a reachable state in which a waiting run has only a lapsed approval |
| ControlPlaneExamples.SilentRun | examples/ecs/internal/repository/mysql/mysql.go:438-453 | a reachable state in which a run waits for input, its job is finished and nobody can answer |
| PublisherExamples.DeliveredTwice | examples/ecs/cmd/agent-worker/main.go:147-189 | a run in which two publishers deliver the same event and only the second report is stored |
| PublisherExamples.DeliveredAfterPublication | examples/ecs/cmd/agent-worker/main.go:147-189 | a run in which a slow publisher delivers an event that was delivered and published meanwhile |
| ControlPlaneExamples.LateReportSwallows | examples/ecs/internal/repository/mysql/mysql.go:1208-1218 | a reachable state whose job is finished, by the report of an earlier execution of the same worker, with its call allowed and its run queued |
| ControlPlaneExamples.LostWorkerCompletes | examples/ecs/internal/repository/mysql/mysql.go:558-598 | a reachable state whose run was completed by a worker that had lost the job to another |
| ApprovalGate.Execution.PrepareToolExecution | internal/engine/runtime.go:1226-1244 | a denial outranks an approval; a dangerous call without one is reported, counted and not run |
| ApprovalGate.DigestsMatchCalls | internal/engine/runtime.go:2233-2239 | every stored approval's digest is that of its tool and arguments |
| ApprovalGate.DangerousCallsWereAllowed | internal/engine/runtime.go:1226-1244 | in any interleaving a call that needs approval passes the gate only if the user allowed the same tool and arguments on that run, in time and before the job was leased, and that decision still stands |
| ApprovalGate.VerdictIff | internal/engine/runtime.go:1226-1244 | over any run, by the tables the job was leased from: a call runs exactly when the user has not denied it on this run and it needs no approval or the user has allowed the same tool and arguments on it; it is refused exactly when the user denied it; the rest ask |
| ApprovalGate.Prepare | internal/engine/runtime.go:1226-1244 | one call of an execution on a leased job has that verdict, and unless it asks nothing is reported or counted |
| ApprovalGate.AskedAndAllowed | internal/engine/runtime.go:1233-1244 | once the user has allowed what a call asked for, every execution started later on the run runs it, unless the user has denied the same call there |
| ApprovalGate.DeniedCallsAreRefused | internal/engine/runtime.go:1227-1232 | a call the user denied is refused by every later execution of that run |
| SessionTree.BranchEntries | internal/engine/runtime.go:2083-2110 | terminates on every parent map, cyclic ones included, and returns the walk from the leaf, root first |
| SessionTree.BranchIsClimb | internal/engine/runtime.go:2083-2110 | for every log, cyclic ones included, a branch is the climb from its leaf by parents, root first, none twice, up to where there is no parent to go on to; without a leaf it is the whole log |
| SessionTree.BranchIsPath | internal/engine/runtime.go:2083-2110 | on a well-formed log a branch is the path of parents to the leaf, as far as they are known |
| SessionTree.AppendExtendsBranch | internal/engine/runtime.go:1917-1930 | appending at a leaf, known or not, keeps parents earlier than children, extends the branch by exactly the new entry and changes no other branch |
| SessionTree.PathIsStable | internal/engine/runtime.go:1928-1929 | entries written later never change the path to an earlier one |
| SessionTree.BranchesSharePrefix | internal/engine/compaction.go:527-541 | an entry of one branch is on another exactly when it lies in their common prefix |
| Session.Execution.AppendEntry | internal/engine/runtime.go:1917-1930 | the log grows by one entry whose parent is the leaf, and the entry becomes the leaf |
| Session.Execution.Compact | internal/engine/compaction.go:404-489 | prepares the compaction, lets others write while the summariser is at work, then appends it at the leaf there is by then; changes nothing itself when there is nothing to compact or the summariser fails |
| Session.Execution.SummarizeAbandonedBranch | internal/engine/compaction.go:526-577 | for any log, leaf and target: only moves when nothing is left behind; otherwise others write while the summariser is at work, then it moves to the target and appends a summary of what was left behind, or stays when the summariser fails |
| Session.FirstLeft | internal/engine/compaction.go:529-541 | the backward search stops one past the last entry whose identifier the target's branch has |
| Session.SharedIsCommon | internal/engine/compaction.go:529-541 | in a well-formed log that is the end of the common prefix of the two branches |
| Session.LeftBehindIsOffPath | internal/engine/compaction.go:546-551 | what is summarised are exactly the messages of the current branch that are not on the target's path, in order |
| Session.LeavingCoversIff | internal/engine/compaction.go:546-575 | the summary of an abandoned branch goes back to every message left on it exactly when none was written while it was |
| Session.LeavingIs | internal/engine/compaction.go:526-577 | in any session, leaving a branch writes a summary of exactly the messages off the target's path at the end of the target's branch; nothing when there are none; and stays on the branch when no summary comes |
| Session.CompactingIs | internal/engine/compaction.go:404-489 | in any session, a compaction stands at the end of the branch there is by then, prepared from the branch there was, keeping 20000 tokens when no number is given |
| Session.AppendingIs | internal/engine/runtime.go:1917-1930 | in any session, appending adds one entry to the end of the branch, and navigating continues the target's branch and writes nothing |
| Session.EveryBranchIsARun | internal/engine/compaction.go:404-577 | a session that appends, compacts, navigates and abandons, to targets that need not exist and with entries written by others meanwhile, stays well formed, and each of its branches is a run of writes and compactions |
| Session.NoBranchSkipsOrRepeats | internal/engine/compaction.go:219-350 | hence on every branch of every such session no message is skipped or summarised twice |
| Compaction.PrepareCompaction | internal/engine/compaction.go:219-350 | the loops compute the boundary, cut, turn start and three message lists of the specification |
| Compaction.FindCut | internal/engine/compaction.go:240-273 | the crossing point, the first valid cut from it on or else the first of all, moved back over bookkeeping |
| Compaction.MessageTokens | internal/engine/compaction.go:166-172 | the token estimate of a message |
| Compaction.CollectMessages | internal/engine/compaction.go:302-334 | the messages of a stretch of entries, in order |
| Compaction.MessagesFromEntries | internal/engine/runtime.go:2012-2072 | rebuilds the conversation from the last compaction, its cached tail if it has one |
| CompactionCuts.PartsOf | internal/engine/compaction.go:274-335 | read off the entries: a turn is split exactly when an entry that begins one lies between boundary and cut and the cut is not a message of the user; the history ends and the turn prefix begins at the last such entry |
| CompactionCuts.CutIs | internal/engine/compaction.go:231-273 | read off the entries: a branch can be cut exactly when an entry from the boundary on can be cut at; the cut is the first such entry from the message on from which enough tokens are kept, or the first of all, moved back over what is neither message nor compaction |
| CompactionCuts.BoundaryIs | internal/engine/compaction.go:219-235 | what is not summarised yet starts at the first entry under the identifier the last compaction names, or at the beginning |
| CompactionCuts.PreparedWhen | internal/engine/compaction.go:219-338 | a compaction is prepared exactly for a branch that does not end in one, can be cut at an entry with an identifier, and has a message before the cut |
| CompactionCuts.MessagesAreReadOff | internal/engine/compaction.go:352-366 | the messages of a stretch are those of its entries, in order, and every entry that stands for a message is among them |
| CompactionCuts.TokensRoundUp | internal/engine/compaction.go:166-172 | four characters a token, begun ones counted whole, a picture counting as 4800 characters |
| CompactionCuts.EntryShows | internal/engine/runtime.go:2042-2070 | what each kind of entry adds to the conversation |
| CompactionTheorems.PreparationPartitions | internal/engine/compaction.go:300-334 | summarised, turn prefix and kept are together exactly what the last compaction had kept, in order, and the kept part is strictly shorter |
| CompactionTheorems.CrossingReaches | internal/engine/compaction.go:254-262 | the crossing point is the last message from which on at least the wanted number of tokens is kept |
| CompactionTheorems.KeptIsRecent | internal/engine/compaction.go:254-273 | what is kept begins at the crossing point or is less than was asked for, bookkeeping aside, unless there is no place to cut from there on |
| CompactionTheorems.NothingSkippedOrRepeated | internal/engine/compaction.go:219-489 | over any run of writes and compactions, whatever is written between preparing a compaction and appending it, the lists given to the summariser followed by the messages still kept are the whole history of the branch |
| CompactionTheorems.CompactionMovesTheBoundary | internal/engine/compaction.go:223-237 | after a compaction the next one starts at the entry this one kept first |
| CompactionTheorems.SummaryCoversHistoryIff | internal/engine/compaction.go:448-471 | the last summary goes back to every message no longer kept, exactly when no compaction summarised only the start of a turn while there was a previous summary |
| CompactionTheorems.StepLineage | internal/engine/compaction.go:450-463 | what the new summary goes back to, in both cases |
| CompactionTheorems.ReplayAfterCompaction | internal/engine/runtime.go:2012-2072 | after a compaction and anything later the rebuilt conversation is the summary, what was kept, then what came later |
| CompactionTheorems.RetainedTailAgreesIff | internal/engine/runtime.go:2024-2039 | rebuilding from the cached tail equals rebuilding from the first kept entry, exactly when the tail is empty, or no branch summary was kept and nothing shown was written between preparing and appending |
| CompactionPairs.CutSparesPairs | internal/engine/compaction.go:240-276 | a cut never falls between a call and a result that follows it without a place to cut, not even after backing off |
| CompactionPairs.KeptResultsKeepTheirCalls | internal/engine/compaction.go:240-334 | when all tool results follow their calls so, no kept result has its call summarised away |
| CompactionPairs.CutsAtIff | internal/engine/compaction.go:240-276 | the places where some budget cuts a branch are exactly the first place to cut, and the first from each message that costs tokens, moved back over bookkeeping |
| CompactionPairs.EveryTailAnswersIff | internal/engine/compaction.go:219-350 | no budget keeps a result without its call exactly when no result has such a place, with something before it to summarise, between its last call and itself |
| CompactionExamples.SecondCompactionDrops | internal/engine/compaction.go:450-463 | a six-entry branch on which the second compaction drops the first summary |
| CompactionExamples.SteeringSplitsPair | internal/engine/runtime.go:1997-1998 | a steering message between call and result lets the cut separate them |
| CompactionExamples.TailLosesBranchSummary | internal/engine/runtime.go:2024-2039 | a five-entry branch whose kept branch summary is missing from the rebuilt conversation |
| CompactionExamples.TailLosesLateMessage | internal/engine/runtime.go:2024-2039 | a four-entry branch and a message polled during its compaction that is missing from the rebuilt conversation |
| CompactionExamples.LeavingForgetsLateMessage | internal/engine/compaction.go:546-575 | a session in which a message polled while a branch is abandoned is in no summary |
| Fork.Sessions.SelectPath | examples/ecs/internal/repository/mysql/mysql.go:880-895 | the parents of an entry up to its root; none when one has no row; and where they go round in a cycle, that the loop does not end; for any rows |
| Fork.Sessions.ForkTransaction | examples/ecs/internal/repository/mysql/mysql.go:847-932 | takes the fork transaction exactly, its error cases and duplicate names included |
| Fork.Sessions.ForkSession | examples/ecs/internal/repository/mysql/mysql.go:837-933 | replays or refuses a known key, otherwise runs the transaction |
| Fork.ForkHoldsTheBranch | examples/ecs/internal/repository/mysql/mysql.go:867-925 | a fork stores exactly the engine's branch of the source at the target or its parent, root first, is well formed, is its own active branch, and leaves every other session alone |
| Fork.ForkSucceedsIff | examples/ecs/internal/repository/mysql/mysql.go:853-914 | on a well-formed source a new request succeeds exactly when the tenant owns it, the target exists, has a parent if needed, and the name is free |
| Fork.ForkComesTo | examples/ecs/internal/repository/mysql/mysql.go:837-933 | what a new request comes to, for any source: not found, a conflict, a loop without end, or a fork under the name asked for or derived from the key, holding the entries up to where it ends and bearing the name of its source |
| Fork.NowhereToEnd | examples/ecs/internal/repository/mysql/mysql.go:853-872 | without an entry to end at it is not found, before an entry without a parent it is a conflict |
| Fork.AncestryMeans | examples/ecs/internal/repository/mysql/mysql.go:880-895 | following parents ends at a root, at a parent that is no entry, or comes round again, and gives the entries passed in the first case only |
| Fork.SnapshotStores | examples/ecs/internal/repository/mysql/mysql.go:648-706 | a snapshot stores the entries that have an identifier, refuses two under one, touches no other session and renames it only when it says so |
| Fork.ForkedOncePerKey | examples/ecs/internal/repository/mysql/mysql.go:838-846 | after a fork its key gives that session again and changes nothing, whatever was forked, created or replaced by snapshots since, and conflicts for another source |
| Fork.RacingForks | examples/ecs/internal/repository/mysql/mysql.go:906-914 | of two workers past the first look for the key the second never makes a second fork, and gets the first one's session exactly when the name it asks for is taken and snapshots since have left the rows from the target up to a root |
| Fork.TwinNotFound | examples/ecs/internal/repository/mysql/mysql.go:867-872 | a request that its own twin and a snapshot overtake is answered not found |
| Fuzzy.NormalizeFuzzy | internal/engine/file_edit.go:141-183 | the nested loops compute the tolerant reading and its offset map |
| Fuzzy.TrimLine | internal/engine/file_edit.go:160-167 | exactly the white space at the end of a line is dropped |
| FuzzyMeaning.ReadsAlikeIff | internal/engine/file_edit.go:185-198 | two characters read alike exactly when they are the same or both in one of four sets, given by their code points: single quotes, double quotes, dashes, blanks |
| FuzzyMeaning.SameReadingIff | internal/engine/file_edit.go:141-198 | two texts read alike exactly when, without the white space at line ends, they are equally long and hold such characters in the same places |
| FuzzyTheorems.OffsetsMap | internal/engine/file_edit.go:138-183 | the offset map has one entry more than the reading, is strictly monotone, points each character to the one it was read from, omits only white space at line ends, and ends with the text |
| FuzzyTheorems.RegionReadsBack | internal/engine/file_edit.go:99-101 | a trimmed stretch of the reading comes from a non-empty region whose own reading is that stretch |
| FuzzyTheorems.NormIsTrimmed | internal/engine/file_edit.go:160-167 | no reading ends in white space other than a newline |
| FileEdit.FindMatches | internal/engine/file_edit.go:72-103 | the loops find each edit, exactly or, if any is missing, all tolerantly, the first failure winning |
| FileEdit.SortMatches | internal/engine/file_edit.go:104-104 | matches in the order of the text, equal positions in the order of the edits |
| FileEdit.Splice | internal/engine/file_edit.go:111-115 | splicing from the last region to the first equals replacing all regions at once |
| FileEdit.ApplyFileEdits | internal/engine/file_edit.go:54-124 | the edited file or the first error, and a patch that turns the old lines into the new |
| FuzzyMeaning.EditAcceptedIff | internal/engine/file_edit.go:63-100 | a single edit is accepted exactly when it has something to look for that is found in one place: as it stands if it stands anywhere, otherwise up to characters of one kind and white space at line ends |
| FuzzyMeaning.EditsAcceptedIff | internal/engine/file_edit.go:63-110 | several are accepted exactly when each is found so in one place, tolerantly as soon as one stands nowhere as it is, and what is found does not overlap |
| FuzzyMeaning.EditWrites | internal/engine/file_edit.go:101-118 | an accepted edit writes its new text over one stretch of the file that is, or reads like, the text looked for; the rest of the file is as it was |
| FuzzyMeaning.RefusedBecause | internal/engine/file_edit.go:63-118 | which error a single edit is refused with, and exactly when |
| FuzzyMeaning.EditedIff | internal/engine/file_edit.go:54-124 | a file is edited exactly when its edits are accepted and change something, and is written with the mark and line ending it had |
| FuzzyMeaning.EndingsRead | internal/engine/file_edit.go:133-136 | a carriage return, alone or before a line feed, is read as one line feed, and nothing else changes |
| FuzzyMeaning.FileFormat | internal/engine/file_edit.go:55-62 | the mark is U+FEFF; the file has carriage returns exactly when its first line feed has one before it |
| FileEditTheorems.UniqueIff | internal/engine/file_edit.go:90-96 | a text is accepted as unique exactly when it occurs and every other occurrence overlaps the first |
| FileEditTheorems.MatchedRegion | internal/engine/file_edit.go:97-102 | an accepted match is a non-empty region that is, or reads as, the text looked for, unless the file is one line of white space |
| FileEditTheorems.NoOverlapIff | internal/engine/file_edit.go:104-110 | comparing sorted neighbours finds an overlap exactly when any two regions overlap |
| FileEditTheorems.AcceptedIff | internal/engine/file_edit.go:54-115 | acceptance said without order, and the result read off position by position |
| FileEditTheorems.OrderIrrelevantIff | internal/engine/file_edit.go:54-124 | the order of the edits never matters, exactly when the file is more than one line of white space |
| FileEditTheorems.OrderMatters | internal/engine/file_edit.go:84-115 | for every file of one line of white space, two edits whose order shows |
| FileEditTheorems.EndingsRestoredIff | internal/engine/file_edit.go:59-63 | normalising and restoring line endings gives the file back exactly when it uses one ending throughout |
| FileEditTheorems.MixedEndings | internal/engine/file_edit.go:59-63 | a four-character body with two kinds of line ending that does not come back |
| FileEditTheorems.OnlyRegionsChange | internal/engine/file_edit.go:54-124 | in such a file accepted edits replace regions of the stored file; byte order mark, line endings and everything else outside come back unchanged |
| Hunk.RenderEditDiff | internal/engine/file_edit.go:200-242 | the hunk between the longest common first lines and the longest common last lines left; its counts are right and it turns the old lines into the new |
| Hunk.HunkIsRight | internal/engine/file_edit.go:210-240 | for all texts the header counts are the lines that follow, neither is zero, and applying the hunk to the old lines gives the new |
| Hunk.HunkShows | internal/engine/file_edit.go:210-240 | a hunk shows up to four lines before the change, the lines removed, the lines added and up to four lines after it, in this order |
| Hunk.PatchGivesTheNewText | internal/engine/file_edit.go:200-242 | the patched lines joined are the new text |
| Lines.JoinSplit | internal/engine/file_edit.go:201-201 | splitting at a separator and joining again is the identity |
| Lines.SplitJoin | resource/agent_package_manifest.go:272-278 | joining lines without separator and splitting again is the identity |
| AgentPackage.Builder.Collect | resource/agent_package.go:91-135 | succeeds with everything reachable selected and its delegates frozen, terminates because rank falls, never reports a cycle; fails only when something reachable is bad, with an error that is true of it |
| AgentPackage.Builder.Build | resource/agent_package.go:47-171 | succeeds exactly when everything reachable from the entry is good; then selects exactly that; an error is true of an agent reachable from the entry |
| Delegation.BringsInIff | resource/agent_package.go:107-118 | read off the definitions: with the tool, an agent brings in exactly the names it lists, or with "*" exactly those of the agents at hand in a role it may delegate to, sub and meta for main, meta for sub; without the tool nobody |
| Delegation.BroughtIff | resource/agent_package.go:91-135 | what is collected for an entry are exactly the names it brings in, directly or through others |
| Delegation.FitIff | resource/agent_package.go:103-128 | an agent is fit to be packaged exactly when it is at hand under a name of letters, digits and ._- and brings in only agents at hand that it may delegate to |
| Delegation.BuiltIsWhole | resource/agent_package.go:137-171 | what is written: one profile for the entry and for everyone it brings in, its delegates spelled out, in order, each once, and the dependencies, required and optional tools that follow |
| AgentPackage.SortedSet | resource/agent_package_manifest.go:263-270 | the sorted list of a set, whatever order its elements are met in |
| AgentPackage.ToolSets | resource/agent_package.go:141-152 | the required and optional tools of the selected agents |
| AgentPackage.OnlyReachable | resource/agent_package.go:91-135 | a closed selection reached from the entry is the reachable set |
| AgentPackageManifest.ValidateAgentPackage | resource/agent_package_manifest.go:161-261 | accepts exactly the valid packages, and what it reports of any other is true of it |
| AgentPackageManifest.BuiltPassesIff | resource/agent_package_manifest.go:161-261 | what the builder writes passes exactly when no selected tool is blank and every selected agent without the subagent tool lists only selected agents it might delegate to |
| AgentPackageManifest.UnselectedDelegate | resource/agent_package.go:110-132 | one agent, without the subagent tool and with a delegate: everything reachable is good, and what is built fails the check |
| AgentPackageManifest.BuildAgentPackage | resource/agent_package.go:47-276 | a package is built exactly on this condition on the definitions at hand; it is valid and whole: the entry with exactly everyone it brings in, directly or through others |
| AgentPackageManifest.PassesCheckIff | resource/agent_package_manifest.go:160-279 | read off the package: it passes exactly when names are well formed, every agent delegates only within it and within its role, and the declared names and tools are those of its agents, where no name is empty or has a NUL |
| AgentPackageManifest.DeclaredAreExpected | resource/agent_package_manifest.go:272-278 | names without NUL that compare equal once sorted and joined are the same names |
| Names.ListingIsUnique | resource/agent_package_manifest.go:263-270 | a sorted list without repetition is determined by its elements |
| Names.SortSorts | resource/agent_package_manifest.go:268-276 | sorting orders and permutes |
| Names.LeqIff | resource/agent_package_manifest.go:268-276 | names are in order of their first different character, a beginning before what it begins |
| Names.UniqueOfAscending | resource/agent_package.go:117-118 | sorting and removing repetitions lists a set |
| Paging.TruncateHead | internal/engine/truncate.go:30-67 | the loop keeps the first lines of the specification |
| Paging.HeadIs | internal/engine/truncate.go:30-67 | when a text is cut, how many first lines are kept and why, and the counts reported |
| Paging.CountedJoin | internal/engine/truncate.go:20-29 | the lines counted have no newline, and joined they are the text but for a newline at its end |
| Paging.FittingIsLongest | internal/engine/truncate.go:45-62 | what is kept is the longest run of first lines within both limits, and the reason given is what stops it |
| Paging.TruncateTail | internal/engine/truncate.go:68-106 | the longest run of last lines within both limits, or the longest end of a too long last line that begins at a character |
| Paging.Read | internal/engine/tools.go:285-317 | one page and what it says about continuing |
| Paging.CutIsLongest | internal/engine/truncate.go:30-67 | a page stops only where one more line would exceed a limit |
| Paging.PageIsStretch | internal/engine/tools.go:285-317 | a page is a stretch of lines, its next offset is that of the first line not shown and is valid |
| Paging.PageIsFull | internal/engine/tools.go:285-317 | a page shows no more lines than asked for, and fewer only at the end of the file, after 2000 lines or where one more would make more than 51200 bytes |
| Paging.OffsetsAre | internal/engine/tools.go:285-300 | an offset below one reads from the first line, one past the last gives the number of lines |
| Paging.NoLimitStalls | internal/engine/tools.go:290-312 | a limit below one shows nothing and gives the same offset again |
| Paging.PagesMakeTheFile | internal/engine/tools.go:285-317 | following the offsets ends, and the pages joined by newlines are the file; it gets through exactly when no line exceeds the byte limit |
| ToolValidation.ValidateAt | internal/engine/tool_validation.go:63-252 | extends the list of errors it is given, leaves it as it is exactly when the value is valid, and everything it adds is a problem of the value at the path it names |
| SchemaMeaning.AcceptsIff | internal/engine/tool_validation.go:63-252 | valid means: all of, some of, exactly one of and not; one of the types named; every required field there, every named field and every other one as its schema says; every element satisfying the item schema, or the schema in its place |
| SchemaMeaning.BendsIff | internal/engine/tool_validation.go:316-379 | which values bend to which type |
| SchemaMeaning.BendingKeepsMeaning | internal/engine/tool_validation.go:316-379 | truth values bend to numbers and texts and back to themselves, null to what stands for nothing and back, and a text to the number it reads as |
| SchemaMeaning.FirstTypeDecides | internal/engine/tool_validation.go:268-277 | the first type of the list the value bends to decides what it becomes |
| SchemaMeaning.FirstAlternativeDecides | internal/engine/tool_validation.go:258-267 | the first alternative the value satisfies once bent to it is taken, none leaves it alone |
| SchemaMeaning.InsideIs | internal/engine/tool_validation.go:278-313 | each field and each element is bent by the schema that applies to it, where the type is named, and all else stays |
| ToolValidation.ValidateObject | internal/engine/tool_validation.go:119-142 | the same for required, named and additional properties, in whatever order fields are met |
| ToolValidation.ValidateAlternatives | internal/engine/tool_validation.go:73-98 | the same for anyOf, oneOf and not |
| ToolValidation.CoerceElements | internal/engine/tool_validation.go:298-311 | array elements are bent in place, each by the schema that applies to it |
| ToolValidation.Fields.CoerceFields | internal/engine/tool_validation.go:279-296 | object fields are bent in place, named ones first |
| ToolValidationTheorems.SettledStays | internal/engine/tool_validation.go:254-314 | under every schema, bending leaves a valid value as it is when, at every depth, the alternative that counts is satisfied before anything is bent |
| ToolValidationTheorems.ValidStaysIff | internal/engine/tool_validation.go:254-314 | and only then, at any depth, where no stage of bending comes after alternatives that bend: no types beside them, not both anyOf and oneOf, none inside allOf |
| ToolValidationTheorems.ChoiceStaysIff | internal/engine/tool_validation.go:258-267 | among alternatives without alternatives: exactly when the value satisfies the first one it can be bent to |
| ToolValidationTheorems.ValidStays | internal/engine/tool_validation.go:254-314 | without alternatives, bending leaves every already valid value as it is, at any depth |
| ToolValidationTheorems.AcceptedArgumentsAreStable | internal/engine/tool_validation.go:36-44 | without alternatives, allOf included, accepted arguments are left as they are when they are bent and checked again |
| ToolValidationTheorems.AcceptedTwiceIff | internal/engine/tool_validation.go:36-44 | with alternatives, exactly when the alternative that counts is satisfied |
| ToolValidationTheorems.AllOfTwiceIff | internal/engine/tool_validation.go:255-257 | for every value and every two types under allOf, bending twice equals bending once exactly when the value is none of three kinds: a whole number not written as it would be (integer, string), text that reads zero or one (boolean, number), text that reads zero (null, number) |
| ToolValidationTheorems.BesideTwiceIff | internal/engine/tool_validation.go:255-278 | the same for one type under allOf beside a type of the schema itself |
| ToolValidationTheorems.ThreeTypesDiffer | internal/engine/tool_validation.go:255-257 | along three types bending twice may differ without any of these |
| ToolValidationTheorems.CoerceTwice | internal/engine/tool_validation.go:254-379 | without alternatives and allOf, bending twice equals bending once, at any depth |
| ToolValidationTheorems.BentMatches | internal/engine/tool_validation.go:316-379 | a bent value has the type it was bent to, but for whole numbers too large to be read as integers |
| ToolValidationTheorems.AlternativesChangeValid | internal/engine/tool_validation.go:258-267 | with anyOf a valid value may change |
| ToolValidationTheorems.TypesBendBack | internal/engine/tool_validation.go:258-278 | with anyOf and a type the change may be undone, so the condition is not needed there |
| ToolValidationTheorems.OneOfBendsBack | internal/engine/tool_validation.go:258-267 | likewise with oneOf after anyOf |
| ToolValidationTheorems.MembersBendBack | internal/engine/tool_validation.go:255-257 | likewise with a member of allOf after one that has alternatives |
| ToolValidationTheorems.AllOfTwiceDiffers | internal/engine/tool_validation.go:255-257 | with allOf bending twice may differ from bending once |

## Left out

- SQL isolation, connections and JSON encoding: a transaction is one atomic step and
  JSON round trips are the identity; `FOR UPDATE SKIP LOCKED` is the parameter
  `locked`, the rows others hold.
- Identifiers, hashing and time: identifiers are opaque and a taken key makes the
  insert fail; SHA-256 is injective; the clock is an integer that never goes back.
- Collation: keys are compared exactly, while the tables' collation ignores case.
- Plans, todos, run controls, usage, names, error texts and the columns nothing
  modelled reads.
- Worker.ProcessJob: heartbeats, polls and the session refresh of a running job, and
  what others do meanwhile, because it is one sequential call; among others, what holds
  of its steps is what holds of any run (`Worker.HeldMeansLeasedAgain`,
  `ControlPlaneTheorems.LostLeaseStaysLost`).
- Repository.Repository.PublishOutboxOnce: one round that nobody disturbs, at one moment;
  rounds among others, row by row, are the module `Publishers`.
- Publishers.PublishedWereDelivered: assumes that no two publishers run under one name;
  whether a delivery succeeds is a parameter.
- Repository.Repository.Project: plan and todo events, which move no row modelled here.
- Repository.Repository.AppendRunEvent: payloads that cannot be normalised, and plan and
  todo events.
- Repository.Repository.CreateRun: which session state a new job starts from is the
  parameter `restored`, because the query for it reads columns that are not modelled; the
  plan a run may be created for, and its conflict, because plans are not.
- The outbox sequence number: a row's number is its place in the order of insertion, without
  the gaps that transactions rolled back leave.
- ControlPlaneWaiting.WaitingRunsHavePendingRow: assumes that events are shaped as the
  engine shapes them, because the repository stores whatever identifiers it is given.
- ControlPlaneTheorems.ResumeIsNotSwallowed: ends at the next lease, because after it an
  earlier execution's report may end the job (`Executions.ReportStoredIff`).
- Leases.LiveLeaseProtects: a worker whose clock or heartbeat fails keeps working after its
  lease; what its late reports then do is `Executions.ReportStoredIff`.
- ApprovalGate.DangerousCallsWereAllowed: makes the same assumption on events, because a
  digest is stored as it is reported.
- ApprovalGate.VerdictIff: likewise; and a denial that only records that nobody decided in time is
  none, because the source lists no digest for it.
- ApprovalGate.Execution.PrepareToolExecution: which calls need approval is a parameter,
  because it is decided by patterns and by tool servers.
- Session.Execution.Compact: empty answers of the summariser, and extensions that change or
  cancel a compaction; what they write to the log meanwhile is among `late`.
- Compaction.PrepareCompaction: the lists of read and modified files, and the token count
  it reports.
- Session.EveryBranchIsARun: targets of navigation are not empty, because the service refuses
  an empty one; a new identifier is one that no entry, parent, leaf or target names.
- Fork.Sessions.SelectPath: keeps a set of what it has seen, which the source does not,
  because a method here has to end where the source's loop does not.
- File texts are sequences of code points, one replacement for each; bytes that are not
  UTF-8 are not modelled.
- FileEdit.SortMatches: keeps the order of the edits at equal positions, as the source's
  sort does for up to twelve of them; more than one match at a position occurs only in
  a file of white space.
- The numbered display of an edit, labels and paths in messages, and the lock around
  changing a file.
- Reading agent profiles and writing them: a profile reads back as it was written, and
  prompts exist; version, licence and the other fields of the manifest.
- AgentPackageManifest.ValidateAgentPackage: which of several errors is reported, because
  the source meets agents in no fixed order.
- Paging.Read: images and the wording of messages; the next offset is a value instead of
  text.
- ToolValidation.ValidateAt: `$ref`, whose resolution need not end; keywords that look at one
  value alone are one abstract test.
- ToolValidationTheorems.ValidStaysIff: schemas in which a stage of bending comes after
  alternatives that bend, because it may undo what they changed: types beside them
  (`TypesBendBack`), both `anyOf` and `oneOf` (`OneOfBendsBack`), alternatives inside a member
  of `allOf` (`MembersBendBack`); the condition is still enough there (`SettledStays`).
- ToolValidationTheorems.AcceptedTwiceIff: excludes the same schemas, and its condition is on
  the value accepted, which is the one that is stored.
- ToolValidationTheorems.AllOfTwiceIff: `allOf` lists of more than two types, for values that
  are rejected, because there a change may also be made only the second time
  (`ThreeTypesDiffer`) or be undone by any later member; accepted values are covered for every
  list (`AcceptedArgumentsAreStable`).
- Reading and writing of numerals: a parameter with the laws the proofs need; minus zero
  is not told from zero.
- ToolValidation.CoerceElements: the elements of one array are replaced in place, while
  what is inside them is a value, so sharing between nested values is not modelled.
- ToolValidation.Fields.CoerceFields: likewise for the fields of one object.
- AgentPackageManifest.PassesCheckIff: excludes empty names and names with a NUL, because the
  check joins names with NUL before it compares them.
- Providers, the conversation loop, tool servers, HTTP handlers, configuration, package
  download, and shell and search tools.
