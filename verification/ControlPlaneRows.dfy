/**
 The control plane row by row: what any step does to one job, run, approval,
 interaction or outbox row, and which rows it may add. `StepEvolves` proves that
 every transaction does exactly that, whichever statements it is made of, so that
 the invariants can be proved from `Evolves` alone.
 */
module ControlPlaneRows {
  import opened Wrappers
  import opened ControlPlane

  // ---------------------------------------------------------------- one step, row by row

  predicate EventFree(db: Db, event: Id) {
    event !in db.events && event !in db.outbox
  }

  /** A user's decision on an approval of the run. */
  predicate DecidesOn(db: Db, s: Step, run: Id) {
    && s.DecideApproval? && CanDecide(db, s.tenant, s.approval) && db.approvals[s.approval].run == run
    && EventFree(db, s.event)
  }

  predicate Decides(db: Db, s: Step, run: Id) {
    DecidesOn(db, s, run) && HasJob(db, run)
  }

  /** An answer to, or the withdrawal of, a questionnaire of the run. */
  predicate AnswersOn(db: Db, s: Step, run: Id) {
    && s.AnswerInteraction? && CanAnswer(db, s.tenant, s.interaction) && db.interactions[s.interaction].run == run
    && db.interactions[s.interaction].kind == Questionnaire && EventFree(db, s.event)
  }

  predicate Answers(db: Db, s: Step, run: Id) {
    AnswersOn(db, s, run) && HasJob(db, run)
  }

  predicate Resumes(db: Db, s: Step, run: Id) {
    DecidesOn(db, s, run) || AnswersOn(db, s, run)
  }

  predicate Leases(db: Db, s: Step, j: Id) {
    s.LeaseJobs? && j in db.jobs && j in s.picked && Eligible(db.jobs[j], db.now)
  }

  predicate Cancels(db: Db, s: Step, run: Id) {
    && s.CancelRun? && s.run == run && run in db.runs && db.runs[run].tenant == s.tenant
    && IsActive(db.runs[run].status) && EventFree(db, s.event)
  }

  /** The whole life of one job row. */
  function JobAfter(db: Db, s: Step, j: Id): Job
    requires j in db.jobs && db.jobs[j].run in db.runs
  {
    var job := db.jobs[j];
    var snapshot := db.runs[job.run].snapshot;
    if DecidesOn(db, s, job.run) then
      Requeue(job, DecidedPayload(job.payload, s.decision, db.approvals[s.approval].hash, snapshot), db.now)
    else if AnswersOn(db, s, job.run) then
      Requeue(job, WithSnapshot(job.payload.(resume := true, resumePrompt := Some((s.interaction, s.withdrawn))), snapshot), db.now)
    else if Leases(db, s, j) then LeaseTo(job, s.owner, db.now + s.lease)
    else if s.LeaseJobs? && Exhausted(job, db.now) then KillJob(job)
    else if Cancels(db, s, job.run) && IsOpen(job) then KillJob(job)
    else if s.HeartbeatJob? && s.job == j && Holds(db, j, s.owner) then job.(leaseUntil := Some(db.now + s.lease))
    else if s.CompleteJob? && s.job == j && Holds(db, j, s.owner) then job.(status := Finished, owner := None, leaseUntil := None)
    else if s.FailJob? && s.job == j && Holds(db, j, s.owner) then
      job.(status := if job.attempts >= job.maxAttempts then Dead else Ready,
           availableAt := db.now + s.retryAfter, owner := None, leaseUntil := None)
    else job
  }

  predicate Elicits(db: Db, s: Step, run: Id) {
    && s.AnswerInteraction? && CanAnswer(db, s.tenant, s.interaction) && db.interactions[s.interaction].run == run
    && db.interactions[s.interaction].kind == Elicitation && EventFree(db, s.event)
  }

  predicate Reports(db: Db, s: Step, run: Id) {
    && s.AppendRunEvent? && s.run == run && run in db.runs && EventFree(db, s.event)
    && (s.content.SessionSnapshot? ==> db.runs[run].tenant == s.tenant)
  }

  function Moved(run: Run, to: RunStatus): Run {
    run.(status := to, version := run.version + 1)
  }

  /** The whole life of one run row. */
  function RunAfter(db: Db, s: Step, r: Id): Run
    requires r in db.runs
  {
    var run := db.runs[r];
    if s.StartRun? && s.run == r && IsStartable(run.status) then Moved(run, Running)
    else if Cancels(db, s, r) then Moved(run, Cancelled)
    else if Decides(db, s, r) && run.status == AwaitingApproval then Moved(run, Queued)
    else if Answers(db, s, r) && run.status == AwaitingInput then Moved(run, Queued)
    else if Elicits(db, s, r) && (run.status == Running || run.status == AwaitingInput) then
      Moved(run, if HasPending(CloseInteraction(db, s), r) then AwaitingInput else Running)
    else if Reports(db, s, r) then ReportedRun(db, s, r)
    else if s.LeaseJobs? && ExecutorLost(db.runs, BuryExhausted(db.jobs, db.now), r) then Moved(run, Failed)
    else if s.ExpireApprovals? && run.status == AwaitingApproval && HasLapsed(db, r) then Moved(run, Failed)
    else run
  }

  function ReportedRun(db: Db, s: Step, r: Id): Run
    requires r in db.runs && s.AppendRunEvent?
  {
    var run := db.runs[r];
    match s.content
    case RunCompleted => if run.status == Running then Moved(run, Completed) else run
    case RunFailed => if run.status == Queued || run.status == Running then Moved(run, Failed) else run
    case ApprovalRequested(_, _, _, _, _) => if run.status == Running then Moved(run, AwaitingApproval) else run
    case InputRequested(interaction, _, _) =>
      if run.status != Running then run
      else if IsPending(ProjectInteractions(db, r, s.content), interaction) then Moved(run, AwaitingInput)
      else Moved(run, Running)
    case SessionSnapshot(entries) => run.(snapshot := Some(entries), version := run.version + 1)
    case Progress(_) => run
  }

  /** A decision is written once: by a user before the approval lapses, or as a denial after it has. */
  function ApprovalAfter(db: Db, s: Step, a: ApprovalId): Approval
    requires a in db.approvals
  {
    var row := db.approvals[a];
    if s.DecideApproval? && s.approval == a && Decides(db, s, row.run)
    then row.(decision := Some(s.decision), decidedAt := Some(db.now))
    else if s.ExpireApprovals? && Lapsed(row, db.now)
    then row.(decision := Some(Deny), decidedAt := Some(db.now))
    else row
  }

  predicate Closes(db: Db, s: Step, i: InteractionId) {
    && s.AnswerInteraction? && s.interaction == i && CanAnswer(db, s.tenant, i) && EventFree(db, s.event)
    && (db.interactions[i].kind == Questionnaire ==> HasJob(db, db.interactions[i].run))
  }

  function InteractionAfter(db: Db, s: Step, i: InteractionId): Interaction
    requires i in db.interactions
  {
    if Closes(db, s, i) then db.interactions[i].(status := if s.withdrawn then Withdrawn else Answered)
    else db.interactions[i]
  }

  function OutboxAfter(db: Db, s: Step, e: Id): OutboxRow
    requires e in db.outbox
  {
    var row := db.outbox[e];
    if s.LeaseOutbox? && e in s.picked && Sendable(row, db.now) then LeaseRow(row, s.owner, db.now + s.lease)
    else if s.MarkOutboxPublished? && s.event == e && OwnsRow(db, e, s.owner)
    then row.(publishedAt := Some(db.now), owner := None, leaseUntil := None)
    else if s.FailOutbox? && s.event == e && OwnsRow(db, e, s.owner)
    then row.(nextAttemptAt := db.now + s.retryAfter, owner := None, leaseUntil := None)
    else row
  }

  ghost predicate JobsEvolve(db: Db, s: Step, next: Db) {
    && (forall j :: j in db.jobs && db.jobs[j].run in db.runs ==> j in next.jobs && next.jobs[j] == JobAfter(db, s, j))
    && (forall j :: j in next.jobs && j !in db.jobs ==>
          s.CreateRun? && j == s.job && s.run !in db.runs && s.run in next.runs
          && next.jobs[j] == Job(s.run, Payload([], [], false, None, s.restored), Ready, 0, MAX_ATTEMPTS, db.now, db.now, None, None))
  }

  ghost predicate RunsEvolve(db: Db, s: Step, next: Db) {
    && (forall r :: r in db.runs ==> r in next.runs && next.runs[r] == RunAfter(db, s, r))
    && (forall r :: r in next.runs && r !in db.runs ==>
          s.CreateRun? && r == s.run && next.runs[r] == Run(s.tenant, s.session, Queued, 1, None)
          && s.job !in db.jobs && s.job in next.jobs && !HasActiveRun(db, s.tenant, s.session))
  }

  ghost predicate ApprovalsEvolve(db: Db, s: Step, next: Db) {
    && (forall a :: a in db.approvals ==> a in next.approvals && next.approvals[a] == ApprovalAfter(db, s, a))
    && (forall a :: a in next.approvals && a !in db.approvals ==>
          s.AppendRunEvent? && s.content.ApprovalRequested? && a == s.content.approval && s.run in db.runs
          && next.approvals[a] == Approval(s.run, s.content.call, s.content.tool, s.content.arguments, s.content.hash,
                                           db.now + APPROVAL_TTL, None, None))
    && (s.AppendRunEvent? && Reports(db, s, s.run) ==> next.approvals == ProjectApprovals(db, s.run, s.content))
  }

  ghost predicate InteractionsEvolve(db: Db, s: Step, next: Db) {
    && (forall i :: i in db.interactions ==> i in next.interactions && next.interactions[i] == InteractionAfter(db, s, i))
    && (forall i :: i in next.interactions && i !in db.interactions ==>
          s.AppendRunEvent? && s.content.InputRequested? && i == s.content.interaction && s.run in db.runs
          && next.interactions[i] == Interaction(s.run, s.content.call, s.content.kind, db.now + INTERACTION_TTL, Pending))
    && (s.AppendRunEvent? && Reports(db, s, s.run) ==> next.interactions == ProjectInteractions(db, s.run, s.content))
  }

  ghost predicate OutboxEvolves(db: Db, s: Step, next: Db) {
    && (forall e :: e in db.outbox ==> e in next.outbox && next.outbox[e] == OutboxAfter(db, s, e))
    && (forall e :: e in next.outbox && e !in db.outbox ==>
          && next.outbox[e] == NewRow(db, next.outbox[e].run)
          && next.outbox[e].run in next.runs
          && (e in next.events && e !in db.events ==> next.events[e] == next.outbox[e].run))
    && (forall e, f :: e in next.outbox && e !in db.outbox && f in next.outbox && f !in db.outbox ==> e == f)
    && (forall e :: e in db.events ==> e in next.events && next.events[e] == db.events[e])
    && (forall e :: e in next.events && e !in db.events ==> e !in db.outbox && e in next.outbox)
  }

  /** Existing rows move only as stated above; a new row carries the values stated above. */
  ghost predicate Evolves(db: Db, s: Step, next: Db) {
    && JobsEvolve(db, s, next)
    && RunsEvolve(db, s, next)
    && RecordsEvolve(db, s, next)
  }

  ghost predicate RecordsEvolve(db: Db, s: Step, next: Db) {
    && ApprovalsEvolve(db, s, next)
    && InteractionsEvolve(db, s, next)
    && OutboxEvolves(db, s, next)
    && (forall k :: k in db.keys ==> k in next.keys && next.keys[k] == db.keys[k])
    && next.now >= db.now
  }

  // ---------------------------------------------------------------- tables a step leaves alone

  predicate TouchesJobs(s: Step) {
    s.CreateRun? || s.CancelRun? || s.DecideApproval? || s.AnswerInteraction? || s.LeaseJobs? || s.HeartbeatJob?
    || s.CompleteJob? || s.FailJob?
  }

  predicate TouchesRuns(s: Step) {
    s.CreateRun? || s.CancelRun? || s.DecideApproval? || s.AnswerInteraction? || s.StartRun? || s.AppendRunEvent?
    || s.LeaseJobs? || s.ExpireApprovals?
  }

  predicate TouchesOutbox(s: Step) {
    s.CreateRun? || s.CancelRun? || s.DecideApproval? || s.AnswerInteraction? || s.AppendRunEvent? || s.LeaseOutbox?
    || s.MarkOutboxPublished? || s.FailOutbox?
  }

  predicate TouchesApprovals(s: Step) {
    s.DecideApproval? || s.AppendRunEvent? || s.ExpireApprovals?
  }

  predicate TouchesInteractions(s: Step) {
    s.AnswerInteraction? || s.AppendRunEvent?
  }

  lemma JobsStay(db: Db, s: Step, next: Db)
    requires !TouchesJobs(s) && next.jobs == db.jobs
    ensures JobsEvolve(db, s, next)
  {
    hide Eligible, Exhausted, CanDecide, CanAnswer;
  }

  lemma RunsStay(db: Db, s: Step, next: Db)
    requires !TouchesRuns(s) && next.runs == db.runs
    ensures RunsEvolve(db, s, next)
  {
    hide ExecutorLost, CanDecide, CanAnswer, ReportedRun, HasLapsed, HasJob;
  }

  lemma OutboxStays(db: Db, s: Step, next: Db)
    requires !TouchesOutbox(s) && next.outbox == db.outbox && next.events == db.events
    ensures OutboxEvolves(db, s, next)
  {
  }

  lemma ApprovalsStay(db: Db, s: Step, next: Db)
    requires !TouchesApprovals(s) && next.approvals == db.approvals
    ensures ApprovalsEvolve(db, s, next)
  {
  }

  lemma InteractionsStay(db: Db, s: Step, next: Db)
    requires !TouchesInteractions(s) && next.interactions == db.interactions
    ensures InteractionsEvolve(db, s, next)
  {
  }

  /** A step that touches neither approvals, interactions nor the outbox. */
  lemma RecordsStay(db: Db, s: Step, next: Db)
    requires !TouchesApprovals(s) && !TouchesInteractions(s) && !TouchesOutbox(s)
    requires next.approvals == db.approvals && next.interactions == db.interactions
    requires next.outbox == db.outbox && next.events == db.events && next.keys == db.keys && next.now >= db.now
    ensures RecordsEvolve(db, s, next)
  {
    hide ApprovalsEvolve, InteractionsEvolve, OutboxEvolves;
    ApprovalsStay(db, s, next);
    InteractionsStay(db, s, next);
    OutboxStays(db, s, next);
  }

  // ---------------------------------------------------------------- steps that fail

  /** A step whose guards fail, or that only adds rows. */
  predicate MovesNothing(db: Db, s: Step) {
    match s
    case DecideApproval(_, a, _, _) => a in db.approvals ==> !Decides(db, s, db.approvals[a].run)
    case AnswerInteraction(_, i, _, _) => i in db.interactions ==> !Closes(db, s, i)
    case StartRun(r) => !(r in db.runs && IsStartable(db.runs[r].status))
    case AppendRunEvent(_, r, _, _) => !Reports(db, s, r)
    case CancelRun(_, r, _) => !Cancels(db, s, r)
    case HeartbeatJob(j, owner, _) => !Holds(db, j, owner)
    case CompleteJob(j, owner) => !Holds(db, j, owner)
    case FailJob(j, owner, _) => !Holds(db, j, owner)
    case MarkOutboxPublished(e, owner) => !OwnsRow(db, e, owner)
    case FailOutbox(e, owner, _) => !OwnsRow(db, e, owner)
    case LeaseJobs(_, _, _) => false
    case LeaseOutbox(_, _, _) => false
    case ExpireApprovals => false
    case _ => true
  }

  lemma NoJobMoves(db: Db, s: Step)
    requires MovesNothing(db, s)
    ensures JobsEvolve(db, s, db)
  {
    hide Eligible, Exhausted, DecidedPayload, WithSnapshot;
  }

  lemma NoRunMoves(db: Db, s: Step)
    requires MovesNothing(db, s)
    ensures RunsEvolve(db, s, db)
  {
    hide ExecutorLost, ReportedRun, HasLapsed;
  }

  lemma NoRecordMoves(db: Db, s: Step)
    requires MovesNothing(db, s)
    ensures ApprovalsEvolve(db, s, db) && InteractionsEvolve(db, s, db)
  {
    hide Lapsed;
  }

  lemma NoOutboxMoves(db: Db, s: Step)
    requires MovesNothing(db, s)
    ensures OutboxEvolves(db, s, db)
  {
    hide Sendable;
  }

  lemma NothingMoves(db: Db, s: Step)
    requires MovesNothing(db, s)
    ensures Evolves(db, s, db)
  {
    hide JobsEvolve, RunsEvolve, ApprovalsEvolve, InteractionsEvolve, OutboxEvolves, MovesNothing;
    NoJobMoves(db, s);
    NoRunMoves(db, s);
    NoRecordMoves(db, s);
    NoOutboxMoves(db, s);
  }

  /** An event row and its outbox row are the only rows most transactions add. */
  lemma RecordedOutbox(db: Db, s: Step, run: Id, event: Id, next: Db)
    requires EventFree(db, event) && run in next.runs
    requires next.events == db.events[event := run]
    requires next.outbox == db.outbox[event := NewRow(db, run)]
    requires s.CancelRun? || s.DecideApproval? || s.AnswerInteraction? || s.AppendRunEvent?
    ensures OutboxEvolves(db, s, next)
  {
  }

  /** The tables after a run is created. */
  ghost predicate Created(db: Db, s: Step, next: Db)
    requires s.CreateRun?
  {
    && s.run !in db.runs && s.job !in db.jobs && s.event !in db.outbox && !HasActiveRun(db, s.tenant, s.session)
    && next.now == db.now && next.approvals == db.approvals && next.interactions == db.interactions && next.events == db.events
    && next.runs == db.runs[s.run := Run(s.tenant, s.session, Queued, 1, None)]
    && next.jobs == db.jobs[s.job := Job(s.run, Payload([], [], false, None, s.restored), Ready, 0, MAX_ATTEMPTS,
                                         db.now, db.now, None, None)]
    && next.outbox == db.outbox[s.event := NewRow(db, s.run)]
    && (forall k :: k in db.keys ==> k in next.keys && next.keys[k] == db.keys[k])
  }

  lemma CreatesOrFails(db: Db, s: Step)
    requires s.CreateRun?
    ensures Created(db, s, ApplyCreateRun(db, s).0) || ApplyCreateRun(db, s).0 == db
  {
    hide HasActiveRun, HasJob;
  }

  lemma CreatedJobs(db: Db, s: Step, next: Db)
    requires s.CreateRun? && Created(db, s, next)
    ensures JobsEvolve(db, s, next)
  {
    hide HasActiveRun;
  }

  lemma CreatedRuns(db: Db, s: Step, next: Db)
    requires s.CreateRun? && Created(db, s, next)
    ensures RunsEvolve(db, s, next)
  {
    hide HasActiveRun;
  }

  lemma CreatedOutbox(db: Db, s: Step, next: Db)
    requires s.CreateRun? && Created(db, s, next)
    ensures OutboxEvolves(db, s, next)
  {
    hide HasActiveRun;
  }

  lemma CreatedEvolves(db: Db, s: Step, next: Db)
    requires s.CreateRun? && Created(db, s, next)
    ensures Evolves(db, s, next)
  {
    hide JobsEvolve, RunsEvolve, ApprovalsEvolve, InteractionsEvolve, OutboxEvolves, HasActiveRun;
    CreatedJobs(db, s, next);
    CreatedRuns(db, s, next);
    CreatedOutbox(db, s, next);
    ApprovalsStay(db, s, next);
    InteractionsStay(db, s, next);
  }

  lemma CreateRunEvolves(db: Db, s: Step)
    requires s.CreateRun?
    ensures Evolves(db, s, ApplyCreateRun(db, s).0)
  {
    hide Evolves, ApplyCreateRun, Created;
    CreatesOrFails(db, s);
    if Created(db, s, ApplyCreateRun(db, s).0) {
      CreatedEvolves(db, s, ApplyCreateRun(db, s).0);
    } else {
      NothingMoves(db, s);
    }
  }

  lemma CancelRunJobs(db: Db, s: Step)
    requires s.CancelRun? && Cancels(db, s, s.run)
    ensures JobsEvolve(db, s, ApplyCancelRun(db, s).0)
  {
  }

  lemma CancelRunRuns(db: Db, s: Step)
    requires s.CancelRun? && Cancels(db, s, s.run)
    ensures RunsEvolve(db, s, ApplyCancelRun(db, s).0)
  {
    hide KillJobsOf;
  }

  lemma CancelRunEvolves(db: Db, s: Step)
    requires s.CancelRun?
    ensures Evolves(db, s, ApplyCancelRun(db, s).0)
  {
    hide JobsEvolve, RunsEvolve, ApprovalsEvolve, InteractionsEvolve, OutboxEvolves, KillJobsOf;
    var next := ApplyCancelRun(db, s).0;
    if !Cancels(db, s, s.run) {
      NothingMoves(db, s);
    } else {
      CancelRunJobs(db, s);
      CancelRunRuns(db, s);
      ApprovalsStay(db, s, next);
      InteractionsStay(db, s, next);
      RecordedOutbox(db, s, s.run, s.event, next);
    }
  }

  lemma DecideApprovalJobs(db: Db, s: Step)
    requires s.DecideApproval? && s.approval in db.approvals && Decides(db, s, db.approvals[s.approval].run)
    ensures JobsEvolve(db, s, ApplyDecideApproval(db, s).0)
  {
    hide HasJob, DecidedPayload;
  }

  lemma DecideApprovalRuns(db: Db, s: Step)
    requires s.DecideApproval? && s.approval in db.approvals && Decides(db, s, db.approvals[s.approval].run)
    ensures RunsEvolve(db, s, ApplyDecideApproval(db, s).0)
  {
    hide HasJob, RequeueDecided;
  }

  lemma DecideApprovalApprovals(db: Db, s: Step)
    requires s.DecideApproval? && s.approval in db.approvals && Decides(db, s, db.approvals[s.approval].run)
    ensures ApprovalsEvolve(db, s, ApplyDecideApproval(db, s).0)
  {
    hide HasJob, RequeueDecided;
  }

  lemma DecideApprovalEvolves(db: Db, s: Step)
    requires s.DecideApproval?
    ensures Evolves(db, s, ApplyDecideApproval(db, s).0)
  {
    hide JobsEvolve, RunsEvolve, ApprovalsEvolve, InteractionsEvolve, OutboxEvolves, RequeueDecided, HasJob;
    var next := ApplyDecideApproval(db, s).0;
    if !(CanDecide(db, s.tenant, s.approval) && Decides(db, s, db.approvals[s.approval].run)) {
      NothingMoves(db, s);
    } else {
      DecideApprovalJobs(db, s);
      DecideApprovalRuns(db, s);
      DecideApprovalApprovals(db, s);
      InteractionsStay(db, s, next);
      RecordedOutbox(db, s, db.approvals[s.approval].run, s.event, next);
    }
  }

  lemma AnswerInteractionJobs(db: Db, s: Step)
    requires s.AnswerInteraction? && s.interaction in db.interactions && Closes(db, s, s.interaction)
    ensures JobsEvolve(db, s, ApplyAnswerInteraction(db, s).0)
  {
    hide HasJob, HasPending;
  }

  lemma AnswerInteractionRuns(db: Db, s: Step)
    requires s.AnswerInteraction? && s.interaction in db.interactions && Closes(db, s, s.interaction)
    ensures RunsEvolve(db, s, ApplyAnswerInteraction(db, s).0)
  {
    hide HasJob, HasPending, RequeueAnswered;
  }

  lemma AnswerInteractionInteractions(db: Db, s: Step)
    requires s.AnswerInteraction? && s.interaction in db.interactions && Closes(db, s, s.interaction)
    ensures InteractionsEvolve(db, s, ApplyAnswerInteraction(db, s).0)
  {
    hide HasJob, HasPending, RequeueAnswered, MoveRun;
  }

  lemma AnswerInteractionEvolves(db: Db, s: Step)
    requires s.AnswerInteraction?
    ensures Evolves(db, s, ApplyAnswerInteraction(db, s).0)
  {
    hide JobsEvolve, RunsEvolve, ApprovalsEvolve, InteractionsEvolve, OutboxEvolves, RequeueAnswered, HasJob, HasPending;
    var next := ApplyAnswerInteraction(db, s).0;
    if !(s.interaction in db.interactions && Closes(db, s, s.interaction)) {
      NothingMoves(db, s);
    } else {
      AnswerInteractionJobs(db, s);
      AnswerInteractionRuns(db, s);
      AnswerInteractionInteractions(db, s);
      ApprovalsStay(db, s, next);
      RecordedOutbox(db, s, db.interactions[s.interaction].run, s.event, next);
    }
  }

  lemma StartRunRuns(db: Db, s: Step)
    requires s.StartRun? && s.run in db.runs && IsStartable(db.runs[s.run].status)
    ensures RunsEvolve(db, s, ApplyStartRun(db, s).0)
  {
  }

  lemma StartRunEvolves(db: Db, s: Step)
    requires s.StartRun?
    ensures Evolves(db, s, ApplyStartRun(db, s).0)
  {
    hide JobsEvolve, RunsEvolve, ApprovalsEvolve, InteractionsEvolve, OutboxEvolves, MoveRun;
    if !(s.run in db.runs && IsStartable(db.runs[s.run].status)) {
      NothingMoves(db, s);
    } else {
      StartRunRuns(db, s);
      JobsStay(db, s, ApplyStartRun(db, s).0);
      RecordsStay(db, s, ApplyStartRun(db, s).0);
    }
  }

  lemma ProjectedRuns(db: Db, s: Step)
    requires s.AppendRunEvent? && s.run in db.runs
    ensures ProjectRuns(db, s.run, s.content) == db.runs[s.run := ReportedRun(db, s, s.run)]
  {
    assert db.runs[s.run := db.runs[s.run]] == db.runs;
  }

  lemma AppendRunEventRuns(db: Db, s: Step)
    requires s.AppendRunEvent? && Reports(db, s, s.run)
    ensures RunsEvolve(db, s, ApplyAppendRunEvent(db, s).0)
  {
    hide ProjectRuns, ReportedRun, ProjectApprovals, ProjectInteractions;
    ProjectedRuns(db, s);
  }

  lemma AppendRunEventApprovals(db: Db, s: Step)
    requires s.AppendRunEvent? && Reports(db, s, s.run)
    ensures ApprovalsEvolve(db, s, ApplyAppendRunEvent(db, s).0)
  {
    hide ProjectRuns, ProjectInteractions;
  }

  lemma AppendRunEventInteractions(db: Db, s: Step)
    requires s.AppendRunEvent? && Reports(db, s, s.run)
    ensures InteractionsEvolve(db, s, ApplyAppendRunEvent(db, s).0)
  {
    hide ProjectRuns, ProjectApprovals;
  }

  lemma AppendRunEventEvolves(db: Db, s: Step)
    requires s.AppendRunEvent?
    ensures Evolves(db, s, ApplyAppendRunEvent(db, s).0)
  {
    hide JobsEvolve, RunsEvolve, ApprovalsEvolve, InteractionsEvolve, OutboxEvolves, ProjectRuns, ProjectApprovals, ProjectInteractions;
    var next := ApplyAppendRunEvent(db, s).0;
    if !Reports(db, s, s.run) {
      NothingMoves(db, s);
    } else {
      JobsStay(db, s, next);
      AppendRunEventRuns(db, s);
      AppendRunEventApprovals(db, s);
      AppendRunEventInteractions(db, s);
      ProjectedRuns(db, s);
      RecordedOutbox(db, s, s.run, s.event, next);
    }
  }

  lemma LeaseJobsJobs(db: Db, s: Step)
    requires s.LeaseJobs?
    ensures JobsEvolve(db, s, ApplyLeaseJobs(db, s).0)
  {
    hide FailLost;
  }

  lemma LeaseJobsRuns(db: Db, s: Step)
    requires s.LeaseJobs?
    ensures RunsEvolve(db, s, ApplyLeaseJobs(db, s).0)
  {
    hide BuryExhausted, LeaseAll, ExecutorLost;
  }

  lemma LeaseJobsEvolves(db: Db, s: Step)
    requires s.LeaseJobs?
    ensures Evolves(db, s, ApplyLeaseJobs(db, s).0)
  {
    hide JobsEvolve, RunsEvolve, BuryExhausted, LeaseAll, FailLost;
    LeaseJobsJobs(db, s);
    LeaseJobsRuns(db, s);
    RecordsStay(db, s, ApplyLeaseJobs(db, s).0);
  }

  /** A report on a job that its owner holds. */
  lemma ReportJobs(db: Db, s: Step)
    requires (s.HeartbeatJob? || s.CompleteJob? || s.FailJob?) && Holds(db, s.job, s.owner)
    ensures JobsEvolve(db, s, After(db, s))
  {
  }

  lemma ReportEvolves(db: Db, s: Step)
    requires s.HeartbeatJob? || s.CompleteJob? || s.FailJob?
    ensures Evolves(db, s, After(db, s))
  {
    hide JobsEvolve, RunsEvolve, RecordsEvolve;
    if !Holds(db, s.job, s.owner) {
      NothingMoves(db, s);
    } else {
      ReportJobs(db, s);
      RunsStay(db, s, After(db, s));
      RecordsStay(db, s, After(db, s));
    }
  }

  lemma RowsUpdated(db: Db, s: Step, next: Db)
    requires next.events == db.events && next.outbox.Keys == db.outbox.Keys
    requires forall e :: e in db.outbox ==> next.outbox[e] == OutboxAfter(db, s, e)
    ensures OutboxEvolves(db, s, next)
  {
    hide OutboxAfter, NewRow;
  }

  lemma OneRowUpdated(db: Db, s: Step, next: Db)
    requires (s.MarkOutboxPublished? || s.FailOutbox?) && s.event in db.outbox
    requires next.events == db.events && next.outbox == db.outbox[s.event := OutboxAfter(db, s, s.event)]
    ensures OutboxEvolves(db, s, next)
  {
    hide OutboxEvolves;
    assert next.outbox.Keys == db.outbox.Keys;
    RowsUpdated(db, s, next);
  }

  lemma LeaseOutboxRows(db: Db, s: Step)
    requires s.LeaseOutbox?
    ensures OutboxEvolves(db, s, ApplyLeaseOutbox(db, s).0)
  {
    hide OutboxEvolves, Sendable, LeaseRow;
    RowsUpdated(db, s, ApplyLeaseOutbox(db, s).0);
  }

  lemma MarkOutboxPublishedRows(db: Db, s: Step)
    requires s.MarkOutboxPublished?
    ensures OutboxEvolves(db, s, ApplyMarkOutboxPublished(db, s).0)
  {
    hide OutboxEvolves, NewRow;
    var next := ApplyMarkOutboxPublished(db, s).0;
    if !OwnsRow(db, s.event, s.owner) {
      NoOutboxMoves(db, s);
    } else {
      OneRowUpdated(db, s, next);
    }
  }

  lemma FailOutboxRows(db: Db, s: Step)
    requires s.FailOutbox?
    ensures OutboxEvolves(db, s, ApplyFailOutbox(db, s).0)
  {
    hide OutboxEvolves, NewRow;
    var next := ApplyFailOutbox(db, s).0;
    if !OwnsRow(db, s.event, s.owner) {
      NoOutboxMoves(db, s);
    } else {
      OneRowUpdated(db, s, next);
    }
  }

  lemma OnlyOutboxEvolves(db: Db, s: Step, next: Db)
    requires s.LeaseOutbox? || s.MarkOutboxPublished? || s.FailOutbox?
    requires next == db.(outbox := next.outbox) && OutboxEvolves(db, s, next)
    ensures Evolves(db, s, next)
  {
    hide JobsEvolve, RunsEvolve, ApprovalsEvolve, InteractionsEvolve, OutboxEvolves;
    JobsStay(db, s, next);
    RunsStay(db, s, next);
    ApprovalsStay(db, s, next);
    InteractionsStay(db, s, next);
  }

  lemma LeaseOutboxEvolves(db: Db, s: Step)
    requires s.LeaseOutbox?
    ensures Evolves(db, s, ApplyLeaseOutbox(db, s).0)
  {
    hide Evolves, OutboxEvolves, LeaseRow, Sendable;
    LeaseOutboxRows(db, s);
    OnlyOutboxEvolves(db, s, ApplyLeaseOutbox(db, s).0);
  }

  lemma MarkOutboxPublishedEvolves(db: Db, s: Step)
    requires s.MarkOutboxPublished?
    ensures Evolves(db, s, ApplyMarkOutboxPublished(db, s).0)
  {
    hide Evolves, OutboxEvolves;
    MarkOutboxPublishedRows(db, s);
    OnlyOutboxEvolves(db, s, ApplyMarkOutboxPublished(db, s).0);
  }

  lemma FailOutboxEvolves(db: Db, s: Step)
    requires s.FailOutbox?
    ensures Evolves(db, s, ApplyFailOutbox(db, s).0)
  {
    hide Evolves, OutboxEvolves;
    FailOutboxRows(db, s);
    OnlyOutboxEvolves(db, s, ApplyFailOutbox(db, s).0);
  }

  lemma ExpireApprovalsRuns(db: Db, s: Step)
    requires s.ExpireApprovals?
    ensures RunsEvolve(db, s, ApplyExpireApprovals(db).0)
  {
    hide DenyLapsed, HasLapsed;
  }

  lemma ExpireApprovalsApprovals(db: Db, s: Step)
    requires s.ExpireApprovals?
    ensures ApprovalsEvolve(db, s, ApplyExpireApprovals(db).0)
  {
    hide FailLapsed, Lapsed;
  }

  lemma ExpireApprovalsEvolves(db: Db, s: Step)
    requires s.ExpireApprovals?
    ensures Evolves(db, s, ApplyExpireApprovals(db).0)
  {
    hide JobsEvolve, RunsEvolve, ApprovalsEvolve, InteractionsEvolve, OutboxEvolves, FailLapsed, DenyLapsed;
    var next := ApplyExpireApprovals(db).0;
    ExpireApprovalsRuns(db, s);
    ExpireApprovalsApprovals(db, s);
    JobsStay(db, s, next);
    InteractionsStay(db, s, next);
    OutboxStays(db, s, next);
  }

  lemma TickEvolves(db: Db, s: Step)
    requires s.Tick?
    ensures Evolves(db, s, db.(now := db.now + s.elapsed))
  {
    hide JobsEvolve, RunsEvolve, RecordsEvolve;
    var next := db.(now := db.now + s.elapsed);
    JobsStay(db, s, next);
    RunsStay(db, s, next);
    RecordsStay(db, s, next);
  }

  lemma StepEvolves(db: Db, s: Step)
    ensures Evolves(db, s, After(db, s))
  {
    hide Evolves;
    match s
    case Tick(_) => TickEvolves(db, s);
    case CreateRun(_, _, _, _, _, _, _, _) => CreateRunEvolves(db, s);
    case CancelRun(_, _, _) => CancelRunEvolves(db, s);
    case DecideApproval(_, _, _, _) => DecideApprovalEvolves(db, s);
    case AnswerInteraction(_, _, _, _) => AnswerInteractionEvolves(db, s);
    case StartRun(_) => StartRunEvolves(db, s);
    case AppendRunEvent(_, _, _, _) => AppendRunEventEvolves(db, s);
    case LeaseJobs(_, _, _) => LeaseJobsEvolves(db, s);
    case HeartbeatJob(_, _, _) => ReportEvolves(db, s);
    case CompleteJob(_, _) => ReportEvolves(db, s);
    case FailJob(_, _, _) => ReportEvolves(db, s);
    case ExpireApprovals => ExpireApprovalsEvolves(db, s);
    case LeaseOutbox(_, _, _) => LeaseOutboxEvolves(db, s);
    case MarkOutboxPublished(_, _) => MarkOutboxPublishedEvolves(db, s);
    case FailOutbox(_, _, _) => FailOutboxEvolves(db, s);
  }
}
