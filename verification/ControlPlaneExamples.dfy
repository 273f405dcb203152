/** Reachable states that refute tempting claims about the control plane. */
module ControlPlaneExamples {
  import opened Wrappers
  import opened ControlPlane
  import opened ControlPlaneTheorems
  import opened ControlPlaneWaiting

  ghost predicate Reachable(db: Db) {
    exists steps :: EngineRun(steps) && Execute(EMPTY, steps) == db
  }

  lemma Reach(db: Db, s: Step, next: Db)
    requires Reachable(db) && EngineShaped(s) && After(db, s) == next
    ensures Reachable(next)
  {
    hide Apply;
    var steps :| EngineRun(steps) && Execute(EMPTY, steps) == db;
    ExecuteSplit(EMPTY, steps, [s]);
    assert Execute(db, [s]) == After(db, s);
    assert EngineRun(steps + [s]);
  }

  function Unsent(run: Id, number: nat): OutboxRow {
    OutboxRow(run, number, 0, 0, None, None, None)
  }

  function NewJob(run: Id): Job {
    Job(run, Payload([], [], false, None, None), Ready, 0, MAX_ATTEMPTS, 0, 0, None, None)
  }

  const CREATED := EMPTY.(sessions := map[1 := 1], runs := map[1 := Run(1, 1, Queued, 1, None)],
                          jobs := map[1 := NewJob(1)], outbox := map[1 := Unsent(1, 0)])
  const LEASED := CREATED.(jobs := map[1 := LeaseTo(NewJob(1), 7, 10)])
  const STARTED := LEASED.(runs := map[1 := Run(1, 1, Running, 2, None)])

  lemma Restarted(db: Db, r: Id, runs: map<Id, Run>)
    requires r in db.runs && IsStartable(db.runs[r].status) && runs == MoveRun(db.runs, r, true, Running)
    ensures After(db, StartRun(r)) == db.(runs := runs)
  {
  }

  lemma Creates() ensures After(EMPTY, CreateRun(1, NO_KEY, 1, None, 1, 1, 1, None)) == CREATED {}
  lemma Leases() ensures After(CREATED, LeaseJobs(7, {1}, 10)) == LEASED {}
  lemma Starts() ensures After(LEASED, StartRun(1)) == STARTED {}

  lemma StartedIsReachable()
    ensures Reachable(STARTED)
  {
    hide Apply;
    assert Execute(EMPTY, []) == EMPTY && EngineRun([]);
    Creates();
    Reach(EMPTY, CreateRun(1, NO_KEY, 1, None, 1, 1, 1, None), CREATED);
    Leases();
    Reach(CREATED, LeaseJobs(7, {1}, 10), LEASED);
    Starts();
    Reach(LEASED, StartRun(1), STARTED);
  }

  // ---------------------------------------------------------------- two active runs in one session

  // The run fails, its job is leased again, and a second run is created before the worker restarts the first.
  const FAILED := STARTED.(runs := map[1 := Run(1, 1, Failed, 3, None)], events := map[2 := 1],
                           outbox := map[1 := Unsent(1, 0), 2 := Unsent(1, 1)])
  const RETRYING := FAILED.(jobs := map[1 := NewJob(1).(attempts := 1)])
  const AGAIN := LeaseTo(NewJob(1).(attempts := 1), 7, 10)
  const RELEASED := RETRYING.(jobs := map[1 := AGAIN])
  const BESIDE := RELEASED.(runs := map[1 := Run(1, 1, Failed, 3, None), 2 := Run(1, 1, Queued, 1, None)],
                            jobs := map[1 := AGAIN, 2 := NewJob(2)],
                            outbox := map[1 := Unsent(1, 0), 2 := Unsent(1, 1), 3 := Unsent(2, 2)])
  const REVIVED := BESIDE.(runs := map[1 := Run(1, 1, Running, 4, None), 2 := Run(1, 1, Queued, 1, None)])

  lemma Fails() ensures After(STARTED, AppendRunEvent(1, 1, 2, RunFailed)) == FAILED {}
  lemma Retries() ensures After(FAILED, FailJob(1, 7, 0)) == RETRYING {}

  lemma RetryingJobs()
    ensures BuryExhausted(RETRYING.jobs, 0) == RETRYING.jobs && LeaseAll(RETRYING.jobs, {1}, 7, 0, 10) == RELEASED.jobs
    ensures FailLost(RETRYING.runs, RETRYING.jobs) == RETRYING.runs
  {
  }

  lemma LeasesAgain()
    ensures After(RETRYING, LeaseJobs(7, {1}, 10)) == RELEASED
  {
    hide BuryExhausted, LeaseAll, FailLost;
    RetryingJobs();
  }

  lemma ReleasedIsFree() ensures !HasActiveRun(RELEASED, 1, 1) && !HasJob(RELEASED, 2) {}
  lemma RowBeside() ensures NewRow(RELEASED, 2) == Unsent(2, 2) {}

  lemma CreatesBeside()
    ensures After(RELEASED, CreateRun(1, NO_KEY, 1, None, 2, 2, 3, None)) == BESIDE
  {
    hide HasActiveRun, HasJob, NewRow;
    ReleasedIsFree();
    RowBeside();
  }

  lemma Revived()
    ensures After(BESIDE, StartRun(1)) == REVIVED
  {
    hide Apply;
    Restarted(BESIDE, 1, REVIVED.runs);
  }


  /** "At most one active run per session" is false: the condition of `SingleActiveIff` can be violated. */
  lemma TwoActiveRuns()
    ensures Reachable(REVIVED) && !SingleActive(REVIVED, 1, 1)
  {
    assert ActiveIn(REVIVED, 1, 1, 1) && ActiveIn(REVIVED, 2, 1, 1);
    hide Apply;
    StartedIsReachable();
    Fails();
    Reach(STARTED, AppendRunEvent(1, 1, 2, RunFailed), FAILED);
    Retries();
    Reach(FAILED, FailJob(1, 7, 0), RETRYING);
    LeasesAgain();
    Reach(RETRYING, LeaseJobs(7, {1}, 10), RELEASED);
    CreatesBeside();
    Reach(RELEASED, CreateRun(1, NO_KEY, 1, None, 2, 2, 3, None), BESIDE);
    Revived();
    Reach(BESIDE, StartRun(1), REVIVED);
  }

  // ---------------------------------------------------------------- a run nobody can approve

  // The worker is lost while its call waits for approval. The approval lapses, another worker resumes
  // from the checkpoint, and the same call asks for the same approval again.
  const CALL := Digest(1, 1)
  const ASK := ApprovalRequested(ApprovalId(1, 1, CALL), 1, 1, 1, CALL)
  const OPEN := Approval(1, 1, 1, 1, CALL, APPROVAL_TTL, None, None)
  const SHUT := OPEN.(decision := Some(Deny), decidedAt := Some(APPROVAL_TTL))

  const ASKED := STARTED.(runs := map[1 := Run(1, 1, AwaitingApproval, 3, None)],
                          approvals := map[ApprovalId(1, 1, CALL) := OPEN],
                          events := map[2 := 1], outbox := map[1 := Unsent(1, 0), 2 := Unsent(1, 1)])
  const LATER := ASKED.(now := APPROVAL_TTL)
  const LAPSED := LATER.(runs := map[1 := Run(1, 1, Failed, 4, None)], approvals := map[ApprovalId(1, 1, CALL) := SHUT])
  const RESUMED := LAPSED.(jobs := map[1 := LeaseTo(LeaseTo(NewJob(1), 7, 10), 8, APPROVAL_TTL + 10)])
  const RESTARTED := RESUMED.(runs := map[1 := Run(1, 1, Running, 5, None)])
  const STUCK := RESTARTED.(runs := map[1 := Run(1, 1, AwaitingApproval, 6, None)],
                            events := map[2 := 1, 5 := 1],
                            outbox := map[1 := Unsent(1, 0), 2 := Unsent(1, 1), 5 := Unsent(1, 2).(nextAttemptAt := APPROVAL_TTL)])

  lemma Asks() ensures After(STARTED, AppendRunEvent(1, 1, 2, ASK)) == ASKED {}
  lemma Waits() ensures After(ASKED, Tick(APPROVAL_TTL)) == LATER {}

  lemma LapsedTables()
    ensures FailLapsed(LATER) == LAPSED.runs && DenyLapsed(LATER) == LAPSED.approvals
  {
    assert Lapsed(LATER.approvals[ApprovalId(1, 1, CALL)], LATER.now) && HasLapsed(LATER, 1);
  }

  lemma Expires()
    ensures After(LATER, ExpireApprovals) == LAPSED
  {
    hide FailLapsed, DenyLapsed;
    LapsedTables();
  }

  lemma LapsedJobs()
    ensures BuryExhausted(LAPSED.jobs, LAPSED.now) == LAPSED.jobs && LeaseAll(LAPSED.jobs, {1}, 8, LAPSED.now, 10) == RESUMED.jobs
    ensures FailLost(LAPSED.runs, LAPSED.jobs) == LAPSED.runs
  {
  }

  lemma Resumes()
    ensures After(LAPSED, LeaseJobs(8, {1}, 10)) == RESUMED
  {
    hide BuryExhausted, LeaseAll, FailLost;
    LapsedJobs();
  }

  lemma Restarts()
    ensures After(RESUMED, StartRun(1)) == RESTARTED
  {
    hide Apply;
    Restarted(RESUMED, 1, RESTARTED.runs);
  }

  lemma AskedTables()
    ensures ProjectApprovals(RESTARTED, 1, ASK) == RESTARTED.approvals && ProjectRuns(RESTARTED, 1, ASK) == STUCK.runs
    ensures ProjectInteractions(RESTARTED, 1, ASK) == RESTARTED.interactions
  {
  }

  lemma AskedRows()
    ensures Record(RESTARTED, 1, 5) == Some(RESTARTED.(events := STUCK.events, outbox := STUCK.outbox))
  {
  }

  lemma AsksAgain()
    ensures After(RESTARTED, AppendRunEvent(1, 1, 5, ASK)) == STUCK
  {
    hide ProjectApprovals, ProjectRuns, ProjectInteractions, Record;
    AskedTables();
    AskedRows();
  }

  lemma StuckIsStranded() ensures Stranded(STUCK, 1) {}

  /** "A run that waits for approval has one to decide" is false: a lapsed denial is not among the denied
      digests of the job, so the resumed engine asks again, under the same stable identifier. */
  lemma StrandedRun()
    ensures Reachable(STUCK) && Stranded(STUCK, 1)
  {
    hide Apply;
    StuckIsStranded();
    StartedIsReachable();
    Asks();
    Reach(STARTED, AppendRunEvent(1, 1, 2, ASK), ASKED);
    Waits();
    Reach(ASKED, Tick(APPROVAL_TTL), LATER);
    Expires();
    Reach(LATER, ExpireApprovals, LAPSED);
    Resumes();
    Reach(LAPSED, LeaseJobs(8, {1}, 10), RESUMED);
    Restarts();
    Reach(RESUMED, StartRun(1), RESTARTED);
    AsksAgain();
    Reach(RESTARTED, AppendRunEvent(1, 1, 5, ASK), STUCK);
  }

  /** Before that, at the moment the approval lapses, the run waits without anything its user could decide; the expiry step
      then fails it. */
  lemma LapsedApproval()
    ensures Reachable(LATER) && HasStatus(LATER.runs, 1, AwaitingApproval) && !HasDecidable(LATER.approvals, 1, LATER.now)
    ensures ApprovalsDecidable(ASKED) && Forecloses(ASKED, Tick(APPROVAL_TTL)) && !Stranded(LATER, 1)
  {
    assert DecidableRow(OPEN, 1, 0) && ASKED.approvals[ApprovalId(1, 1, CALL)] == OPEN;
    assert LATER.approvals[ApprovalId(1, 1, CALL)].decision == None;
    assert !HasDecidable(ASKED.approvals, 1, ASKED.now + APPROVAL_TTL);
    hide Apply;
    StartedIsReachable();
    Asks();
    Reach(STARTED, AppendRunEvent(1, 1, 2, ASK), ASKED);
    Waits();
    Reach(ASKED, Tick(APPROVAL_TTL), LATER);
  }

  // ---------------------------------------------------------------- a question nobody answered in time

  const QUESTION := InteractionId(1, 1, 1)
  const WONDER := InputRequested(QUESTION, 1, Questionnaire)
  const WONDERING := STARTED.(runs := map[1 := Run(1, 1, AwaitingInput, 3, None)],
                              interactions := map[QUESTION := Interaction(1, 1, Questionnaire, INTERACTION_TTL, Pending)],
                              events := map[2 := 1], outbox := map[1 := Unsent(1, 0), 2 := Unsent(1, 1)])
  const PAUSED := WONDERING.(jobs := map[1 := LeaseTo(NewJob(1), 7, 10).(status := Finished, owner := None, leaseUntil := None)])
  const SILENT := PAUSED.(now := INTERACTION_TTL)

  lemma WonderTables()
    ensures ProjectInteractions(STARTED, 1, WONDER) == WONDERING.interactions && ProjectRuns(STARTED, 1, WONDER) == WONDERING.runs
  {
  }

  lemma Wonders()
    ensures After(STARTED, AppendRunEvent(1, 1, 2, WONDER)) == WONDERING
  {
    hide ProjectInteractions, ProjectRuns;
    WonderTables();
  }

  lemma Pauses() ensures After(WONDERING, CompleteJob(1, 7)) == PAUSED {}
  lemma Passes() ensures After(PAUSED, Tick(INTERACTION_TTL)) == SILENT {}

  lemma SilentTables()
    ensures PendingOk(SILENT) && Silent(SILENT, 1) && forall t, i :: !CanAnswer(SILENT, t, i)
  {
    assert SILENT.interactions[QUESTION].status == Pending && HasPending(SILENT.interactions, 1);
  }

  /** "A run that waits for input can be answered" is false: nothing closes an interaction that lapses. Its job is
      finished, so no worker starts the run again either. */
  lemma SilentRun()
    ensures Reachable(SILENT) && PendingOk(SILENT) && Silent(SILENT, 1) && SILENT.jobs[1].status == Finished
    ensures forall t, i :: !CanAnswer(SILENT, t, i)
  {
    SilentTables();
    hide Apply, PendingOk, Silent, CanAnswer;
    StartedIsReachable();
    Wonders();
    Reach(STARTED, AppendRunEvent(1, 1, 2, WONDER), WONDERING);
    Pauses();
    Reach(WONDERING, CompleteJob(1, 7), PAUSED);
    Passes();
    Reach(PAUSED, Tick(INTERACTION_TTL), SILENT);
  }

  // ---------------------------------------------------------------- a report that ends the next execution's job

  // The user allows the call while the execution that asked for it has still to report; the same worker leases the job again,
  // and then the first execution reports it done.
  const GRANTED := LeaseTo(NewJob(1), 7, 10).(payload := Payload([CALL], [], true, None, None), status := Ready, attempts := 0,
                                              owner := None, leaseUntil := None)
  const DECIDED := ASKED.(approvals := map[ApprovalId(1, 1, CALL) := OPEN.(decision := Some(Allow), decidedAt := Some(0))],
                          jobs := map[1 := GRANTED], runs := map[1 := Run(1, 1, Queued, 4, None)],
                          events := map[2 := 1, 3 := 1],
                          outbox := map[1 := Unsent(1, 0), 2 := Unsent(1, 1), 3 := Unsent(1, 2)])
  const HANDED := DECIDED.(jobs := map[1 := LeaseTo(GRANTED, 7, 10)])
  const SWALLOWED := HANDED.(jobs := map[1 := LeaseTo(GRANTED, 7, 10).(status := Finished, owner := None, leaseUntil := None)])

  lemma GrantedJobs()
    ensures RequeueDecided(ASKED, OPEN, Allow) == DECIDED.jobs && HasJob(ASKED, 1)
    ensures CanDecide(ASKED, 1, ApprovalId(1, 1, CALL))
  {
    assert ASKED.jobs[1].run == 1;
    var none: seq<Digest> := [];
    assert none + [CALL] == [CALL];
    assert DecidedPayload(ASKED.jobs[1].payload, Allow, CALL, None) == GRANTED.payload;
  }

  lemma DecidedRows()
    ensures Record(ASKED, 1, 3) == Some(ASKED.(events := DECIDED.events, outbox := DECIDED.outbox))
  {
  }

  lemma Decides()
    ensures After(ASKED, DecideApproval(1, ApprovalId(1, 1, CALL), Allow, 3)) == DECIDED
  {
    hide RequeueDecided, HasJob, Record, CanDecide;
    GrantedJobs();
    DecidedRows();
  }

  lemma DecidedJobs()
    ensures BuryExhausted(DECIDED.jobs, 0) == DECIDED.jobs && LeaseAll(DECIDED.jobs, {1}, 7, 0, 10) == HANDED.jobs
    ensures FailLost(DECIDED.runs, DECIDED.jobs) == DECIDED.runs
  {
  }

  lemma HandsOut()
    ensures After(DECIDED, LeaseJobs(7, {1}, 10)) == HANDED
  {
    hide BuryExhausted, LeaseAll, FailLost;
    DecidedJobs();
  }

  lemma Swallows() ensures After(HANDED, CompleteJob(1, 7)) == SWALLOWED {}

  /** "A decision is never swallowed by a late report" is false: the job is finished, with the call allowed and the run still
      queued, by the report of the execution that asked. */
  lemma LateReportSwallows()
    ensures Reachable(SWALLOWED) && Succeeds(HANDED, CompleteJob(1, 7)) && SWALLOWED.jobs[1].status == Finished
    ensures SWALLOWED.jobs[1].payload.approved == [CALL] && HasStatus(SWALLOWED.runs, 1, Queued)
  {
    assert Succeeds(HANDED, CompleteJob(1, 7));
    hide Apply, Succeeds;
    StartedIsReachable();
    Asks();
    Reach(STARTED, AppendRunEvent(1, 1, 2, ASK), ASKED);
    Decides();
    Reach(ASKED, DecideApproval(1, ApprovalId(1, 1, CALL), Allow, 3), DECIDED);
    HandsOut();
    Reach(DECIDED, LeaseJobs(7, {1}, 10), HANDED);
    Swallows();
    Reach(HANDED, CompleteJob(1, 7), SWALLOWED);
  }

  // ---------------------------------------------------------------- a run completed by a worker that lost it

  const EXPIRED := STARTED.(now := 11)
  const REPLACED := EXPIRED.(jobs := map[1 := LeaseTo(LeaseTo(NewJob(1), 7, 10), 8, 21)])
  const OVERRULED := REPLACED.(runs := map[1 := Run(1, 1, Completed, 3, None)], events := map[2 := 1],
                               outbox := map[1 := Unsent(1, 0), 2 := Unsent(1, 1).(nextAttemptAt := 11)])

  lemma Elapses() ensures After(STARTED, Tick(11)) == EXPIRED {}

  lemma ExpiredJobs()
    ensures BuryExhausted(EXPIRED.jobs, 11) == EXPIRED.jobs && LeaseAll(EXPIRED.jobs, {1}, 8, 11, 10) == REPLACED.jobs
    ensures FailLost(EXPIRED.runs, EXPIRED.jobs) == EXPIRED.runs
  {
  }

  lemma Replaces()
    ensures After(EXPIRED, LeaseJobs(8, {1}, 10)) == REPLACED
  {
    hide BuryExhausted, LeaseAll, FailLost;
    ExpiredJobs();
  }

  lemma Overrules() ensures After(REPLACED, AppendRunEvent(1, 1, 2, RunCompleted)) == OVERRULED {}

  /** "Only the worker that holds its job completes a run" is false: events are taken from anybody. */
  lemma LostWorkerCompletes()
    ensures Reachable(OVERRULED) && !Holds(REPLACED, 1, 7) && Holds(OVERRULED, 1, 8) && HasStatus(OVERRULED.runs, 1, Completed)
  {
    hide Apply;
    StartedIsReachable();
    Elapses();
    Reach(STARTED, Tick(11), EXPIRED);
    Replaces();
    Reach(EXPIRED, LeaseJobs(8, {1}, 10), REPLACED);
    Overrules();
    Reach(REPLACED, AppendRunEvent(1, 1, 2, RunCompleted), OVERRULED);
  }
}
