/** What holds of every run of the control plane, in whatever order its workers and users act. */
module ControlPlaneTheorems {
  import opened Wrappers
  import opened ControlPlane
  import opened ControlPlaneRows
  import opened ControlPlaneInvariants

  // ---------------------------------------------------------------- decisions

  /** A row never leaves the approvals table, and once decided it never changes again. */
  lemma {:induction false} DecisionsAreWriteOnce(db: Db, steps: seq<Step>, a: ApprovalId)
    requires a in db.approvals
    ensures a in Execute(db, steps).approvals
    ensures var before, after := db.approvals[a], Execute(db, steps).approvals[a];
      && after == before.(decision := after.decision, decidedAt := after.decidedAt)
      && (before.decision.Some? ==> after == before)
    decreases |steps|
  {
    if steps != [] {
      StepEvolves(db, steps[0]);
      DecisionsAreWriteOnce(After(db, steps[0]), steps[1..], a);
    }
  }

  /** The digests that users' decisions on a run add, in the order in which they are made. */
  function DecisionLog(db: Db, steps: seq<Step>, run: Id, decision: Decision): seq<Digest>
    decreases |steps|
  {
    if steps == [] then []
    else
      var s := steps[0];
      (if DecidesOn(db, s, run) && s.decision == decision then [db.approvals[s.approval].hash] else [])
      + DecisionLog(After(db, s), steps[1..], run, decision)
  }

  function Listed(payload: Payload, decision: Decision): seq<Digest> {
    if decision == Allow then payload.approved else payload.denied
  }

  /** What a job carries as approved, and as denied, is exactly the log of the decisions made on its run. */
  lemma {:induction false} GrantsFollowDecisions(db: Db, steps: seq<Step>, j: Id, d: Decision)
    requires Inv(db) && j in db.jobs
    ensures j in Execute(db, steps).jobs && Execute(db, steps).jobs[j].run == db.jobs[j].run
    ensures Listed(Execute(db, steps).jobs[j].payload, d)
         == Listed(db.jobs[j].payload, d) + DecisionLog(db, steps, db.jobs[j].run, d)
    decreases |steps|
  {
    hide Apply, Inv, Listed, DecidesOn;
    if steps != [] {
      var next := After(db, steps[0]);
      StepKeepsInv(db, steps[0]);
      StepKeepsJob(db, steps[0], j, d);
      GrantsFollowDecisions(next, steps[1..], j, d);
    }
  }

  lemma StepKeepsJob(db: Db, s: Step, j: Id, d: Decision)
    requires Inv(db) && j in db.jobs
    ensures j in After(db, s).jobs && After(db, s).jobs[j].run == db.jobs[j].run
    ensures Listed(After(db, s).jobs[j].payload, d) == Listed(db.jobs[j].payload, d)
         + (if DecidesOn(db, s, db.jobs[j].run) && s.decision == d then [db.approvals[s.approval].hash] else [])
  {
    hide Apply, JobAfter, RunAfter, ApprovalAfter, InteractionAfter, OutboxAfter;
    StepEvolves(db, s);
    JobMoves(db, s, j);
    PayloadMoves(db, s, j);
  }

  // ---------------------------------------------------------------- the lease budget

  function LeaseCount(db: Db, steps: seq<Step>, j: Id): nat
    decreases |steps|
  {
    if steps == [] then 0
    else (if Leases(db, steps[0], j) then 1 else 0) + LeaseCount(After(db, steps[0]), steps[1..], j)
  }

  function ResumeCount(db: Db, steps: seq<Step>, run: Id): nat
    decreases |steps|
  {
    if steps == [] then 0
    else (if Resumes(db, steps[0], run) then 1 else 0) + ResumeCount(After(db, steps[0]), steps[1..], run)
  }

  lemma LeaseSpends(db: Db, s: Step, j: Id)
    requires j in db.jobs && db.jobs[j].run in db.runs
    ensures Leases(db, s, j) ==> JobAfter(db, s, j).attempts == db.jobs[j].attempts + 1 && !Resumes(db, s, db.jobs[j].run)
    ensures !Resumes(db, s, db.jobs[j].run) ==> JobAfter(db, s, j).attempts >= db.jobs[j].attempts
  {
  }

  /** A lease spends one attempt; only a resume gives attempts back, and at most a full budget of them. */
  lemma {:induction false} LeaseBudget(db: Db, steps: seq<Step>, j: Id)
    requires Inv(db) && j in db.jobs
    ensures LeaseCount(db, steps, j) + db.jobs[j].attempts <= MAX_ATTEMPTS * (1 + ResumeCount(db, steps, db.jobs[j].run))
    decreases |steps|
  {
    if steps != [] {
      var s := steps[0];
      StepEvolves(db, s);
      StepKeepsInv(db, s);
      JobMoves(db, s, j);
      LeaseSpends(db, s, j);
      LeaseBudget(After(db, s), steps[1..], j);
    }
  }

  lemma {:induction false} LeaseBudgetOfNewJob(db: Db, steps: seq<Step>, j: Id)
    requires Inv(db) && j in Execute(db, steps).jobs
    ensures LeaseCount(db, steps, j) <= MAX_ATTEMPTS * (1 + ResumeCount(db, steps, Execute(db, steps).jobs[j].run))
    decreases |steps|
  {
    if j in db.jobs {
      LeaseBudget(db, steps, j);
      GrantsFollowDecisions(db, steps, j, Allow);
    } else {
      StepKeepsInv(db, steps[0]);
      LeaseBudgetOfNewJob(After(db, steps[0]), steps[1..], j);
    }
  }

  function DecidedApprovals(db: Db, run: Id): set<ApprovalId> {
    set a | a in db.approvals && db.approvals[a].run == run && db.approvals[a].decision.Some?
  }

  function ClosedQuestionnaires(db: Db, run: Id): set<InteractionId> {
    set i | i in db.interactions && db.interactions[i].run == run
            && db.interactions[i].kind == Questionnaire && db.interactions[i].status != Pending
  }

  function ResumeCredit(db: Db, run: Id): nat {
    |DecidedApprovals(db, run)| + |ClosedQuestionnaires(db, run)|
  }

  lemma DecisionsGrow(db: Db, s: Step, next: Db, run: Id)
    requires ApprovalsEvolve(db, s, next)
    ensures |DecidedApprovals(next, run)| >= |DecidedApprovals(db, run)| + (if Decides(db, s, run) then 1 else 0)
  {
    SubsetSize(DecidedApprovals(db, run), DecidedApprovals(next, run));
    if Decides(db, s, run) {
      assert s.approval in DecidedApprovals(next, run) && s.approval !in DecidedApprovals(db, run);
    }
  }

  lemma AnswersGrow(db: Db, s: Step, next: Db, run: Id)
    requires InteractionsEvolve(db, s, next)
    ensures |ClosedQuestionnaires(next, run)| >= |ClosedQuestionnaires(db, run)| + (if Answers(db, s, run) then 1 else 0)
  {
    SubsetSize(ClosedQuestionnaires(db, run), ClosedQuestionnaires(next, run));
    if Answers(db, s, run) {
      assert s.interaction in ClosedQuestionnaires(next, run) && s.interaction !in ClosedQuestionnaires(db, run);
    }
  }

  lemma {:induction false} ResumesAreRecorded(db: Db, steps: seq<Step>, run: Id)
    requires Inv(db)
    ensures ResumeCount(db, steps, run) + ResumeCredit(db, run) <= ResumeCredit(Execute(db, steps), run)
    decreases |steps|
  {
    if steps != [] {
      var s := steps[0];
      StepEvolves(db, s);
      StepKeepsInv(db, s);
      DecisionsGrow(db, s, After(db, s), run);
      AnswersGrow(db, s, After(db, s), run);
      assert Resumes(db, s, run) ==> run in db.runs;
      ResumesAreRecorded(After(db, s), steps[1..], run);
    }
  }

  /** However workers crash, retry and let leases lapse, a job is leased at most MAX_ATTEMPTS times for its
      creation, for each decided approval and for each closed questionnaire of its run. */
  lemma LeasesAreBounded(steps: seq<Step>, j: Id)
    requires j in Execute(EMPTY, steps).jobs
    ensures var last := Execute(EMPTY, steps);
      LeaseCount(EMPTY, steps, j) <= MAX_ATTEMPTS * (1 + ResumeCredit(last, last.jobs[j].run))
  {
    var run := Execute(EMPTY, steps).jobs[j].run;
    LeaseBudgetOfNewJob(EMPTY, steps, j);
    ResumesAreRecorded(EMPTY, steps, run);
  }

  // ---------------------------------------------------------------- the lease fence

  /** The step leases the job, and to this owner. */
  predicate LeasesTo(db: Db, s: Step, j: Id, owner: Worker) {
    Leases(db, s, j) && s.owner == owner
  }

  /** No step of the run leases the job to this owner, in the state it is taken in. */
  predicate NeverLeasedTo(db: Db, steps: seq<Step>, j: Id, owner: Worker)
    decreases |steps|
  {
    steps != [] ==> !LeasesTo(db, steps[0], j, owner) && NeverLeasedTo(After(db, steps[0]), steps[1..], j, owner)
  }

  predicate NeverLeased(db: Db, steps: seq<Step>, j: Id)
    decreases |steps|
  {
    steps != [] ==> !Leases(db, steps[0], j) && NeverLeased(After(db, steps[0]), steps[1..], j)
  }

  lemma FenceMoves(db: Db, s: Step, j: Id, owner: Worker)
    requires j in db.jobs && db.jobs[j].run in db.runs && !Holds(db, j, owner) && !LeasesTo(db, s, j, owner)
    ensures !(JobAfter(db, s, j).status == Leased && JobAfter(db, s, j).owner == Some(owner))
  {
  }

  lemma {:induction false} LostJobStaysLost(db: Db, steps: seq<Step>, j: Id, owner: Worker)
    requires Inv(db) && !Holds(db, j, owner) && NeverLeasedTo(db, steps, j, owner)
    ensures !Holds(Execute(db, steps), j, owner)
    decreases |steps|
  {
    hide Apply, LeasesTo, JobAfter;
    if steps != [] {
      var s := steps[0];
      StepEvolves(db, s);
      StepKeepsInv(db, s);
      if j in db.jobs {
        FenceMoves(db, s, j, owner);
      }
      LostJobStaysLost(After(db, s), steps[1..], j, owner);
    }
  }

  /** A worker that has lost a job cannot heartbeat, complete or fail it until it leases that job again. */
  lemma LostLeaseStaysLost(db: Db, steps: seq<Step>, j: Id, owner: Worker, lease: nat, retryAfter: nat)
    requires Inv(db) && !Holds(db, j, owner) && NeverLeasedTo(db, steps, j, owner)
    ensures var last := Execute(db, steps);
      && Apply(last, HeartbeatJob(j, owner, lease)) == (last, Conflict)
      && Apply(last, CompleteJob(j, owner)) == (last, Conflict)
      && Apply(last, FailJob(j, owner, retryAfter)) == (last, Conflict)
  {
    hide Execute, Inv, NeverLeasedTo;
    LostJobStaysLost(db, steps, j, owner);
  }

  lemma WaitingJobWaits(db: Db, s: Step, j: Id)
    requires j in db.jobs && db.jobs[j].run in db.runs && db.jobs[j].status == Ready && db.jobs[j].attempts == 0
    requires !Leases(db, s, j) && !(s.CancelRun? && s.run == db.jobs[j].run)
    ensures JobAfter(db, s, j).status == Ready && JobAfter(db, s, j).attempts == 0
    ensures db.jobs[j].payload.resume ==> JobAfter(db, s, j).payload.resume
  {
  }

  predicate Waits(db: Db, j: Id) {
    j in db.jobs && db.jobs[j].status == Ready && db.jobs[j].attempts == 0 && db.jobs[j].payload.resume
  }

  lemma WaitingStep(db: Db, s: Step, j: Id)
    requires Inv(db) && Waits(db, j) && !Leases(db, s, j) && !(s.CancelRun? && s.run == db.jobs[j].run)
    ensures Inv(After(db, s)) && Waits(After(db, s), j) && After(db, s).jobs[j].run == db.jobs[j].run
  {
    hide Apply, Leases, JobAfter, RunsEvolve, RecordsEvolve;
    StepEvolves(db, s);
    StepKeepsInv(db, s);
    JobMoves(db, s, j);
    WaitingJobWaits(db, s, j);
  }

  lemma {:induction false} WaitingJobKeepsWaiting(db: Db, steps: seq<Step>, j: Id)
    requires Inv(db) && Waits(db, j) && NeverLeased(db, steps, j)
    requires forall k :: 0 <= k < |steps| ==> !(steps[k].CancelRun? && steps[k].run == db.jobs[j].run)
    ensures Waits(Execute(db, steps), j)
    decreases |steps|
  {
    hide Apply, Leases, Inv;
    if steps != [] {
      WaitingStep(db, steps[0], j);
      WaitingJobKeepsWaiting(After(db, steps[0]), steps[1..], j);
    }
  }

  lemma ResumeSucceeds(db: Db, s: Step, j: Id)
    requires Inv(db) && j in db.jobs && Resumes(db, s, db.jobs[j].run)
    ensures Succeeds(db, s)
    ensures JobAfter(db, s, j).status == Ready && JobAfter(db, s, j).attempts == 0 && JobAfter(db, s, j).payload.resume
  {
    assert HasJob(db, db.jobs[j].run);
  }

  lemma ResumeTaken(db: Db, s: Step, j: Id)
    requires Inv(db) && j in db.jobs && Resumes(db, s, db.jobs[j].run)
    ensures Succeeds(db, s) && Inv(After(db, s)) && j in After(db, s).jobs && After(db, s).jobs[j].run == db.jobs[j].run
    ensures var job := After(db, s).jobs[j];
      && job.status == Ready && job.attempts == 0 && job.payload.resume
      && (s.DecideApproval? && s.decision == Allow ==> db.approvals[s.approval].hash in Listed(job.payload, Allow))
      && (s.DecideApproval? && s.decision == Deny ==> db.approvals[s.approval].hash in Listed(job.payload, Deny))
  {
    hide Apply, JobAfter, RunAfter, ApprovalAfter, InteractionAfter, OutboxAfter, RecordsEvolve, RunsEvolve;
    ResumeSucceeds(db, s, j);
    StepEvolves(db, s);
    StepKeepsInv(db, s);
    JobMoves(db, s, j);
    PayloadMoves(db, s, j);
  }

  /** A decision or a questionnaire answer is not swallowed before the job is leased again: whatever the worker that held
      it reports late, the job stays ready with a full budget until somebody leases it or the run is cancelled. */
  lemma ResumeIsNotSwallowed(db: Db, s: Step, steps: seq<Step>, j: Id)
    requires Inv(db) && j in db.jobs && Resumes(db, s, db.jobs[j].run)
    requires NeverLeased(After(db, s), steps, j)
    requires forall k :: 0 <= k < |steps| ==> !(steps[k].CancelRun? && steps[k].run == db.jobs[j].run)
    ensures Succeeds(db, s) && j in Execute(db, [s] + steps).jobs
    ensures var job := Execute(db, [s] + steps).jobs[j];
      && job.status == Ready && job.attempts == 0 && job.payload.resume
      && (s.DecideApproval? && s.decision == Allow ==> db.approvals[s.approval].hash in job.payload.approved)
      && (s.DecideApproval? && s.decision == Deny ==> db.approvals[s.approval].hash in job.payload.denied)
  {
    hide Apply, Inv, Succeeds, Resumes, NeverLeased, DecisionLog;
    ResumeTaken(db, s, j);
    var next := After(db, s);
    assert ([s] + steps)[1..] == steps;
    WaitingJobKeepsWaiting(next, steps, j);
    GrantsFollowDecisions(next, steps, j, Allow);
    GrantsFollowDecisions(next, steps, j, Deny);
  }

  // ---------------------------------------------------------------- what the engine reports

  /** Events as the engine shapes them: stable identifiers are derived from the run, and digests from the call. */
  predicate EngineShaped(s: Step) {
    s.AppendRunEvent? ==>
      match s.content
      case ApprovalRequested(approval, call, tool, arguments, hash) =>
        hash == Digest(tool, arguments) && approval == ApprovalId(s.run, call, hash)
      case InputRequested(interaction, _, _) => interaction.run == s.run
      case _ => true
  }

  ghost predicate EngineRun(steps: seq<Step>) {
    forall k :: 0 <= k < |steps| ==> EngineShaped(steps[k])
  }

  // ---------------------------------------------------------------- one active run per session

  predicate ActiveIn(db: Db, r: Id, tenant: Id, session: Id) {
    r in db.runs && db.runs[r].tenant == tenant && db.runs[r].session == session && IsActive(db.runs[r].status)
  }

  ghost predicate SingleActive(db: Db, tenant: Id, session: Id) {
    forall r, q :: ActiveIn(db, r, tenant, session) && ActiveIn(db, q, tenant, session) ==> r == q
  }

  /** A worker restarts a failed run of the session while another of its runs is active. */
  predicate Revives(db: Db, s: Step, tenant: Id, session: Id) {
    && s.StartRun? && s.run in db.runs && db.runs[s.run].tenant == tenant && db.runs[s.run].session == session
    && db.runs[s.run].status == Failed && HasActiveRun(db, tenant, session)
  }

  lemma ActivityMoves(db: Db, s: Step, r: Id)
    requires r in db.runs
    ensures RunAfter(db, s, r).tenant == db.runs[r].tenant && RunAfter(db, s, r).session == db.runs[r].session
    ensures IsActive(RunAfter(db, s, r).status) && !IsActive(db.runs[r].status) ==>
              s.StartRun? && s.run == r && db.runs[r].status == Failed
    ensures s.StartRun? && s.run == r && db.runs[r].status == Failed ==> IsActive(RunAfter(db, s, r).status)
    ensures s.StartRun? && IsActive(db.runs[r].status) ==> IsActive(RunAfter(db, s, r).status)
  {
  }

  lemma StepKeepsSingleActive(db: Db, s: Step, next: Db, tenant: Id, session: Id)
    requires SingleActive(db, tenant, session) && RunsEvolve(db, s, next)
    ensures SingleActive(next, tenant, session) <==> !Revives(db, s, tenant, session)
  {
    hide RunAfter;
    forall r | r in db.runs
      ensures ActiveIn(next, r, tenant, session) ==> ActiveIn(db, r, tenant, session) || (s.StartRun? && s.run == r && db.runs[r].status == Failed)
      ensures s.StartRun? && ActiveIn(db, r, tenant, session) ==> ActiveIn(next, r, tenant, session)
      ensures next.runs[r].tenant == db.runs[r].tenant && next.runs[r].session == db.runs[r].session
    {
      ActivityMoves(db, s, r);
    }
    if Revives(db, s, tenant, session) {
      var q :| ActiveIn(db, q, tenant, session);
      ActivityMoves(db, s, s.run);
      assert ActiveIn(next, s.run, tenant, session) && ActiveIn(next, q, tenant, session) && q != s.run;
    } else {
      forall r, q | ActiveIn(next, r, tenant, session) && ActiveIn(next, q, tenant, session) ensures r == q {
      }
    }
  }

  ghost predicate AlwaysSingleActive(db: Db, steps: seq<Step>, tenant: Id, session: Id)
    decreases |steps|
  {
    SingleActive(db, tenant, session)
    && (steps != [] ==> AlwaysSingleActive(After(db, steps[0]), steps[1..], tenant, session))
  }

  predicate NeverRevives(db: Db, steps: seq<Step>, tenant: Id, session: Id)
    decreases |steps|
  {
    steps != [] ==> !Revives(db, steps[0], tenant, session) && NeverRevives(After(db, steps[0]), steps[1..], tenant, session)
  }

  /** A session has at most one active run throughout exactly when no worker ever restarts one of its
      failed runs beside an active one. */
  lemma {:induction false} SingleActiveIff(db: Db, steps: seq<Step>, tenant: Id, session: Id)
    requires SingleActive(db, tenant, session)
    ensures AlwaysSingleActive(db, steps, tenant, session) <==> NeverRevives(db, steps, tenant, session)
    decreases |steps|
  {
    hide Apply, Revives, SingleActive;
    if steps != [] {
      var next := After(db, steps[0]);
      StepEvolves(db, steps[0]);
      StepKeepsSingleActive(db, steps[0], next, tenant, session);
      if SingleActive(next, tenant, session) {
        SingleActiveIff(next, steps[1..], tenant, session);
      }
    }
  }

  // ---------------------------------------------------------------- the outbox

  predicate LeasesRow(db: Db, s: Step, e: Id) {
    s.LeaseOutbox? && e in db.outbox && e in s.picked && Sendable(db.outbox[e], db.now)
  }

  function RowLeaseCount(db: Db, steps: seq<Step>, e: Id): nat
    decreases |steps|
  {
    if steps == [] then 0
    else (if LeasesRow(db, steps[0], e) then 1 else 0) + RowLeaseCount(After(db, steps[0]), steps[1..], e)
  }

  lemma RowAttemptMoves(db: Db, s: Step, e: Id)
    requires e in db.outbox
    ensures OutboxAfter(db, s, e).attempts == db.outbox[e].attempts + (if LeasesRow(db, s, e) then 1 else 0)
    ensures db.outbox[e].publishedAt.Some? && db.outbox[e].owner == None ==> OutboxAfter(db, s, e) == db.outbox[e]
    ensures db.outbox[e].publishedAt.Some? ==> !LeasesRow(db, s, e)
  {
  }

  /** Attempts count leases exactly; there are at most twenty, none after publication, and publication is final. */
  lemma {:induction false} OutboxHistory(db: Db, steps: seq<Step>, e: Id)
    requires Inv(db) && e in db.outbox
    ensures e in Execute(db, steps).outbox
    ensures Execute(db, steps).outbox[e].attempts == db.outbox[e].attempts + RowLeaseCount(db, steps, e) <= MAX_OUTBOX_ATTEMPTS
    ensures db.outbox[e].publishedAt.Some? ==> Execute(db, steps).outbox[e] == db.outbox[e] && RowLeaseCount(db, steps, e) == 0
    decreases |steps|
  {
    hide Apply, OutboxAfter, LeasesRow;
    if steps != [] {
      StepEvolves(db, steps[0]);
      StepKeepsInv(db, steps[0]);
      RowAttemptMoves(db, steps[0], e);
      OutboxHistory(After(db, steps[0]), steps[1..], e);
    }
  }

  // ---------------------------------------------------------------- idempotent creation

  lemma {:induction false} KeysAreFinal(db: Db, steps: seq<Step>, key: (Id, Text))
    requires key in db.keys
    ensures key in Execute(db, steps).keys && Execute(db, steps).keys[key] == db.keys[key]
    decreases |steps|
  {
    hide Apply;
    if steps != [] {
      StepEvolves(db, steps[0]);
      KeysAreFinal(After(db, steps[0]), steps[1..], key);
    }
  }

  /** A request retried with its idempotency key, at any later time, creates nothing and returns the first run. */
  lemma RetriedCreationReplays(db: Db, first: Step, steps: seq<Step>, retry: Step)
    requires first.CreateRun? && Succeeds(db, first) && first.key != NO_KEY
    requires retry.CreateRun? && retry.tenant == first.tenant && retry.key == first.key
    ensures var last := Execute(db, [first] + steps); Apply(last, retry) == (last, Replay(first.run))
  {
    var next := After(db, first);
    assert (first.tenant, first.key) in next.keys && next.keys[(first.tenant, first.key)] == first.run;
    assert ([first] + steps)[1..] == steps;
    KeysAreFinal(next, steps, (first.tenant, first.key));
  }
}
