/** What holds of the control plane in every reachable state and over every run of steps. */
module ControlPlaneInvariants {
  import opened Wrappers
  import opened ControlPlane
  import opened ControlPlaneRows

  // ---------------------------------------------------------------- runs

  /** The run life cycle: nothing leaves completed or cancelled, and failed can only be restarted. */
  predicate MayBecome(before: RunStatus, after: RunStatus) {
    || before == after
    || match before
       case Queued => after == Running || after == Failed || after == Cancelled
       case Running => after != Queued
       case AwaitingApproval => after == Queued || after == Failed || after == Cancelled
       case AwaitingInput => after == Running || after == Queued || after == Cancelled
       case Failed => after == Running
       case Completed => false
       case Cancelled => false
  }

  lemma RunMoves(db: Db, s: Step, r: Id)
    requires r in db.runs
    ensures var before, after := db.runs[r], RunAfter(db, s, r);
      && after.tenant == before.tenant && after.session == before.session
      && (after == before || after.version == before.version + 1)
      && MayBecome(before.status, after.status)
  {
  }

  /** Over any run of steps a run keeps its tenant and session, completed and cancelled are final,
      and an unchanged version means an unchanged row. */
  lemma {:induction false} RunHistory(db: Db, steps: seq<Step>, r: Id)
    requires r in db.runs
    ensures r in Execute(db, steps).runs
    ensures var last := Execute(db, steps).runs[r];
      && last.tenant == db.runs[r].tenant && last.session == db.runs[r].session
      && last.version >= db.runs[r].version
      && (last.version == db.runs[r].version ==> last == db.runs[r])
      && (db.runs[r].status == Completed || db.runs[r].status == Cancelled ==> last.status == db.runs[r].status)
    decreases |steps|
  {
    if steps != [] {
      StepEvolves(db, steps[0]);
      RunMoves(db, steps[0], r);
      RunHistory(After(db, steps[0]), steps[1..], r);
    }
  }

  // ---------------------------------------------------------------- the table invariants

  predicate JobOk(job: Job) {
    && job.attempts <= job.maxAttempts == MAX_ATTEMPTS
    && (job.status == Ready ==> job.attempts < job.maxAttempts)
    && (job.status == Leased <==> job.owner.Some?)
    && (job.status == Leased <==> job.leaseUntil.Some?)
  }

  ghost predicate JobRowsOk(db: Db) {
    forall j :: j in db.jobs ==> JobOk(db.jobs[j]) && db.jobs[j].run in db.runs
  }

  ghost predicate OneJobPerRun(db: Db) {
    && (forall j, k :: j in db.jobs && k in db.jobs && db.jobs[j].run == db.jobs[k].run ==> j == k)
    && (forall r :: r in db.runs ==> HasJob(db, r))
  }

  /** Every job row is consistent, every job belongs to a run, and every run has exactly one job. */
  ghost predicate JobsOk(db: Db) {
    JobRowsOk(db) && OneJobPerRun(db)
  }

  predicate ApprovalRowOk(row: Approval, now: Time) {
    && (row.decision.Some? <==> row.decidedAt.Some?)
    && (row.decidedAt.Some? ==> row.decidedAt.value <= now)
    && (row.decision == Some(Allow) ==> row.decidedAt.value < row.expiresAt)
  }

  ghost predicate ApprovalsOk(db: Db) {
    forall a :: a in db.approvals ==> db.approvals[a].run in db.runs && ApprovalRowOk(db.approvals[a], db.now)
  }

  ghost predicate DecidedOn(db: Db, run: Id, hash: Digest, decision: Decision) {
    exists a :: a in db.approvals && db.approvals[a].run == run && db.approvals[a].hash == hash
                && db.approvals[a].decision == Some(decision)
  }

  /** The hashes a job carries as approved are exactly those of the run's allowed approvals;
      those it carries as denied are hashes of denied approvals. */
  ghost predicate GrantOk(db: Db, j: Id, h: Digest)
    requires j in db.jobs
  {
    && (h in db.jobs[j].payload.approved <==> DecidedOn(db, db.jobs[j].run, h, Allow))
    && (h in db.jobs[j].payload.denied ==> DecidedOn(db, db.jobs[j].run, h, Deny))
  }

  ghost predicate GrantsOk(db: Db) {
    forall j, h :: j in db.jobs ==> GrantOk(db, j, h)
  }

  /** An outbox row is leased at most twenty times, is owned exactly while leased, and is
      released for good once published. */
  predicate OutboxRowOk(row: OutboxRow) {
    && row.attempts <= MAX_OUTBOX_ATTEMPTS
    && (row.owner.Some? <==> row.leaseUntil.Some?)
    && (row.publishedAt.Some? ==> row.owner == None)
    && (row.publishedAt.Some? || row.owner.Some? ==> row.attempts > 0)
  }

  ghost predicate NumbersApart(outbox: map<Id, OutboxRow>) {
    && (forall e :: e in outbox ==> outbox[e].number < |outbox|)
    && (forall e, f :: e in outbox && f in outbox && outbox[e].number == outbox[f].number ==> e == f)
  }

  /** Every event has the outbox row of the same id, for the same run; rows are numbered apart. */
  ghost predicate OutboxOk(db: Db) {
    && NumbersApart(db.outbox)
    && (forall e :: e in db.outbox ==> OutboxRowOk(db.outbox[e]) && db.outbox[e].run in db.runs)
    && (forall e :: e in db.events ==> e in db.outbox && db.outbox[e].run == db.events[e])
  }

  ghost predicate Inv(db: Db) {
    JobsOk(db) && ApprovalsOk(db) && GrantsOk(db) && OutboxOk(db)
  }

  lemma JobMoves(db: Db, s: Step, j: Id)
    requires j in db.jobs && db.jobs[j].run in db.runs
    ensures JobAfter(db, s, j).run == db.jobs[j].run
    ensures JobOk(db.jobs[j]) ==> JobOk(JobAfter(db, s, j))
  {
  }

  lemma StepKeepsJobRows(db: Db, s: Step, next: Db)
    requires JobRowsOk(db) && JobsEvolve(db, s, next)
    requires forall r :: r in db.runs ==> r in next.runs
    ensures JobRowsOk(next)
    ensures forall j :: j in db.jobs ==> j in next.jobs && next.jobs[j].run == db.jobs[j].run
  {
    hide JobAfter;
    forall j | j in db.jobs
      ensures JobOk(next.jobs[j]) && next.jobs[j].run == db.jobs[j].run
    {
      JobMoves(db, s, j);
    }
  }

  lemma StepKeepsOneJobPerRun(db: Db, s: Step, next: Db)
    requires JobRowsOk(db) && OneJobPerRun(db) && JobsEvolve(db, s, next) && RunsEvolve(db, s, next)
    requires forall j :: j in db.jobs ==> j in next.jobs && next.jobs[j].run == db.jobs[j].run
    ensures OneJobPerRun(next)
  {
    hide JobAfter, RunAfter;
    forall r | r in next.runs ensures HasJob(next, r) {
      if r in db.runs {
        var j :| j in db.jobs && db.jobs[j].run == r;
        assert j in next.jobs;
      } else {
        assert next.jobs[s.job].run == r;
      }
    }
  }

  lemma ApprovalMoves(db: Db, s: Step, a: ApprovalId, later: Time)
    requires a in db.approvals && ApprovalRowOk(db.approvals[a], db.now) && db.now <= later
    ensures ApprovalRowOk(ApprovalAfter(db, s, a), later) && ApprovalAfter(db, s, a).run == db.approvals[a].run
  {
    hide HasJob;
  }

  lemma StepKeepsApprovals(db: Db, s: Step, next: Db)
    requires ApprovalsOk(db) && ApprovalsEvolve(db, s, next) && db.now <= next.now
    requires forall r :: r in db.runs ==> r in next.runs
    ensures ApprovalsOk(next)
  {
    hide ApprovalAfter, ProjectApprovals, Reports;
    forall a | a in db.approvals ensures ApprovalRowOk(next.approvals[a], next.now) && next.approvals[a].run == db.approvals[a].run {
      ApprovalMoves(db, s, a, next.now);
    }
  }

  /** The approved and denied lists of a job grow by exactly the digest of each decision on its run. */
  lemma PayloadMoves(db: Db, s: Step, j: Id)
    requires j in db.jobs && db.jobs[j].run in db.runs
    ensures var before, after := db.jobs[j].payload, JobAfter(db, s, j).payload;
      if DecidesOn(db, s, db.jobs[j].run) then
        var hash := db.approvals[s.approval].hash;
        && after.approved == before.approved + (if s.decision == Allow then [hash] else [])
        && after.denied == before.denied + (if s.decision == Deny then [hash] else [])
      else after.approved == before.approved && after.denied == before.denied
  {
  }

  lemma DecisionsKept(db: Db, s: Step, next: Db, run: Id, h: Digest, d: Decision)
    requires ApprovalsEvolve(db, s, next) && DecidedOn(db, run, h, d)
    ensures DecidedOn(next, run, h, d)
  {
    var a :| a in db.approvals && db.approvals[a].run == run && db.approvals[a].hash == h && db.approvals[a].decision == Some(d);
    assert next.approvals[a] == db.approvals[a];
  }

  lemma NewGrant(db: Db, s: Step, next: Db, run: Id, h: Digest)
    requires ApprovalsEvolve(db, s, next) && !DecidedOn(db, run, h, Allow)
    ensures DecidedOn(next, run, h, Allow) <==> Decides(db, s, run) && s.decision == Allow && db.approvals[s.approval].hash == h
  {
    if DecidedOn(next, run, h, Allow) {
      var a :| a in next.approvals && next.approvals[a].run == run && next.approvals[a].hash == h && next.approvals[a].decision == Some(Allow);
      assert a in db.approvals;
    }
    if Decides(db, s, run) {
      assert next.approvals[s.approval].decision == Some(s.decision);
    }
  }

  lemma StepKeepsGrant(db: Db, s: Step, next: Db, j: Id, h: Digest)
    requires JobRowsOk(db) && j in db.jobs && GrantOk(db, j, h) && JobsEvolve(db, s, next) && ApprovalsEvolve(db, s, next)
    ensures GrantOk(next, j, h)
  {
    hide JobAfter, ApprovalAfter;
    var run := db.jobs[j].run;
    JobMoves(db, s, j);
    PayloadMoves(db, s, j);
    if DecidedOn(db, run, h, Allow) { DecisionsKept(db, s, next, run, h, Allow); } else { NewGrant(db, s, next, run, h); }
    if DecidedOn(db, run, h, Deny) { DecisionsKept(db, s, next, run, h, Deny); }
    if DecidesOn(db, s, run) { DecisionWritten(db, s, next, run); }
  }

  lemma StepKeepsGrants(db: Db, s: Step, next: Db)
    requires JobsOk(db) && ApprovalsOk(db) && GrantsOk(db) && JobsEvolve(db, s, next) && ApprovalsEvolve(db, s, next)
    ensures GrantsOk(next)
  {
    hide JobAfter, ApprovalAfter;
    forall j, h | j in next.jobs ensures GrantOk(next, j, h) {
      if j in db.jobs {
        StepKeepsGrant(db, s, next, j, h);
      } else if DecidedOn(next, next.jobs[j].run, h, Allow) {
        NewGrant(db, s, next, next.jobs[j].run, h);
      }
    }
  }

  lemma DecisionWritten(db: Db, s: Step, next: Db, run: Id)
    requires ApprovalsEvolve(db, s, next) && Decides(db, s, run)
    ensures DecidedOn(next, run, db.approvals[s.approval].hash, s.decision)
  {
    assert next.approvals[s.approval].decision == Some(s.decision);
  }

  lemma OutboxRowMoves(db: Db, s: Step, e: Id)
    requires e in db.outbox
    ensures OutboxAfter(db, s, e).run == db.outbox[e].run && OutboxAfter(db, s, e).number == db.outbox[e].number
    ensures OutboxRowOk(db.outbox[e]) ==> OutboxRowOk(OutboxAfter(db, s, e))
  {
  }

  lemma OutboxGrows(db: Db, s: Step, next: Db)
    requires OutboxEvolves(db, s, next)
    ensures |next.outbox| >= |db.outbox|
    ensures (exists e :: e in next.outbox && e !in db.outbox) ==> |next.outbox| > |db.outbox|
  {
    hide OutboxAfter, NewRow;
    assert next.outbox.Keys == db.outbox.Keys + (next.outbox.Keys - db.outbox.Keys);
  }

  lemma StepKeepsOutboxRows(db: Db, s: Step, next: Db)
    requires OutboxOk(db) && OutboxEvolves(db, s, next)
    ensures forall e :: e in db.outbox ==>
      OutboxRowOk(next.outbox[e]) && next.outbox[e].run == db.outbox[e].run && next.outbox[e].number == db.outbox[e].number
  {
    hide OutboxAfter;
    forall e | e in db.outbox
      ensures OutboxRowOk(next.outbox[e]) && next.outbox[e].run == db.outbox[e].run && next.outbox[e].number == db.outbox[e].number
    {
      OutboxRowMoves(db, s, e);
    }
  }

  lemma NumbersStayApart(db: Db, s: Step, next: Db)
    requires OutboxOk(db) && OutboxEvolves(db, s, next)
    requires forall e :: e in db.outbox ==> next.outbox[e].number == db.outbox[e].number
    ensures NumbersApart(next.outbox)
  {
    hide OutboxAfter, OutboxRowOk;
    OutboxGrows(db, s, next);
    forall e | e in next.outbox && e !in db.outbox ensures next.outbox[e].number == |db.outbox| {
      assert next.outbox[e] == NewRow(db, next.outbox[e].run);
    }
  }

  lemma StepKeepsOutbox(db: Db, s: Step, next: Db)
    requires OutboxOk(db) && OutboxEvolves(db, s, next)
    requires forall r :: r in db.runs ==> r in next.runs
    ensures OutboxOk(next)
  {
    hide OutboxAfter, NumbersApart;
    StepKeepsOutboxRows(db, s, next);
    NumbersStayApart(db, s, next);
  }

  lemma StepKeepsInv(db: Db, s: Step)
    requires Inv(db)
    ensures Inv(After(db, s))
  {
    hide Apply;
    var next := After(db, s);
    StepEvolves(db, s);
    StepKeepsJobRows(db, s, next);
    StepKeepsOneJobPerRun(db, s, next);
    StepKeepsApprovals(db, s, next);
    StepKeepsGrants(db, s, next);
    StepKeepsOutbox(db, s, next);
  }

  lemma {:induction false} ExecuteKeepsInv(db: Db, steps: seq<Step>)
    requires Inv(db)
    ensures Inv(Execute(db, steps))
    decreases |steps|
  {
    if steps != [] {
      StepKeepsInv(db, steps[0]);
      ExecuteKeepsInv(After(db, steps[0]), steps[1..]);
    }
  }

  /** The invariants hold in every state the control plane can reach. */
  lemma ReachableInv(steps: seq<Step>)
    ensures Inv(Execute(EMPTY, steps))
  {
    ExecuteKeepsInv(EMPTY, steps);
  }
}
