/**
 What a lease is worth, in terms of the rows alone: whom the queue gives a job to,
 and what nobody can do to a job while somebody's lease on it runs.
 */
module Leases {
  import opened ControlPlane
  import opened ControlPlaneInvariants
  import opened ControlPlaneRows
  import opened Wrappers

  /** A leasing transaction gives a job out exactly when it picked the row, attempts are left, the job is due and it is
      ready or its lease has run out; it buries exactly the jobs whose last lease has run out; it leaves every other. */
  lemma LeasedIff(db: Db, s: Step, j: Id)
    requires s.LeaseJobs? && j in db.jobs
    ensures j in After(db, s).jobs
    ensures var job, next := db.jobs[j], After(db, s).jobs[j];
      if j in s.picked && job.attempts < job.maxAttempts && job.availableAt <= db.now
         && (job.status == Ready || (job.status == Leased && job.leaseUntil.Some? && job.leaseUntil.value < db.now))
      then next == job.(status := Leased, owner := Some(s.owner), leaseUntil := Some(db.now + s.lease), attempts := job.attempts + 1)
      else if job.status == Leased && job.leaseUntil.Some? && job.leaseUntil.value < db.now && job.attempts >= job.maxAttempts
      then next == job.(status := Dead, owner := None, leaseUntil := None)
      else next == job
  {
    hide FailLost;
  }

  lemma DeadAfter(db: Db, s: Step, j: Id)
    requires s.LeaseJobs?
    ensures j in db.jobs <==> j in BuryExhausted(db.jobs, db.now)
    ensures j in db.jobs <==> j in After(db, s).jobs
    ensures j in db.jobs ==>
      && BuryExhausted(db.jobs, db.now)[j].run == db.jobs[j].run
      && (After(db, s).jobs[j].status == Dead <==> BuryExhausted(db.jobs, db.now)[j].status == Dead)
  {
    hide FailLost;
  }

  lemma LostIff(db: Db, s: Step, r: Id)
    requires s.LeaseJobs?
    ensures (exists j :: j in After(db, s).jobs && j in db.jobs && db.jobs[j].run == r && After(db, s).jobs[j].status == Dead) <==>
            (exists j :: j in BuryExhausted(db.jobs, db.now) && BuryExhausted(db.jobs, db.now)[j].run == r
                         && BuryExhausted(db.jobs, db.now)[j].status == Dead)
  {
    hide BuryExhausted, Apply;
    var buried, next := BuryExhausted(db.jobs, db.now), After(db, s).jobs;
    if j :| j in next && j in db.jobs && db.jobs[j].run == r && next[j].status == Dead {
      DeadAfter(db, s, j);
      assert buried[j].run == r;
    }
    if j :| j in buried && buried[j].run == r && buried[j].status == Dead {
      DeadAfter(db, s, j);
      assert next[j].status == Dead;
    }
  }

  lemma RunsAfterLease(db: Db, s: Step)
    requires s.LeaseJobs?
    ensures After(db, s).runs == FailLost(db.runs, BuryExhausted(db.jobs, db.now))
  {
    hide BuryExhausted, LeaseAll, FailLost;
  }

  /** Afterwards no run is running whose job is dead; every other run is as it was. */
  lemma LostRunsFail(db: Db, s: Step, r: Id)
    requires s.LeaseJobs? && r in db.runs
    ensures r in After(db, s).runs
    ensures var run, next := db.runs[r], After(db, s).runs[r];
      if run.status == Running && exists j :: j in After(db, s).jobs && j in db.jobs && db.jobs[j].run == r && After(db, s).jobs[j].status == Dead
      then next == run.(status := Failed, version := run.version + 1)
      else next == run
  {
    hide BuryExhausted, Apply;
    RunsAfterLease(db, s);
    LostIff(db, s, r);
  }

  // ---------------------------------------------------------------- a running lease

  /** The holder reports on the job, a user decides or answers on its run, or its run is cancelled. */
  predicate Interrupts(db: Db, s: Step, j: Id)
    requires j in db.jobs
  {
    var job := db.jobs[j];
    match s
    case HeartbeatJob(k, owner, _) => k == j && job.owner == Some(owner)
    case CompleteJob(k, owner) => k == j && job.owner == Some(owner)
    case FailJob(k, owner, _) => k == j && job.owner == Some(owner)
    case CancelRun(_, run, _) => run == job.run
    case DecideApproval(_, a, _, _) => a in db.approvals && db.approvals[a].run == job.run
    case AnswerInteraction(_, i, _, _) => i in db.interactions && db.interactions[i].run == job.run
    case _ => false
  }

  ghost predicate Undisturbed(db: Db, steps: seq<Step>, j: Id) {
    forall k :: 0 <= k < |steps| ==> var at := Execute(db, steps[..k]); j in at.jobs ==> !Interrupts(at, steps[k], j)
  }

  /** Leased, until then. */
  predicate LeasedUntil(db: Db, j: Id, until: Time) {
    j in db.jobs && db.jobs[j].status == Leased && db.jobs[j].leaseUntil == Some(until)
  }

  lemma RunningLeaseStands(db: Db, s: Step, j: Id)
    requires j in db.jobs && db.jobs[j].run in db.runs && !Interrupts(db, s, j)
    requires db.jobs[j].status == Leased && db.jobs[j].leaseUntil.Some? && db.now <= db.jobs[j].leaseUntil.value
    ensures JobAfter(db, s, j) == db.jobs[j]
  {
  }

  lemma RunningLeaseStep(db: Db, s: Step, j: Id, until: Time)
    requires Inv(db) && LeasedUntil(db, j, until) && db.now <= until && !Interrupts(db, s, j)
    ensures Inv(After(db, s)) && After(db, s).now >= db.now && j in After(db, s).jobs && After(db, s).jobs[j] == db.jobs[j]
  {
    hide Apply, JobAfter, Interrupts, RunsEvolve, ApprovalsEvolve, InteractionsEvolve, OutboxEvolves;
    StepEvolves(db, s);
    StepKeepsInv(db, s);
    RunningLeaseStands(db, s, j);
  }

  lemma {:induction false} TimeGoesOn(db: Db, steps: seq<Step>)
    ensures Execute(db, steps).now >= db.now
    decreases |steps|
  {
    hide Apply, JobsEvolve, RunsEvolve, ApprovalsEvolve, InteractionsEvolve, OutboxEvolves;
    if steps != [] {
      StepEvolves(db, steps[0]);
      TimeGoesOn(After(db, steps[0]), steps[1..]);
    }
  }

  lemma UndisturbedRest(db: Db, steps: seq<Step>, j: Id)
    requires steps != [] && Undisturbed(db, steps, j)
    ensures Undisturbed(After(db, steps[0]), steps[1..], j)
    ensures j in db.jobs ==> !Interrupts(db, steps[0], j)
  {
    hide Apply, Interrupts;
    assert steps[..0] == [] && Execute(db, []) == db;
    forall k | 0 <= k < |steps| - 1
      ensures var at := Execute(After(db, steps[0]), steps[1..][..k]); j in at.jobs ==> !Interrupts(at, steps[1..][k], j)
    {
      assert steps[..k + 1][1..] == steps[1..][..k];
      assert steps[1..][k] == steps[k + 1];
    }
  }

  lemma {:induction false} LiveLeaseStands(db: Db, steps: seq<Step>, j: Id, until: Time)
    requires Inv(db) && LeasedUntil(db, j, until) && Undisturbed(db, steps, j)
    requires Execute(db, steps).now <= until
    ensures j in Execute(db, steps).jobs && Execute(db, steps).jobs[j] == db.jobs[j]
    decreases |steps|
  {
    hide Apply, Inv, Interrupts, Undisturbed;
    if steps != [] {
      var next := After(db, steps[0]);
      TimeGoesOn(db, steps);
      UndisturbedRest(db, steps, j);
      RunningLeaseStep(db, steps[0], j, until);
      LiveLeaseStands(next, steps[1..], j, until);
    }
  }

  /** A job leased, or heartbeaten, until some time stays with its holder until then: whatever happens meanwhile, other
      workers leasing jobs included, its row does not change unless the holder reports on it, a user decides or answers on
      its run, or its run is cancelled. */
  lemma LiveLeaseProtects(steps: seq<Step>, i: nat, j: Id, until: Time)
    requires i <= |steps| && LeasedUntil(Execute(EMPTY, steps[..i]), j, until)
    requires Undisturbed(Execute(EMPTY, steps[..i]), steps[i..], j)
    requires Execute(EMPTY, steps).now <= until
    ensures j in Execute(EMPTY, steps).jobs && Execute(EMPTY, steps).jobs[j] == Execute(EMPTY, steps[..i]).jobs[j]
  {
    hide Apply, Inv, Undisturbed, Execute;
    ReachableInv(steps[..i]);
    ExecuteSplit(EMPTY, steps[..i], steps[i..]);
    assert steps[..i] + steps[i..] == steps;
    LiveLeaseStands(Execute(EMPTY, steps[..i]), steps[i..], j, until);
  }

  /** While a lease is left alone, the next worker that picks the job gets it exactly when the lease has run out before and
      attempts are left. */
  lemma TakenOverIff(db: Db, elapsed: nat, s: Step, j: Id, until: Time)
    requires Inv(db) && LeasedUntil(db, j, until) && s.LeaseJobs? && j in s.picked && db.jobs[j].availableAt <= db.now
    ensures var later := Execute(db, [Tick(elapsed), s]);
      && j in later.jobs
      && (later.jobs[j].attempts == db.jobs[j].attempts + 1 <==>
            until < db.now + elapsed && db.jobs[j].attempts < db.jobs[j].maxAttempts)
      && (later.jobs[j].attempts == db.jobs[j].attempts + 1 ==> later.jobs[j].owner == Some(s.owner))
  {
    hide ApplyLeaseJobs, Inv, IsOpen;
    var next := db.(now := db.now + elapsed);
    assert [Tick(elapsed), s][1..] == [s] && [s][1..] == [];
    assert After(db, Tick(elapsed)) == next;
    assert Execute(db, [Tick(elapsed), s]) == Execute(next, [s]);
    assert Execute(next, [s]) == Execute(After(next, s), []);
    LeasedIff(next, s, j);
  }

  // ---------------------------------------------------------------- a job that was given back

  /** Ready, and not due before then. */
  predicate DueAt(db: Db, j: Id, due: Time) {
    j in db.jobs && db.jobs[j].status == Ready && db.jobs[j].availableAt == due
  }

  lemma GivenBackStands(db: Db, s: Step, j: Id)
    requires j in db.jobs && db.jobs[j].run in db.runs && !Interrupts(db, s, j)
    requires db.jobs[j].status == Ready && db.now < db.jobs[j].availableAt
    ensures JobAfter(db, s, j) == db.jobs[j]
  {
  }

  lemma GivenBackStep(db: Db, s: Step, j: Id, due: Time)
    requires Inv(db) && DueAt(db, j, due) && db.now < due && !Interrupts(db, s, j)
    ensures Inv(After(db, s)) && After(db, s).now >= db.now && j in After(db, s).jobs && After(db, s).jobs[j] == db.jobs[j]
  {
    hide Apply, JobAfter, Interrupts, RunsEvolve, ApprovalsEvolve, InteractionsEvolve, OutboxEvolves;
    StepEvolves(db, s);
    StepKeepsInv(db, s);
    GivenBackStands(db, s, j);
  }

  /** A job given back with a delay is given to nobody before it is due, whoever asks; only a decision, an answer or a
      cancellation changes its row. */
  lemma {:induction false} DelayedJobWaits(db: Db, steps: seq<Step>, j: Id, due: Time)
    requires Inv(db) && DueAt(db, j, due) && Undisturbed(db, steps, j)
    requires Execute(db, steps).now < due
    ensures j in Execute(db, steps).jobs && Execute(db, steps).jobs[j] == db.jobs[j]
    decreases |steps|
  {
    hide Apply, Inv, Interrupts, Undisturbed;
    if steps != [] {
      var next := After(db, steps[0]);
      TimeGoesOn(db, steps);
      UndisturbedRest(db, steps, j);
      GivenBackStep(db, steps[0], j, due);
      DelayedJobWaits(next, steps[1..], j, due);
    }
  }

  // ---------------------------------------------------------------- rows of the outbox

  /** The row is nobody's and not due before then, or somebody's until then. */
  predicate RowRests(db: Db, e: Id, until: Time) {
    e in db.outbox && db.outbox[e].publishedAt == None &&
    (match db.outbox[e].leaseUntil
     case None => db.outbox[e].owner == None && db.outbox[e].nextAttemptAt == until + 1
     case Some(u) => u == until)
  }

  /** The owner of the row reports on it. */
  predicate ReportsRow(db: Db, s: Step, e: Id)
    requires e in db.outbox
  {
    match s
    case MarkOutboxPublished(f, owner) => f == e && db.outbox[e].owner == Some(owner)
    case FailOutbox(f, owner, _) => f == e && db.outbox[e].owner == Some(owner)
    case _ => false
  }

  ghost predicate NobodyReports(db: Db, steps: seq<Step>, e: Id) {
    forall k :: 0 <= k < |steps| ==> var at := Execute(db, steps[..k]); e in at.outbox ==> !ReportsRow(at, steps[k], e)
  }

  lemma RestingRowStands(db: Db, s: Step, e: Id, until: Time)
    requires RowRests(db, e, until) && db.now <= until && !ReportsRow(db, s, e)
    ensures OutboxAfter(db, s, e) == db.outbox[e]
  {
  }

  lemma RestingRowStep(db: Db, s: Step, e: Id, until: Time)
    requires RowRests(db, e, until) && db.now <= until && !ReportsRow(db, s, e)
    ensures After(db, s).now >= db.now && e in After(db, s).outbox && After(db, s).outbox[e] == db.outbox[e]
  {
    hide Apply, OutboxAfter, ReportsRow, JobsEvolve, RunsEvolve, ApprovalsEvolve, InteractionsEvolve;
    StepEvolves(db, s);
    RestingRowStands(db, s, e, until);
  }

  lemma NobodyReportsRest(db: Db, steps: seq<Step>, e: Id)
    requires steps != [] && NobodyReports(db, steps, e)
    ensures NobodyReports(After(db, steps[0]), steps[1..], e)
    ensures e in db.outbox ==> !ReportsRow(db, steps[0], e)
  {
    hide Apply, ReportsRow;
    assert steps[..0] == [] && Execute(db, []) == db;
    forall k | 0 <= k < |steps| - 1
      ensures var at := Execute(After(db, steps[0]), steps[1..][..k]); e in at.outbox ==> !ReportsRow(at, steps[1..][k], e)
    {
      assert steps[..k + 1][1..] == steps[1..][..k];
      assert steps[1..][k] == steps[k + 1];
    }
  }

  /** An event leased to a publisher is leased to no other while that lease runs, unless its owner reports on it; one given back
      is leased to nobody before its next attempt is due. */
  lemma {:induction false} RowIsLeftAlone(db: Db, steps: seq<Step>, e: Id, until: Time)
    requires RowRests(db, e, until) && NobodyReports(db, steps, e) && Execute(db, steps).now <= until
    ensures e in Execute(db, steps).outbox && Execute(db, steps).outbox[e] == db.outbox[e]
    decreases |steps|
  {
    hide Apply, ReportsRow, NobodyReports;
    if steps != [] {
      TimeGoesOn(db, steps);
      NobodyReportsRest(db, steps, e);
      RestingRowStep(db, steps[0], e, until);
      RowIsLeftAlone(After(db, steps[0]), steps[1..], e, until);
    }
  }
}
