/**
 Executions of a job among each other. A worker runs several at a time and reports under its own name, so a report does not
 say which lease of the job it belongs to.
 */
module Executions {
  import opened ControlPlane
  import opened ControlPlaneInvariants
  import opened ControlPlaneRows
  import opened ControlPlaneTheorems
  import opened Wrappers

  /** The step ends whatever lease of the job there is: by a report of its holder, by burying it, by a cancellation, or by
      making it available to others. */
  predicate EndsLease(db: Db, s: Step, j: Id) {
    j in db.jobs &&
    (var job := db.jobs[j];
     || Leases(db, s, j)
     || Resumes(db, s, job.run)
     || Cancels(db, s, job.run)
     || (s.LeaseJobs? && Exhausted(job, db.now))
     || (s.CompleteJob? && s.job == j && Holds(db, j, s.owner))
     || (s.FailJob? && s.job == j && Holds(db, j, s.owner)))
  }

  /** The job was leased to this owner at step `i`, and that lease has not ended. */
  ghost predicate LeaseStands(steps: seq<Step>, i: nat, j: Id, owner: Worker) {
    && i < |steps|
    && LeasesTo(Execute(EMPTY, steps[..i]), steps[i], j, owner)
    && forall k :: i < k < |steps| ==> !EndsLease(Execute(EMPTY, steps[..k]), steps[k], j)
  }

  lemma HoldMoves(db: Db, s: Step, j: Id, owner: Worker)
    requires j in db.jobs && db.jobs[j].run in db.runs
    ensures var job := JobAfter(db, s, j);
      job.status == Leased && job.owner == Some(owner) <==>
      LeasesTo(db, s, j, owner) || (Holds(db, j, owner) && !EndsLease(db, s, j))
  {
  }

  lemma HoldsAfterIff(db: Db, s: Step, j: Id, owner: Worker)
    requires Inv(db)
    ensures Holds(After(db, s), j, owner) <==> LeasesTo(db, s, j, owner) || (Holds(db, j, owner) && !EndsLease(db, s, j))
  {
    hide Apply, LeasesTo, EndsLease, JobAfter;
    StepEvolves(db, s);
    if j in db.jobs {
      HoldMoves(db, s, j, owner);
    } else {
      NoSuchJob(db, s, j, owner);
    }
  }

  lemma NoSuchJob(db: Db, s: Step, j: Id, owner: Worker)
    requires j !in db.jobs
    ensures !LeasesTo(db, s, j, owner) && !Holds(db, j, owner)
  {
  }

  lemma LeaseStandsOn(steps: seq<Step>, i: nat, j: Id, owner: Worker)
    requires steps != []
    ensures var before, s := steps[..|steps| - 1], steps[|steps| - 1];
      LeaseStands(steps, i, j, owner) <==>
      (i == |before| && LeasesTo(Execute(EMPTY, before), s, j, owner)) ||
      (LeaseStands(before, i, j, owner) && !EndsLease(Execute(EMPTY, before), s, j))
  {
    hide Execute, LeasesTo, EndsLease;
    var before := steps[..|steps| - 1];
    assert forall k :: 0 <= k <= |before| ==> before[..k] == steps[..k];
    assert before[..|before|] == before;
  }

  /** A worker holds a job exactly when some lease of the job to it has not ended. */
  lemma {:induction false} HeldIff(steps: seq<Step>, j: Id, owner: Worker)
    ensures Holds(Execute(EMPTY, steps), j, owner) <==> exists i: nat :: LeaseStands(steps, i, j, owner)
    decreases |steps|
  {
    hide Apply, LeasesTo, EndsLease, Holds, Execute, LeaseStands, Inv;
    if steps == [] {
      NobodyHolds(j, owner);
    } else {
      var before, s := steps[..|steps| - 1], steps[|steps| - 1];
      assert before + [s] == steps;
      OneMore(EMPTY, before, s);
      HeldIff(before, j, owner);
      ReachableInv(before);
      HoldsAfterIff(Execute(EMPTY, before), s, j, owner);
      forall i: nat
        ensures LeaseStands(steps, i, j, owner) <==>
                (i == |before| && LeasesTo(Execute(EMPTY, before), s, j, owner)) ||
                (LeaseStands(before, i, j, owner) && !EndsLease(Execute(EMPTY, before), s, j))
      {
        LeaseStandsOn(steps, i, j, owner);
      }
      assert LeasesTo(Execute(EMPTY, before), s, j, owner) ==> LeaseStands(steps, |before|, j, owner);
    }
  }

  lemma NobodyHolds(j: Id, owner: Worker)
    ensures !Holds(Execute(EMPTY, []), j, owner) && forall i: nat :: !LeaseStands([], i, j, owner)
  {
  }

  /** Of all leases of a job at most one stands. */
  lemma OneLeaseStands(steps: seq<Step>, i: nat, k: nat, j: Id, a: Worker, b: Worker)
    requires LeaseStands(steps, i, j, a) && LeaseStands(steps, k, j, b)
    ensures i == k && a == b
  {
    hide Execute;
  }

  lemma ReportedIff(db: Db, j: Id, owner: Worker, retryAfter: nat)
    ensures Succeeds(db, CompleteJob(j, owner)) <==> Holds(db, j, owner)
    ensures Succeeds(db, FailJob(j, owner, retryAfter)) <==> Holds(db, j, owner)
  {
  }

  /** The report of an execution that began with the lease at step `began` is stored exactly when that lease still stands,
      or a later one of the same job to the same worker does; then it is that later execution's job it ends. */
  lemma ReportStoredIff(steps: seq<Step>, began: nat, j: Id, owner: Worker, retryAfter: nat)
    requires began < |steps| && LeasesTo(Execute(EMPTY, steps[..began]), steps[began], j, owner)
    ensures var db := Execute(EMPTY, steps);
      && (Succeeds(db, CompleteJob(j, owner)) <==> exists i :: began <= i && LeaseStands(steps, i, j, owner))
      && (Succeeds(db, FailJob(j, owner, retryAfter)) <==> exists i :: began <= i && LeaseStands(steps, i, j, owner))
  {
    hide Apply, LeasesTo, Execute, Succeeds, Holds;
    HeldIff(steps, j, owner);
    ReportedIff(Execute(EMPTY, steps), j, owner, retryAfter);
    forall i: nat | LeaseStands(steps, i, j, owner) ensures began <= i {
      if i < began {
        NewLeaseEnds(Execute(EMPTY, steps[..began]), steps[began], j, owner);
      }
    }
  }

  lemma NewLeaseEnds(db: Db, s: Step, j: Id, owner: Worker)
    requires LeasesTo(db, s, j, owner)
    ensures EndsLease(db, s, j)
  {
  }

  // ---------------------------------------------------------------- events are not fenced

  lemma KeysIgnoreLeases(db: Db, run: Id, content: RunEvent, jobs: map<Id, Job>)
    ensures ProjectApprovals(db.(jobs := jobs), run, content) == ProjectApprovals(db, run, content)
    ensures ProjectInteractions(db.(jobs := jobs), run, content) == ProjectInteractions(db, run, content)
  {
  }

  lemma ProjectionIgnoresLeases(db: Db, run: Id, content: RunEvent, jobs: map<Id, Job>)
    requires run in db.runs
    ensures ProjectRuns(db.(jobs := jobs), run, content) == ProjectRuns(db, run, content)
  {
    hide ProjectInteractions, ProjectApprovals;
    KeysIgnoreLeases(db, run, content, jobs);
  }

  /** What an event does, and whether it is taken, does not depend on who holds the job: a worker that has lost it reports
      on the run as before. */
  lemma EventsIgnoreLeases(db: Db, s: Step, jobs: map<Id, Job>)
    requires s.AppendRunEvent?
    ensures Apply(db.(jobs := jobs), s) == (Apply(db, s).0.(jobs := jobs), Apply(db, s).1)
  {
    hide ProjectApprovals, ProjectInteractions, ProjectRuns;
    KeysIgnoreLeases(db, s.run, s.content, jobs);
    if s.run in db.runs {
      ProjectionIgnoresLeases(db, s.run, s.content, jobs);
    }
  }
}
