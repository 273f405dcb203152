/** What a worker does with one leased job, as the steps it takes on the control plane. */
module Worker {
  import opened ControlPlane
  import opened ControlPlaneInvariants
  import opened ControlPlaneTheorems
  import opened Repository

  /** The report a job ends with. */
  predicate ReportsOn(s: Step, job: Id, owner: ControlPlane.Worker) {
    (s.CompleteJob? && s.job == job && s.owner == owner) || (s.FailJob? && s.job == job && s.owner == owner)
  }

  lemma ReportReleases(db: Db, s: Step, job: Id, owner: ControlPlane.Worker)
    requires ReportsOn(s, job, owner)
    ensures !Holds(After(db, s), job, owner)
  {
  }

  /** Events of one run as they come out of the engine, each under the identifier it is stored with. */
  function Appends(tenant: Id, run: Id, events: seq<(Id, RunEvent)>): (steps: seq<Step>)
    ensures |steps| == |events|
    ensures forall k :: 0 <= k < |steps| ==> steps[k] == AppendRunEvent(tenant, run, events[k].0, events[k].1)
  {
    seq(|events|, k requires 0 <= k < |events| => AppendRunEvent(tenant, run, events[k].0, events[k].1))
  }

  /** All the steps were taken, and each succeeded. */
  ghost predicate AllStored(db: Db, taken: seq<Step>, all: seq<Step>) {
    taken == all && forall k :: 0 <= k < |taken| ==> Succeeds(Execute(db, taken[..k]), taken[k])
  }

  /** Stores the engine's events; the first that cannot be stored stops the engine. */
  method RecordEvents(repo: Repository, tenant: Id, run: Id, events: seq<(Id, RunEvent)>)
    returns (stored: bool, ghost taken: seq<Step>)
    modifies repo
    ensures repo.Tables() == Execute(old(repo.Tables()), taken) && taken <= Appends(tenant, run, events)
    ensures stored <==> AllStored(old(repo.Tables()), taken, Appends(tenant, run, events))
  {
    hide Apply, Execute;
    taken := [];
    ghost var all := Appends(tenant, run, events);
    NoSteps(repo.Tables());
    for k := 0 to |events|
      invariant taken == all[..k] && repo.Tables() == Execute(old(repo.Tables()), taken)
      invariant forall j :: 0 <= j < k ==> Succeeds(Execute(old(repo.Tables()), taken[..j]), taken[j])
    {
      ghost var before := taken;
      var outcome := repo.AppendRunEvent(tenant, run, events[k].0, events[k].1);
      AppendIsStep(Execute(old(repo.Tables()), before), all[k]);
      OneMore(old(repo.Tables()), before, all[k]);
      taken := before + [all[k]];
      assert taken == all[..k + 1] && taken[..k] == before;
      assert forall j :: 0 <= j < k ==> taken[..j] == before[..j];
      if outcome != Ok {
        return false, taken;
      }
    }
    assert all[..|events|] == all;
    stored := true;
  }

  lemma NoSteps(db: Db)
    ensures Execute(db, []) == db
  {
  }

  lemma AppendIsStep(db: Db, s: Step)
    requires s.AppendRunEvent?
    ensures Apply(db, s) == ApplyAppendRunEvent(db, s)
  {
    hide ApplyAppendRunEvent;
  }

  method Report(repo: Repository, owner: ControlPlane.Worker, job: LeasedJob, done: bool) returns (ghost step: Step)
    modifies repo
    ensures step == (if done then Step.CompleteJob(job.id, owner) else Step.FailJob(job.id, owner, RetryDelay(job.attempts)))
    ensures repo.Tables() == After(old(repo.Tables()), step)
  {
    hide RetryDelay, ApplyCompleteJob, ApplyFailJob;
    if done {
      var _ := repo.CompleteJob(job.id, owner);
      step := Step.CompleteJob(job.id, owner);
    } else {
      var _ := repo.FailJob(job.id, owner, RetryDelay(job.attempts));
      step := Step.FailJob(job.id, owner, RetryDelay(job.attempts));
    }
  }

  /** The job is done when the engine is, or when the run was cancelled meanwhile. */
  predicate Done(db: Db, run: Id, failed: bool) {
    !failed || HasStatus(db.runs, run, Cancelled)
  }

  lemma DoneIff(db: Db, run: Id, failed: bool)
    ensures Done(db, run, failed) <==> !failed || (run in db.runs && db.runs[run].status == Cancelled)
  {
  }

  /** One job from start to report, undisturbed by others. Whatever happens, it takes the steps of the control plane given
      back, the last of which is its one report, and the worker no longer holds the job. */
  method ProcessJob(repo: Repository, owner: ControlPlane.Worker, job: LeasedJob, tenant: Id, workspaceValid: bool,
                    failure: Id, events: seq<(Id, RunEvent)>, engineFails: bool)
    returns (ghost work: seq<Step>, ghost report: Step)
    modifies repo
    ensures repo.Tables() == Execute(old(repo.Tables()), work + [report])
    ensures ReportsOn(report, job.id, owner) && !Holds(repo.Tables(), job.id, owner)
    ensures !workspaceValid ==>
      work == [Step.AppendRunEvent(tenant, job.run, failure, RunFailed)] && report == Step.CompleteJob(job.id, owner)
    ensures workspaceValid ==>
      && work != [] && work[0] == Step.StartRun(job.run) && work[1..] <= Appends(tenant, job.run, events)
      && (var started := Succeeds(old(repo.Tables()), work[0]);
          && (!started ==> work[1..] == [])
          && (report == Step.CompleteJob(job.id, owner) <==>
                || (started && !engineFails
                    && AllStored(After(old(repo.Tables()), work[0]), work[1..], Appends(tenant, job.run, events)))
                || (var end := Execute(old(repo.Tables()), work); job.run in end.runs && end.runs[job.run].status == Cancelled))
          && (report != Step.CompleteJob(job.id, owner) ==> report == Step.FailJob(job.id, owner, RetryDelay(job.attempts))))
  {
    hide Apply, Execute, Holds, AllStored, Done, Appends, RetryDelay;
    ghost var db := repo.Tables();
    NoSteps(db);
    if !workspaceValid {
      var _ := repo.AppendRunEvent(tenant, job.run, failure, RunFailed);
      work := [Step.AppendRunEvent(tenant, job.run, failure, RunFailed)];
      AppendIsStep(db, work[0]);
      OneMore(db, [], work[0]);
      assert [] + [work[0]] == work;
      report := Report(repo, owner, job, true);
      OneMore(db, work, report);
      ReportReleases(Execute(db, work), report, job.id, owner);
      return;
    }
    var outcome := repo.StartRun(job.run);
    work := [Step.StartRun(job.run)];
    StartIsStep(db, work[0]);
    OneMore(db, [], work[0]);
    assert [] + [work[0]] == work && work[1..] == [];
    var failed := outcome != Ok;
    if outcome == Ok {
      var stored;
      ghost var taken;
      ghost var begun := repo.Tables();
      stored, taken := RecordEvents(repo, tenant, job.run, events);
      ExecuteSplit(db, work, taken);
      work := work + taken;
      assert work[1..] == taken;
      failed := engineFails || !stored;
    }
    DoneIff(repo.Tables(), job.run, failed);
    var done := Done(repo.Tables(), job.run, failed);
    report := Report(repo, owner, job, done);
    OneMore(db, work, report);
    ReportReleases(Execute(db, work), report, job.id, owner);
  }

  lemma StartIsStep(db: Db, s: Step)
    requires s.StartRun?
    ensures Apply(db, s) == ApplyStartRun(db, s)
  {
    hide ApplyStartRun;
  }

  // ---------------------------------------------------------------- among others

  lemma {:induction false} NeverLeasedIf(db: Db, steps: seq<Step>, job: Id, owner: ControlPlane.Worker)
    requires forall i :: 0 <= i < |steps| ==> !LeasesTo(Execute(db, steps[..i]), steps[i], job, owner)
    ensures NeverLeasedTo(db, steps, job, owner)
    decreases |steps|
  {
    hide Apply, LeasesTo;
    if steps != [] {
      assert steps[..0] == [] && Execute(db, []) == db;
      forall i | 0 <= i < |steps| - 1
        ensures !LeasesTo(Execute(After(db, steps[0]), steps[1..][..i]), steps[1..][i], job, owner)
      {
        assert steps[..i + 1][1..] == steps[1..][..i];
        assert steps[1..][i] == steps[i + 1];
      }
      NeverLeasedIf(After(db, steps[0]), steps[1..], job, owner);
    }
  }

  /** Whatever others do before, between and after the steps of a worker: if it holds a job after it has reported on it,
      then the job was leased to it again after the report. */
  lemma HeldMeansLeasedAgain(steps: seq<Step>, report: nat, job: Id, owner: ControlPlane.Worker)
    requires report < |steps| && ReportsOn(steps[report], job, owner)
    requires Holds(Execute(EMPTY, steps), job, owner)
    ensures exists i :: report < i < |steps| && LeasesTo(Execute(EMPTY, steps[..i]), steps[i], job, owner)
  {
    hide Apply, LeasesTo, Holds, Execute, ReportsOn, Inv;
    var db := Execute(EMPTY, steps[..report]);
    var next := After(db, steps[report]);
    ReportReleases(db, steps[report], job, owner);
    OneMore(EMPTY, steps[..report], steps[report]);
    assert steps[..report] + [steps[report]] == steps[..report + 1];
    var rest := steps[report + 1..];
    assert steps[..report + 1] + rest == steps;
    ExecuteSplit(EMPTY, steps[..report + 1], rest);
    ReachableInv(steps[..report + 1]);
    if forall i :: 0 <= i < |rest| ==> !LeasesTo(Execute(next, rest[..i]), rest[i], job, owner) {
      NeverLeasedIf(next, rest, job, owner);
      LostJobStaysLost(next, rest, job, owner);
      assert false;
    }
    var i :| 0 <= i < |rest| && LeasesTo(Execute(next, rest[..i]), rest[i], job, owner);
    ExecuteSplit(EMPTY, steps[..report + 1], rest[..i]);
    assert steps[..report + 1] + rest[..i] == steps[..report + 1 + i];
    assert rest[i] == steps[report + 1 + i];
  }
}
