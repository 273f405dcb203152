/** How long a user may decide or answer, over whole runs, and what tenants cannot do to each other. */
module Deadlines {
  import opened ControlPlane
  import opened ControlPlaneInvariants
  import opened ControlPlaneRows
  import opened ControlPlaneTheorems
  import opened Transactions
  import opened Wrappers

  lemma OpenedFor(db: Db, s: Step, a: ApprovalId)
    requires a !in db.approvals && a in After(db, s).approvals
    ensures After(db, s).approvals[a].expiresAt == db.now + 900_000_000
  {
    hide Apply, ApprovalAfter, ProjectApprovals, Reports, JobsEvolve, RunsEvolve, InteractionsEvolve, OutboxEvolves;
    StepEvolves(db, s);
  }

  lemma ReachedThrough(steps: seq<Step>, i: nat)
    requires i < |steps|
    ensures Execute(EMPTY, steps[..i + 1]) == After(Execute(EMPTY, steps[..i]), steps[i])
    ensures Execute(EMPTY, steps) == Execute(Execute(EMPTY, steps[..i + 1]), steps[i + 1..])
  {
    hide Apply, Execute;
    OneMore(EMPTY, steps[..i], steps[i]);
    assert steps[..i] + [steps[i]] == steps[..i + 1];
    ExecuteSplit(EMPTY, steps[..i + 1], steps[i + 1..]);
    assert steps[..i + 1] + steps[i + 1..] == steps;
  }

  /** An approval that was opened at step `i` can be decided by its tenant at any later time exactly while nobody has decided
      it and less than a quarter of an hour has passed. */
  lemma ApprovalWindow(steps: seq<Step>, i: nat, tenant: Id, a: ApprovalId, decision: Decision, event: Id)
    requires i < |steps| && a !in Execute(EMPTY, steps[..i]).approvals && a in Execute(EMPTY, steps[..i + 1]).approvals
    ensures var last, since := Execute(EMPTY, steps), Execute(EMPTY, steps[..i]).now;
      && a in last.approvals && last.approvals[a].run in last.runs
      && (Succeeds(last, Step.DecideApproval(tenant, a, decision, event)) <==>
            && last.approvals[a].decision == None && last.now < since + 900_000_000
            && last.runs[last.approvals[a].run].tenant == tenant && Unused(last, event))
  {
    hide Apply, Execute, Succeeds, JobRowsOk, GrantsOk, OutboxOk;
    var last := Execute(EMPTY, steps);
    ReachedThrough(steps, i);
    OpenedFor(Execute(EMPTY, steps[..i]), steps[i], a);
    DecisionsAreWriteOnce(Execute(EMPTY, steps[..i + 1]), steps[i + 1..], a);
    ReachableInv(steps);
    JobsOf(last, last.approvals[a].run);
    DecidedIff(last, Step.DecideApproval(tenant, a, decision, event));
  }

  lemma {:induction false} InteractionStays(db: Db, steps: seq<Step>, i: InteractionId)
    requires i in db.interactions
    ensures i in Execute(db, steps).interactions
    ensures var before, after := db.interactions[i], Execute(db, steps).interactions[i];
      after == before.(status := after.status) && (before.status != Pending ==> after == before)
    decreases |steps|
  {
    hide Apply, JobsEvolve, RunsEvolve, ApprovalsEvolve, OutboxEvolves, ProjectInteractions, Reports, HasJob;
    if steps != [] {
      StepEvolves(db, steps[0]);
      InteractionStays(After(db, steps[0]), steps[1..], i);
    }
  }

  lemma AskedFor(db: Db, s: Step, i: InteractionId)
    requires i !in db.interactions && i in After(db, s).interactions
    ensures After(db, s).interactions[i].expiresAt == db.now + 86_400_000_000
    ensures s.AppendRunEvent? && s.run in db.runs && After(db, s).interactions[i].run == s.run
  {
    hide Apply, InteractionAfter, ProjectInteractions, Reports, JobsEvolve, RunsEvolve, ApprovalsEvolve, OutboxEvolves;
    StepEvolves(db, s);
  }

  /** An interaction that was opened at step `k` can be answered by its tenant at any later time exactly while it is open and
      less than a day has passed. */
  lemma InteractionWindow(steps: seq<Step>, k: nat, tenant: Id, i: InteractionId, withdrawn: bool, event: Id)
    requires k < |steps| && i !in Execute(EMPTY, steps[..k]).interactions && i in Execute(EMPTY, steps[..k + 1]).interactions
    ensures var last, since := Execute(EMPTY, steps), Execute(EMPTY, steps[..k]).now;
      && i in last.interactions && last.interactions[i].run in last.runs
      && (Succeeds(last, Step.AnswerInteraction(tenant, i, withdrawn, event)) <==>
            && last.interactions[i].status == Pending && last.now < since + 86_400_000_000
            && last.runs[last.interactions[i].run].tenant == tenant && Unused(last, event))
  {
    hide Apply, Execute, Succeeds, JobRowsOk, GrantsOk, OutboxOk, ApprovalsOk;
    var before, last := Execute(EMPTY, steps[..k]), Execute(EMPTY, steps);
    ReachedThrough(steps, k);
    AskedFor(before, steps[k], i);
    InteractionStays(Execute(EMPTY, steps[..k + 1]), steps[k + 1..], i);
    ExecuteSplit(EMPTY, steps[..k], steps[k..]);
    assert steps[..k] + steps[k..] == steps;
    RunHistory(before, steps[k..], steps[k].run);
    ReachableInv(steps);
    JobsOf(last, last.interactions[i].run);
    AnsweredIff(last, Step.AnswerInteraction(tenant, i, withdrawn, event));
  }

  // ---------------------------------------------------------------- tenants

  predicate OfUser(s: Step) {
    s.CreateRun? || s.CancelRun? || s.DecideApproval? || s.AnswerInteraction?
  }

  lemma OthersRowsStand(db: Db, s: Step, r: Id)
    requires OfUser(s) && r in db.runs && db.runs[r].tenant != s.tenant
    ensures RunAfter(db, s, r) == db.runs[r]
    ensures forall j :: j in db.jobs && db.jobs[j].run == r ==> JobAfter(db, s, j) == db.jobs[j]
    ensures forall a :: a in db.approvals && db.approvals[a].run == r ==> ApprovalAfter(db, s, a) == db.approvals[a]
    ensures forall i :: i in db.interactions && db.interactions[i].run == r ==> InteractionAfter(db, s, i) == db.interactions[i]
  {
    hide HasJob, HasPending;
  }

  /** Nothing one tenant asks for changes a run of another, its job, its approvals or its interactions. */
  lemma TenantsAreApart(db: Db, s: Step, r: Id)
    requires OfUser(s) && r in db.runs && db.runs[r].tenant != s.tenant
    ensures var next := After(db, s);
      && r in next.runs && next.runs[r] == db.runs[r]
      && (forall j :: j in db.jobs && db.jobs[j].run == r ==> j in next.jobs && next.jobs[j] == db.jobs[j])
      && (forall a :: a in db.approvals && db.approvals[a].run == r ==> a in next.approvals && next.approvals[a] == db.approvals[a])
      && (forall i :: i in db.interactions && db.interactions[i].run == r ==>
            i in next.interactions && next.interactions[i] == db.interactions[i])
  {
    hide Apply, RunAfter, JobAfter, ApprovalAfter, InteractionAfter, OutboxEvolves, ProjectApprovals, ProjectInteractions, Reports;
    StepEvolves(db, s);
    OthersRowsStand(db, s, r);
  }
}
