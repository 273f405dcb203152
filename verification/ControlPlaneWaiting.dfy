/**
 Runs that wait for their user: whether there is anything left the user can do.
 Approvals that lapse are closed by the expiry step; interactions that lapse are
 closed by nobody.
 */
module ControlPlaneWaiting {
  import opened Wrappers
  import opened ControlPlane
  import opened ControlPlaneRows
  import opened ControlPlaneInvariants
  import opened ControlPlaneTheorems

  // ---------------------------------------------------------------- pending rows

  /** A run that waits for input has an interaction whose status is pending, lapsed or not. */
  ghost predicate PendingOk(db: Db) {
    && (forall i :: i in db.interactions ==> db.interactions[i].run == i.run)
    && (forall r :: r in db.runs && db.runs[r].status == AwaitingInput ==> HasPending(db.interactions, r))
  }

  lemma StepKeepsWaiting(db: Db, s: Step, next: Db, r: Id)
    requires PendingOk(db) && OneJobPerRun(db) && InteractionsEvolve(db, s, next) && EngineShaped(s)
    requires r in db.runs && RunAfter(db, s, r).status == AwaitingInput
    ensures HasPending(next.interactions, r)
  {
    hide HasJob, ExecutorLost, HasLapsed, ProjectInteractions;
    if db.runs[r].status == AwaitingInput && !Elicits(db, s, r) {
      var i :| i in db.interactions && db.interactions[i].run == r && db.interactions[i].status == Pending;
      assert next.interactions[i] == InteractionAfter(db, s, i);
    } else if Elicits(db, s, r) {
      var closed := CloseInteraction(db, s);
      var i :| i in closed && closed[i].run == r && closed[i].status == Pending;
      assert next.interactions[i] == InteractionAfter(db, s, i);
    } else {
      assert Reports(db, s, r) && IsPending(next.interactions, s.content.interaction);
    }
  }

  lemma StepKeepsPending(db: Db, s: Step, next: Db)
    requires PendingOk(db) && OneJobPerRun(db) && RunsEvolve(db, s, next) && InteractionsEvolve(db, s, next) && EngineShaped(s)
    ensures PendingOk(next)
  {
    hide RunAfter;
    forall r | r in next.runs && next.runs[r].status == AwaitingInput ensures HasPending(next.interactions, r) {
      StepKeepsWaiting(db, s, next, r);
    }
  }

  /** Throughout every run of engine-shaped events a run that waits for input has a row whose status is pending. */
  lemma {:induction false} WaitingRunsHavePendingRow(db: Db, steps: seq<Step>)
    requires Inv(db) && PendingOk(db) && EngineRun(steps)
    ensures PendingOk(Execute(db, steps))
    decreases |steps|
  {
    hide Apply, PendingOk;
    if steps != [] {
      var next := After(db, steps[0]);
      StepEvolves(db, steps[0]);
      StepKeepsPending(db, steps[0], next);
      StepKeepsInv(db, steps[0]);
      WaitingRunsHavePendingRow(next, steps[1..]);
    }
  }

  // ---------------------------------------------------------------- answers in time

  predicate LiveRow(row: Interaction, run: Id, now: Time) {
    row.run == run && row.status == Pending && row.expiresAt > now
  }

  /** A pending interaction of the run that has not lapsed by a time. */
  predicate HasLive(interactions: map<InteractionId, Interaction>, run: Id, now: Time) {
    exists i :: i in interactions && LiveRow(interactions[i], run, now)
  }

  /** The run's user can answer exactly when one of its pending interactions has not lapsed. */
  lemma AnswerableIff(db: Db, r: Id)
    requires r in db.runs
    ensures (exists t, i :: CanAnswer(db, t, i) && db.interactions[i].run == r) <==> HasLive(db.interactions, r, db.now)
  {
    if t, i :| CanAnswer(db, t, i) && db.interactions[i].run == r {
      assert LiveRow(db.interactions[i], r, db.now);
    }
    if i :| i in db.interactions && LiveRow(db.interactions[i], r, db.now) {
      assert CanAnswer(db, db.runs[r].tenant, i);
    }
  }

  /** Every run that waits for input can be answered. */
  ghost predicate InputLive(db: Db) {
    forall r :: HasStatus(db.runs, r, AwaitingInput) ==> HasLive(db.interactions, r, db.now)
  }

  predicate OthersPend(interactions: map<InteractionId, Interaction>, closed: InteractionId, run: Id) {
    exists i :: i in interactions && i != closed && interactions[i].run == run && interactions[i].status == Pending
  }

  predicate OthersLive(interactions: map<InteractionId, Interaction>, closed: InteractionId, run: Id, now: Time) {
    exists i :: i in interactions && i != closed && LiveRow(interactions[i], run, now)
  }

  /** A step after which a waiting run has nothing to answer: time passes the last of its pending interactions, the last
      live one is closed while a lapsed one stays pending, or a lapsed one is asked for again. */
  predicate Silences(db: Db, s: Step) {
    match s
    case Tick(elapsed) =>
      exists r :: r in db.runs && db.runs[r].status == AwaitingInput && !HasLive(db.interactions, r, db.now + elapsed)
    case AnswerInteraction(tenant, interaction, _, _) =>
      interaction in db.interactions &&
      (var run := db.interactions[interaction].run;
       && Elicits(db, s, run) && (db.runs[run].status == Running || db.runs[run].status == AwaitingInput)
       && OthersPend(db.interactions, interaction, run) && !OthersLive(db.interactions, interaction, run, db.now))
    case AppendRunEvent(_, run, _, content) =>
      && Reports(db, s, run) && content.InputRequested? && db.runs[run].status == Running
      && InteractionKeyTaken(db, content.interaction, run, content.call) && IsPending(db.interactions, content.interaction)
      && !HasLive(db.interactions, run, db.now)
    case _ => false
  }

  /** The same, read off the tables the step leaves. */
  predicate EndsSilent(db: Db, s: Step) {
    match s
    case AnswerInteraction(tenant, interaction, _, _) =>
      interaction in db.interactions &&
      (var run := db.interactions[interaction].run;
       && Elicits(db, s, run) && (db.runs[run].status == Running || db.runs[run].status == AwaitingInput)
       && HasPending(CloseInteraction(db, s), run) && !HasLive(CloseInteraction(db, s), run, db.now))
    case AppendRunEvent(_, run, _, content) =>
      && Reports(db, s, run) && content.InputRequested? && db.runs[run].status == Running
      && IsPending(ProjectInteractions(db, run, content), content.interaction)
      && !HasLive(ProjectInteractions(db, run, content), run, db.now)
    case _ => Silences(db, s)
  }

  lemma OthersRemain(db: Db, s: Step, run: Id)
    requires s.AnswerInteraction? && s.interaction in db.interactions
    ensures HasPending(CloseInteraction(db, s), run) <==> OthersPend(db.interactions, s.interaction, run)
    ensures HasLive(CloseInteraction(db, s), run, db.now) <==> OthersLive(db.interactions, s.interaction, run, db.now)
  {
    var closed := CloseInteraction(db, s);
    if i :| i in db.interactions && i != s.interaction && db.interactions[i].run == run && db.interactions[i].status == Pending {
      assert closed[i] == db.interactions[i];
    }
    if i :| i in db.interactions && i != s.interaction && LiveRow(db.interactions[i], run, db.now) {
      assert closed[i] == db.interactions[i];
    }
  }

  lemma NewRowIsLive(db: Db, run: Id, content: RunEvent)
    requires content.InputRequested?
    ensures var rows := ProjectInteractions(db, run, content);
      if InteractionKeyTaken(db, content.interaction, run, content.call) then rows == db.interactions
      else HasLive(rows, run, db.now)
  {
    hide InteractionKeyTaken;
    if !InteractionKeyTaken(db, content.interaction, run, content.call) {
      assert LiveRow(ProjectInteractions(db, run, content)[content.interaction], run, db.now);
    }
  }

  lemma SilencesIff(db: Db, s: Step)
    ensures Silences(db, s) <==> EndsSilent(db, s)
  {
    hide HasLive, HasPending, OthersPend, OthersLive, CloseInteraction, ProjectInteractions, InteractionKeyTaken, Reports, Elicits;
    if s.AnswerInteraction? && s.interaction in db.interactions {
      OthersRemain(db, s, db.interactions[s.interaction].run);
    } else if s.AppendRunEvent? && s.content.InputRequested? {
      NewRowIsLive(db, s.run, s.content);
    }
  }

  lemma LiveStays(db: Db, s: Step, next: Db, r: Id)
    requires HasLive(db.interactions, r, db.now) && InteractionsEvolve(db, s, next)
    requires !s.AnswerInteraction? && !s.Tick? && next.now == db.now
    ensures HasLive(next.interactions, r, next.now)
  {
    hide ProjectInteractions, Reports;
    var i :| i in db.interactions && LiveRow(db.interactions[i], r, db.now);
    assert LiveRow(next.interactions[i], r, next.now);
  }

  lemma NothingLive(db: Db, s: Step, next: Db, r: Id)
    requires !HasLive(db.interactions, r, db.now) && InteractionsEvolve(db, s, next) && next.now >= db.now
    requires !(s.AppendRunEvent? && s.run == r && s.content.InputRequested?)
    ensures !HasLive(next.interactions, r, next.now)
  {
    hide ProjectInteractions, Reports;
    forall i | i in next.interactions ensures !LiveRow(next.interactions[i], r, next.now) {
      if i in db.interactions {
        assert !LiveRow(db.interactions[i], r, db.now);
      }
    }
  }

  /** The only steps that make a run wait for input, or keep it waiting while its rows change. */
  lemma WaitingMoves(db: Db, s: Step, r: Id)
    requires r in db.runs && RunAfter(db, s, r).status == AwaitingInput
    ensures db.runs[r].status == AwaitingInput || Elicits(db, s, r) ||
            (Reports(db, s, r) && s.content.InputRequested? && db.runs[r].status == Running)
    ensures Elicits(db, s, r) ==>
              (db.runs[r].status == Running || db.runs[r].status == AwaitingInput) && HasPending(CloseInteraction(db, s), r)
    ensures !Answers(db, s, r) || db.runs[r].status != AwaitingInput
    ensures Reports(db, s, r) && s.content.InputRequested? && db.runs[r].status == Running ==>
              IsPending(ProjectInteractions(db, r, s.content), s.content.interaction)
  {
    hide HasJob, HasPending, ExecutorLost, HasLapsed, ProjectInteractions;
  }

  lemma ClosedTable(db: Db, s: Step, next: Db)
    requires s.AnswerInteraction? && s.interaction in db.interactions && Closes(db, s, s.interaction) && InteractionsEvolve(db, s, next)
    ensures next.interactions == CloseInteraction(db, s)
  {
    hide Closes;
    forall i | i in db.interactions && i != s.interaction ensures next.interactions[i] == db.interactions[i] {
      assert !Closes(db, s, i) by { OnlyNamedCloses(db, s, i); }
    }
  }

  lemma OnlyNamedCloses(db: Db, s: Step, i: InteractionId)
    requires s.AnswerInteraction? && s.interaction != i
    ensures !Closes(db, s, i)
  {
  }

  lemma AnswerKeepsOthers(db: Db, s: Step, next: Db, r: Id)
    requires s.AnswerInteraction? && InteractionsEvolve(db, s, next) && next.now == db.now
    requires HasLive(db.interactions, r, db.now) && OneJobPerRun(db)
    requires r in db.runs && RunAfter(db, s, r).status == AwaitingInput && !Elicits(db, s, r)
    ensures HasLive(next.interactions, r, next.now)
  {
    var i :| i in db.interactions && LiveRow(db.interactions[i], r, db.now);
    WaitingMoves(db, s, r);
    assert !Closes(db, s, i);
    assert LiveRow(next.interactions[i], r, next.now);
  }

  lemma NotSilenced(db: Db, s: Step, next: Db, r: Id)
    requires InputLive(db) && OneJobPerRun(db) && !EndsSilent(db, s) && InteractionsEvolve(db, s, next) && RunsEvolve(db, s, next)
    requires next.now == if s.Tick? then db.now + s.elapsed else db.now
    requires HasStatus(next.runs, r, AwaitingInput)
    ensures HasLive(next.interactions, r, next.now)
  {
    hide HasLive, RunAfter, ProjectInteractions, CloseInteraction, HasPending, CanAnswer, EventFree;
    assert r in db.runs;
    WaitingMoves(db, s, r);
    assert db.runs[r].status == AwaitingInput ==> HasStatus(db.runs, r, AwaitingInput);
    if s.Tick? {
      TickTable(db, s, next);
    } else if s.AnswerInteraction? {
      if Elicits(db, s, r) {
        ElicitsCloses(db, s, r);
        ClosedTable(db, s, next);
      } else {
        AnswerKeepsOthers(db, s, next, r);
      }
    } else if Reports(db, s, r) && s.content.InputRequested? && db.runs[r].status == Running {
      ReportTable(db, s, next, r);
    } else {
      LiveStays(db, s, next, r);
    }
  }

  lemma TickTable(db: Db, s: Step, next: Db)
    requires s.Tick? && InteractionsEvolve(db, s, next)
    ensures next.interactions == db.interactions
  {
  }

  lemma ElicitsCloses(db: Db, s: Step, r: Id)
    requires Elicits(db, s, r)
    ensures s.interaction in db.interactions && db.interactions[s.interaction].run == r && Closes(db, s, s.interaction)
  {
  }

  lemma ReportTable(db: Db, s: Step, next: Db, r: Id)
    requires s.AppendRunEvent? && s.run == r && Reports(db, s, r) && InteractionsEvolve(db, s, next)
    ensures next.interactions == ProjectInteractions(db, r, s.content)
  {
  }

  lemma SilencedRun(db: Db, s: Step, next: Db) returns (r: Id)
    requires EndsSilent(db, s) && InteractionsEvolve(db, s, next) && RunsEvolve(db, s, next)
    requires next.now == if s.Tick? then db.now + s.elapsed else db.now
    ensures HasStatus(next.runs, r, AwaitingInput) && !HasLive(next.interactions, r, next.now)
  {
    hide HasLive, ProjectInteractions, CloseInteraction, HasPending, HasJob, ExecutorLost;
    if s.Tick? {
      r :| r in db.runs && db.runs[r].status == AwaitingInput && !HasLive(db.interactions, r, db.now + s.elapsed);
      TickTable(db, s, next);
    } else if s.AnswerInteraction? {
      r := db.interactions[s.interaction].run;
      ElicitsCloses(db, s, r);
      ClosedTable(db, s, next);
    } else {
      r := s.run;
      ReportTable(db, s, next, r);
    }
  }

  lemma ClockMoves(db: Db, s: Step)
    ensures After(db, s).now == if s.Tick? then db.now + s.elapsed else db.now
  {
    hide HasJob, HasActiveRun, RequeueDecided, RequeueAnswered, KillJobsOf, ProjectRuns, ProjectApprovals, ProjectInteractions;
  }

  /** While every run that waits for input can be answered, a step keeps it so exactly when it does not silence one. */
  lemma StepKeepsInputLive(db: Db, s: Step)
    requires Inv(db) && InputLive(db)
    ensures InputLive(After(db, s)) <==> !Silences(db, s)
  {
    hide Apply, RunAfter, Silences, EndsSilent, HasLive, JobsEvolve, ApprovalsEvolve, OutboxEvolves, InteractionsEvolve, RunsEvolve;
    var next := After(db, s);
    StepEvolves(db, s);
    ClockMoves(db, s);
    SilencesIff(db, s);
    if EndsSilent(db, s) {
      var r := SilencedRun(db, s, next);
    } else {
      forall r | HasStatus(next.runs, r, AwaitingInput) ensures HasLive(next.interactions, r, next.now) {
        NotSilenced(db, s, next, r);
      }
    }
  }

  /** The run waits for an answer nobody can give any more. */
  predicate Silent(db: Db, r: Id) {
    HasStatus(db.runs, r, AwaitingInput) && !HasLive(db.interactions, r, db.now)
  }

  predicate Wakes(s: Step, r: Id) {
    || (s.CancelRun? && s.run == r)
    || (s.StartRun? && s.run == r)
    || (s.AppendRunEvent? && s.run == r && s.content.InputRequested?)
  }

  lemma SilentMoves(db: Db, s: Step, r: Id)
    requires Silent(db, r) && !Wakes(s, r)
    ensures RunAfter(db, s, r).status == AwaitingInput
  {
    hide HasJob, HasPending, ProjectInteractions;
    NobodyAnswers(db, s, r);
  }

  lemma NobodyAnswers(db: Db, s: Step, r: Id)
    requires !HasLive(db.interactions, r, db.now)
    ensures !AnswersOn(db, s, r) && !Elicits(db, s, r)
  {
    if s.AnswerInteraction? {
      assert s.interaction in db.interactions ==> !LiveRow(db.interactions[s.interaction], r, db.now);
    }
  }

  lemma StaysSilent(db: Db, s: Step, r: Id)
    requires Silent(db, r) && !Wakes(s, r)
    ensures Silent(After(db, s), r)
  {
    hide Apply, RunAfter, HasLive, JobsEvolve, ApprovalsEvolve, OutboxEvolves, InteractionsEvolve;
    StepEvolves(db, s);
    ClockMoves(db, s);
    SilentMoves(db, s, r);
    NothingLive(db, s, After(db, s), r);
  }

  /** Once the last interaction of a waiting run has lapsed, no answer, expiry, lease or report of a job moves the run any
      more: only cancelling it, starting it again or another request does. */
  lemma {:induction false} SilentRunsStay(db: Db, steps: seq<Step>, r: Id)
    requires Silent(db, r) && forall k :: 0 <= k < |steps| ==> !Wakes(steps[k], r)
    ensures Silent(Execute(db, steps), r)
    decreases |steps|
  {
    hide Apply, Silent, Wakes;
    if steps != [] {
      StaysSilent(db, steps[0], r);
      SilentRunsStay(After(db, steps[0]), steps[1..], r);
    }
  }

  // ---------------------------------------------------------------- waiting for an approval

  /** An approval of the run is not decided yet, lapsed or not. */
  predicate HasOpen(approvals: map<ApprovalId, Approval>, run: Id) {
    exists a :: a in approvals && approvals[a].run == run && approvals[a].decision == None
  }

  ghost predicate ApprovalsOpen(db: Db) {
    forall r :: HasStatus(db.runs, r, AwaitingApproval) ==> HasOpen(db.approvals, r)
  }

  /** The run asks again for an approval whose row exists already and is closed, while it has no open one:
      the insert is ignored, but the run still goes to awaiting_approval. */
  predicate Strands(db: Db, s: Step) {
    && s.AppendRunEvent? && Reports(db, s, s.run) && s.content.ApprovalRequested?
    && db.runs[s.run].status == Running
    && ApprovalKeyTaken(db, s.content.approval, s.run, s.content.call)
    && !HasOpen(db.approvals, s.run)
  }

  lemma WaitingKeepsOpen(db: Db, s: Step, next: Db, r: Id)
    requires HasJob(db, r) && HasOpen(db.approvals, r) && ApprovalsEvolve(db, s, next)
    requires r in db.runs && db.runs[r].status == AwaitingApproval == RunAfter(db, s, r).status
    ensures HasOpen(next.approvals, r)
  {
    hide ProjectApprovals, ExecutorLost, HasPending;
    var a :| a in db.approvals && db.approvals[a].run == r && db.approvals[a].decision == None;
    assert next.approvals[a] == db.approvals[a];
  }

  lemma OnlyRequestsWait(db: Db, s: Step, r: Id)
    requires r in db.runs && db.runs[r].status != AwaitingApproval == RunAfter(db, s, r).status
    ensures s.AppendRunEvent? && Reports(db, s, r) && s.run == r && s.content.ApprovalRequested? && db.runs[r].status == Running
  {
  }

  lemma RequestOpens(db: Db, s: Step, next: Db)
    requires s.AppendRunEvent? && Reports(db, s, s.run) && s.content.ApprovalRequested? && ApprovalsEvolve(db, s, next)
    requires db.runs[s.run].status == Running && !Strands(db, s)
    ensures HasOpen(next.approvals, s.run)
  {
    if HasOpen(db.approvals, s.run) {
      var a :| a in db.approvals && db.approvals[a].run == s.run && db.approvals[a].decision == None;
      assert next.approvals[a] == db.approvals[a];
    } else {
      assert next.approvals[s.content.approval].decision == None;
    }
  }

  /** Every run that waits for an approval has an undecided one, lapsed or not, and a step keeps it so
      exactly when it does not strand a run. */
  lemma StepKeepsApprovalsOpen(db: Db, s: Step)
    requires Inv(db) && ApprovalsOpen(db)
    ensures ApprovalsOpen(After(db, s)) <==> !Strands(db, s)
  {
    hide Apply, RunAfter, ApprovalAfter, Strands;
    var next := After(db, s);
    StepEvolves(db, s);
    if Strands(db, s) {
      StrandedRun(db, s, next);
    } else {
      forall r | HasStatus(next.runs, r, AwaitingApproval) ensures HasOpen(next.approvals, r) {
        if HasStatus(db.runs, r, AwaitingApproval) {
          assert HasJob(db, r);
          WaitingKeepsOpen(db, s, next, r);
        } else {
          OnlyRequestsWait(db, s, r);
          RequestOpens(db, s, next);
        }
      }
    }
  }

  lemma StrandedRun(db: Db, s: Step, next: Db)
    requires Strands(db, s) && ApprovalsEvolve(db, s, next) && RunsEvolve(db, s, next)
    ensures HasStatus(next.runs, s.run, AwaitingApproval) && !HasOpen(next.approvals, s.run)
  {
  }

  predicate Stranded(db: Db, r: Id) {
    HasStatus(db.runs, r, AwaitingApproval) && !HasOpen(db.approvals, r)
  }

  lemma ClosedStaysClosed(db: Db, s: Step, next: Db, r: Id)
    requires !HasOpen(db.approvals, r) && ApprovalsEvolve(db, s, next)
    requires !(s.AppendRunEvent? && s.run == r && s.content.ApprovalRequested?)
    ensures !HasOpen(next.approvals, r)
  {
  }

  lemma StrandedMoves(db: Db, s: Step, r: Id)
    requires Stranded(db, r) && !(s.CancelRun? && s.run == r)
    ensures RunAfter(db, s, r).status == AwaitingApproval
  {
  }

  /** No decision, expiry, lease or restart ever moves a stranded run: only cancelling it does,
      or an engine that asks for yet another approval. */
  lemma {:induction false} StrandedRunsStay(db: Db, steps: seq<Step>, r: Id)
    requires Stranded(db, r)
    requires forall k :: 0 <= k < |steps| ==> !(steps[k].CancelRun? && steps[k].run == r)
    requires forall k :: 0 <= k < |steps| ==> !(steps[k].AppendRunEvent? && steps[k].run == r && steps[k].content.ApprovalRequested?)
    ensures Stranded(Execute(db, steps), r)
    decreases |steps|
  {
    hide Apply, RunAfter, ApprovalAfter;
    if steps != [] {
      StepEvolves(db, steps[0]);
      ClosedStaysClosed(db, steps[0], After(db, steps[0]), r);
      StrandedMoves(db, steps[0], r);
      StrandedRunsStay(After(db, steps[0]), steps[1..], r);
    }
  }

  // ---------------------------------------------------------------- decisions in time

  predicate DecidableRow(row: Approval, run: Id, now: Time) {
    row.run == run && row.decision == None && row.expiresAt > now
  }

  predicate HasDecidable(approvals: map<ApprovalId, Approval>, run: Id, now: Time) {
    exists a :: a in approvals && DecidableRow(approvals[a], run, now)
  }

  /** The run's user can decide exactly when one of its undecided approvals has not lapsed. */
  lemma DecidableIff(db: Db, r: Id)
    requires r in db.runs
    ensures (exists t, a :: CanDecide(db, t, a) && db.approvals[a].run == r) <==> HasDecidable(db.approvals, r, db.now)
  {
    if t, a :| CanDecide(db, t, a) && db.approvals[a].run == r {
      assert DecidableRow(db.approvals[a], r, db.now);
    }
    if a :| a in db.approvals && DecidableRow(db.approvals[a], r, db.now) {
      assert CanDecide(db, db.runs[r].tenant, a);
    }
  }

  /** Every run that waits for an approval has one its user can still decide. */
  ghost predicate ApprovalsDecidable(db: Db) {
    forall r :: HasStatus(db.runs, r, AwaitingApproval) ==> HasDecidable(db.approvals, r, db.now)
  }

  /** A step after which a waiting run has nothing to decide: time passes the last of its approvals, or it asks again for
      an approval whose row exists already while it has none left to decide. */
  predicate Forecloses(db: Db, s: Step) {
    match s
    case Tick(elapsed) =>
      exists r :: r in db.runs && db.runs[r].status == AwaitingApproval && !HasDecidable(db.approvals, r, db.now + elapsed)
    case AppendRunEvent(_, run, _, content) =>
      && Reports(db, s, run) && content.ApprovalRequested? && db.runs[run].status == Running
      && ApprovalKeyTaken(db, content.approval, run, content.call) && !HasDecidable(db.approvals, run, db.now)
    case _ => false
  }

  lemma DecidableStays(db: Db, s: Step, next: Db, r: Id)
    requires HasJob(db, r) && HasDecidable(db.approvals, r, db.now) && ApprovalsEvolve(db, s, next) && next.now == db.now
    requires r in db.runs && (db.runs[r].status == AwaitingApproval ==> RunAfter(db, s, r).status == AwaitingApproval)
    requires db.runs[r].status == AwaitingApproval || s.AppendRunEvent?
    ensures HasDecidable(next.approvals, r, next.now)
  {
    hide ProjectApprovals, Reports;
    var a :| a in db.approvals && DecidableRow(db.approvals[a], r, db.now);
    assert next.approvals[a] == db.approvals[a];
    assert DecidableRow(next.approvals[a], r, next.now);
  }

  lemma RequestDecidable(db: Db, s: Step, next: Db)
    requires s.AppendRunEvent? && Reports(db, s, s.run) && s.content.ApprovalRequested? && ApprovalsEvolve(db, s, next)
    requires db.runs[s.run].status == Running && !Forecloses(db, s) && next.now == db.now
    ensures HasDecidable(next.approvals, s.run, next.now)
  {
    if ApprovalKeyTaken(db, s.content.approval, s.run, s.content.call) {
      var a :| a in db.approvals && DecidableRow(db.approvals[a], s.run, db.now);
      assert next.approvals[a] == db.approvals[a];
      assert DecidableRow(next.approvals[a], s.run, next.now);
    } else {
      assert DecidableRow(next.approvals[s.content.approval], s.run, next.now);
    }
  }

  lemma NotForeclosed(db: Db, s: Step, next: Db, r: Id)
    requires OneJobPerRun(db) && ApprovalsDecidable(db) && !Forecloses(db, s)
    requires ApprovalsEvolve(db, s, next) && RunsEvolve(db, s, next)
    requires next.now == if s.Tick? then db.now + s.elapsed else db.now
    requires HasStatus(next.runs, r, AwaitingApproval)
    ensures HasDecidable(next.approvals, r, next.now)
  {
    hide HasDecidable, RunAfter, ApprovalKeyTaken, HasJob;
    assert r in db.runs;
    if s.Tick? {
      TickApprovals(db, s, next, r);
    } else if db.runs[r].status == AwaitingApproval {
      DecidableStays(db, s, next, r);
    } else {
      OnlyRequestsWait(db, s, r);
      RequestDecidable(db, s, next);
    }
  }

  lemma TickApprovals(db: Db, s: Step, next: Db, r: Id)
    requires s.Tick? && r in db.runs && ApprovalsEvolve(db, s, next)
    ensures next.approvals == db.approvals && RunAfter(db, s, r) == db.runs[r]
  {
  }

  lemma ForeclosedRun(db: Db, s: Step, next: Db) returns (r: Id)
    requires Forecloses(db, s) && ApprovalsEvolve(db, s, next) && RunsEvolve(db, s, next)
    requires next.now == if s.Tick? then db.now + s.elapsed else db.now
    ensures HasStatus(next.runs, r, AwaitingApproval) && !HasDecidable(next.approvals, r, next.now)
  {
    hide HasDecidable;
    if s.Tick? {
      r :| r in db.runs && db.runs[r].status == AwaitingApproval && !HasDecidable(db.approvals, r, db.now + s.elapsed);
      TickApprovals(db, s, next, r);
    } else {
      r := s.run;
    }
  }

  /** While every run that waits for an approval can be decided, a step keeps it so exactly when it does not foreclose it. */
  lemma StepKeepsDecidable(db: Db, s: Step)
    requires Inv(db) && ApprovalsDecidable(db)
    ensures ApprovalsDecidable(After(db, s)) <==> !Forecloses(db, s)
  {
    hide Apply, RunAfter, Forecloses, HasDecidable, JobsEvolve, InteractionsEvolve, OutboxEvolves, ApprovalsEvolve, RunsEvolve;
    var next := After(db, s);
    StepEvolves(db, s);
    ClockMoves(db, s);
    if Forecloses(db, s) {
      var r := ForeclosedRun(db, s, next);
    } else {
      forall r | HasStatus(next.runs, r, AwaitingApproval) ensures HasDecidable(next.approvals, r, next.now) {
        NotForeclosed(db, s, next, r);
      }
    }
  }

  predicate NeverStrands(db: Db, steps: seq<Step>)
    decreases |steps|
  {
    steps != [] ==> !Strands(db, steps[0]) && NeverStrands(After(db, steps[0]), steps[1..])
  }

  lemma {:induction false} RunsStayOpen(db: Db, steps: seq<Step>)
    requires Inv(db) && ApprovalsOpen(db) && NeverStrands(db, steps)
    ensures ApprovalsOpen(Execute(db, steps))
    decreases |steps|
  {
    hide Apply, Strands, Inv, ApprovalsOpen;
    if steps != [] {
      StepKeepsInv(db, steps[0]);
      StepKeepsApprovalsOpen(db, steps[0]);
      RunsStayOpen(After(db, steps[0]), steps[1..]);
    }
  }

  /** What the expiry step does to a waiting run: it fails exactly those with a lapsed approval. */
  lemma ExpiryFailsIff(db: Db, r: Id)
    requires HasStatus(db.runs, r, AwaitingApproval)
    ensures HasStatus(After(db, ExpireApprovals).runs, r, Failed) <==> HasLapsed(db, r)
  {
  }

  /** In every state a run that waits for an approval can be decided, or fails at the next expiry, or is stranded. */
  lemma WaitingRunsResolve(db: Db, r: Id)
    requires HasStatus(db.runs, r, AwaitingApproval)
    ensures HasDecidable(db.approvals, r, db.now) || HasStatus(After(db, ExpireApprovals).runs, r, Failed) || Stranded(db, r)
  {
    hide Apply;
    ExpiryFailsIff(db, r);
    if HasOpen(db.approvals, r) {
      var a :| a in db.approvals && db.approvals[a].run == r && db.approvals[a].decision == None;
      assert DecidableRow(db.approvals[a], r, db.now) || Lapsed(db.approvals[a], db.now);
    }
  }

  /** In every run from the empty tables that never strands one, a run that waits for an approval can be decided or fails
      at the next expiry. */
  lemma UnstrandedRunsResolve(steps: seq<Step>, r: Id)
    requires NeverStrands(EMPTY, steps) && HasStatus(Execute(EMPTY, steps).runs, r, AwaitingApproval)
    ensures var db := Execute(EMPTY, steps);
      HasDecidable(db.approvals, r, db.now) || HasStatus(After(db, ExpireApprovals).runs, r, Failed)
  {
    hide Apply, Execute, NeverStrands, HasOpen, HasDecidable;
    RunsStayOpen(EMPTY, steps);
    WaitingRunsResolve(Execute(EMPTY, steps), r);
  }
}
