/**
 Each transaction of the control plane by its rows: when it goes through, what it then
 leaves, and that it leaves everything as it was otherwise.
 */
module Transactions {
  import opened ControlPlane
  import opened ControlPlaneInvariants
  import opened ControlPlaneRows
  import opened Wrappers

  // ---------------------------------------------------------------- all or nothing

  /** A transaction that does not go through changes no row. */
  lemma RefusedLeavesNothing(db: Db, s: Step)
    requires !Succeeds(db, s)
    ensures After(db, s) == db
  {
    hide HasActiveRun, HasJob, Record, CanDecide, CanAnswer, RequeueDecided, RequeueAnswered, ProjectRuns, ProjectApprovals,
         ProjectInteractions, KillJobsOf, MoveRun, BuryExhausted, FailLost, LeaseAll, FailLapsed, DenyLapsed;
  }

  /** The identifier is taken by no event and no outbox row. */
  predicate Unused(db: Db, event: Id) {
    event !in db.events && event !in db.outbox
  }

  /** One event of the run has been added, and the row that will publish it, due at once, under the same identifier. */
  ghost predicate Recorded(db: Db, next: Db, run: Id, event: Id) {
    && next.events == db.events[event := run]
    && next.outbox == db.outbox[event := OutboxRow(run, |db.outbox|, 0, db.now, None, None, None)]
  }

  /** Of all runs only this one may have changed. */
  ghost predicate OnlyRun(db: Db, next: Db, run: Id) {
    next.runs.Keys == db.runs.Keys && forall r :: r in db.runs && r != run ==> next.runs[r] == db.runs[r]
  }

  /** Of all jobs only those of this run may have changed. */
  ghost predicate OnlyJobsOf(db: Db, next: Db, run: Id) {
    next.jobs.Keys == db.jobs.Keys && forall j :: j in db.jobs && db.jobs[j].run != run ==> next.jobs[j] == db.jobs[j]
  }

  // ---------------------------------------------------------------- users

  /** A session of another tenant, or one that is busy, takes no run; a parent must be a run of the tenant. */
  lemma CreatedIff(db: Db, s: Step)
    requires s.CreateRun?
    ensures Succeeds(db, s) <==>
      && (s.key == 0 || (s.tenant, s.key) !in db.keys)
      && (s.session in db.sessions ==> db.sessions[s.session] == s.tenant)
      && (forall r :: r in db.runs && db.runs[r].tenant == s.tenant && db.runs[r].session == s.session ==>
            db.runs[r].status in {Completed, Failed, Cancelled})
      && (s.parent.Some? ==> s.parent.value in db.runs && db.runs[s.parent.value].tenant == s.tenant)
      && s.run !in db.runs && s.job !in db.jobs && s.event !in db.outbox
      && (forall j :: j in db.jobs ==> db.jobs[j].run != s.run)
    ensures Succeeds(db, s) ==>
      After(db, s) == db.(
        sessions := db.sessions[s.session := s.tenant],
        runs := db.runs[s.run := Run(s.tenant, s.session, Queued, 1, None)],
        jobs := db.jobs[s.job := Job(s.run, Payload([], [], false, None, s.restored), Ready, 0, 5, db.now, db.now, None, None)],
        outbox := db.outbox[s.event := OutboxRow(s.run, |db.outbox|, 0, db.now, None, None, None)],
        keys := if s.key == 0 then db.keys else db.keys[(s.tenant, s.key) := s.run])
  {
    hide HasActiveRun, HasJob;
    BusyIff(db, s.tenant, s.session);
    assert HasJob(db, s.run) <==> exists j :: j in db.jobs && db.jobs[j].run == s.run by { JobsOf(db, s.run); }
    assert s.session in db.sessions && db.sessions[s.session] == s.tenant ==> db.sessions[s.session := s.tenant] == db.sessions;
  }

  lemma BusyIff(db: Db, tenant: Id, session: Id)
    ensures HasActiveRun(db, tenant, session) <==>
            !forall r :: r in db.runs && db.runs[r].tenant == tenant && db.runs[r].session == session ==>
               db.runs[r].status in {Completed, Failed, Cancelled}
  {
  }

  lemma JobsOf(db: Db, run: Id)
    ensures HasJob(db, run) <==> exists j :: j in db.jobs && db.jobs[j].run == run
  {
  }

  /** A run that is not over can be cancelled by its tenant; its job then is dead unless it was already over. */
  lemma CancelledIff(db: Db, s: Step)
    requires s.CancelRun?
    ensures Succeeds(db, s) <==>
      && s.run in db.runs && db.runs[s.run].tenant == s.tenant
      && db.runs[s.run].status in {Queued, Running, AwaitingApproval, AwaitingInput}
      && Unused(db, s.event)
    ensures Succeeds(db, s) ==>
      var next := After(db, s);
      && Recorded(db, next, s.run, s.event) && OnlyRun(db, next, s.run) && OnlyJobsOf(db, next, s.run)
      && next == db.(events := next.events, outbox := next.outbox, runs := next.runs, jobs := next.jobs)
      && next.runs[s.run] == db.runs[s.run].(status := Cancelled, version := db.runs[s.run].version + 1)
      && forall j :: j in db.jobs && db.jobs[j].run == s.run ==>
           next.jobs[j] == if db.jobs[j].status in {Ready, Leased} then db.jobs[j].(status := Dead, owner := None, leaseUntil := None)
                           else db.jobs[j]
  {
  }

  /** The job of the run, ready at once with all its attempts, with this payload and the run's last snapshot to start from. */
  predicate ResumedAs(db: Db, before: Job, after: Job, payload: Payload)
    requires before.run in db.runs
  {
    var snapshot := db.runs[before.run].snapshot;
    after == Job(before.run, payload.(resume := true, session := if snapshot.Some? then snapshot else before.payload.session),
                 Ready, 0, before.maxAttempts, db.now, before.createdAt, None, None)
  }

  /** A user may decide an approval of the tenant that nobody has decided and that has not run out; then the run, if it waits
      for an approval, is queued, and its job starts again knowing the decision. */
  lemma DecidedIff(db: Db, s: Step)
    requires s.DecideApproval?
    ensures Succeeds(db, s) <==>
      && s.approval in db.approvals && db.approvals[s.approval].decision == None && db.now < db.approvals[s.approval].expiresAt
      && db.approvals[s.approval].run in db.runs && db.runs[db.approvals[s.approval].run].tenant == s.tenant
      && (exists j :: j in db.jobs && db.jobs[j].run == db.approvals[s.approval].run)
      && Unused(db, s.event)
    ensures Succeeds(db, s) ==>
      var next, row := After(db, s), db.approvals[s.approval];
      && Recorded(db, next, row.run, s.event) && OnlyRun(db, next, row.run) && OnlyJobsOf(db, next, row.run)
      && next == db.(events := next.events, outbox := next.outbox, runs := next.runs, jobs := next.jobs,
                     approvals := db.approvals[s.approval := row.(decision := Some(s.decision), decidedAt := Some(db.now))])
      && next.runs[row.run] == (if db.runs[row.run].status == AwaitingApproval
                                then db.runs[row.run].(status := Queued, version := db.runs[row.run].version + 1) else db.runs[row.run])
      && forall j :: j in db.jobs && db.jobs[j].run == row.run ==>
           var payload := db.jobs[j].payload;
           ResumedAs(db, db.jobs[j], next.jobs[j],
                     match s.decision
                     case Allow => payload.(approved := payload.approved + [row.hash])
                     case Deny => payload.(denied := payload.denied + [row.hash]))
  {
    hide HasJob;
    if s.approval in db.approvals {
      JobsOf(db, db.approvals[s.approval].run);
    }
  }

  /** Some other interaction of the run is still open. */
  predicate OthersOpen(db: Db, interaction: InteractionId, run: Id) {
    exists i :: i in db.interactions && i != interaction && db.interactions[i].run == run && db.interactions[i].status == Pending
  }

  lemma StillPending(db: Db, s: Step, run: Id)
    requires s.AnswerInteraction? && s.interaction in db.interactions
    ensures HasPending(CloseInteraction(db, s), run) <==> OthersOpen(db, s.interaction, run)
  {
    var closed := CloseInteraction(db, s);
    if i :| i in db.interactions && i != s.interaction && db.interactions[i].run == run && db.interactions[i].status == Pending {
      assert i in closed && closed[i] == db.interactions[i];
    }
  }

  /** A user may answer an interaction of the tenant that is open and has not run out. */
  lemma AnsweredIff(db: Db, s: Step)
    requires s.AnswerInteraction?
    ensures Succeeds(db, s) <==>
      && s.interaction in db.interactions && db.interactions[s.interaction].status == Pending
      && db.now < db.interactions[s.interaction].expiresAt
      && db.interactions[s.interaction].run in db.runs && db.runs[db.interactions[s.interaction].run].tenant == s.tenant
      && (db.interactions[s.interaction].kind == Questionnaire ==>
            exists j :: j in db.jobs && db.jobs[j].run == db.interactions[s.interaction].run)
      && Unused(db, s.event)
  {
    hide HasJob, HasPending, RequeueAnswered;
    if s.interaction in db.interactions {
      JobsOf(db, db.interactions[s.interaction].run);
    }
  }

  /** An answer to a questionnaire queues a run that waits for input, and its job starts again knowing of it. */
  lemma QuestionnaireAnswered(db: Db, s: Step)
    requires s.AnswerInteraction? && Succeeds(db, s) && s.interaction in db.interactions
    requires db.interactions[s.interaction].kind == Questionnaire && db.interactions[s.interaction].run in db.runs
    ensures var next, row := After(db, s), db.interactions[s.interaction];
      && Recorded(db, next, row.run, s.event) && OnlyRun(db, next, row.run) && OnlyJobsOf(db, next, row.run)
      && next == db.(events := next.events, outbox := next.outbox, runs := next.runs, jobs := next.jobs,
                     interactions := db.interactions[s.interaction := row.(status := if s.withdrawn then Withdrawn else Answered)])
      && next.runs[row.run] == (if db.runs[row.run].status == AwaitingInput
                                then db.runs[row.run].(status := Queued, version := db.runs[row.run].version + 1) else db.runs[row.run])
      && forall j :: j in db.jobs && db.jobs[j].run == row.run ==>
           ResumedAs(db, db.jobs[j], next.jobs[j], db.jobs[j].payload.(resumePrompt := Some((s.interaction, s.withdrawn))))
  {
    hide HasJob, HasPending;
  }

  /** An answer to an elicitation reaches the worker that polls for it: no job changes, and a run that runs or waits for input
      goes on waiting while something else is open and runs otherwise. */
  lemma ElicitationAnswered(db: Db, s: Step)
    requires s.AnswerInteraction? && Succeeds(db, s) && s.interaction in db.interactions
    requires db.interactions[s.interaction].kind == Elicitation && db.interactions[s.interaction].run in db.runs
    ensures var next, row := After(db, s), db.interactions[s.interaction]; var run := db.runs[row.run];
      && Recorded(db, next, row.run, s.event) && OnlyRun(db, next, row.run)
      && next == db.(events := next.events, outbox := next.outbox, runs := next.runs,
                     interactions := db.interactions[s.interaction := row.(status := if s.withdrawn then Withdrawn else Answered)])
      && next.runs[row.run] == (if run.status in {Running, AwaitingInput}
                                then run.(status := if OthersOpen(db, s.interaction, row.run) then AwaitingInput else Running,
                                          version := run.version + 1)
                                else run)
  {
    hide HasJob, HasPending, OthersOpen, RequeueAnswered;
    StillPending(db, s, db.interactions[s.interaction].run);
  }

  // ---------------------------------------------------------------- workers

  /** A worker may start any run that is neither over for good nor waiting for an approval. */
  lemma StartedIff(db: Db, s: Step)
    requires s.StartRun?
    ensures Succeeds(db, s) <==> s.run in db.runs && db.runs[s.run].status in {Queued, Running, AwaitingInput, Failed}
    ensures Succeeds(db, s) ==>
      After(db, s) == db.(runs := db.runs[s.run := db.runs[s.run].(status := Running, version := db.runs[s.run].version + 1)])
  {
  }

  /** The holder of a job, and nobody else, prolongs its lease, finishes it, or gives it back: then it is due again after the
      delay, or dead when no attempts are left. */
  lemma ReportedIff(db: Db, s: Step)
    requires s.HeartbeatJob? || s.CompleteJob? || s.FailJob?
    ensures Succeeds(db, s) <==> s.job in db.jobs && db.jobs[s.job].status == Leased && db.jobs[s.job].owner == Some(s.owner)
    ensures Succeeds(db, s) ==>
      var job := db.jobs[s.job];
      After(db, s) == db.(jobs := db.jobs[s.job :=
        match s
        case HeartbeatJob(_, _, lease) => job.(leaseUntil := Some(db.now + lease))
        case CompleteJob(_, _) => job.(status := Finished, owner := None, leaseUntil := None)
        case FailJob(_, _, delay) =>
          job.(status := if job.attempts < job.maxAttempts then Ready else Dead, availableAt := db.now + delay, owner := None,
               leaseUntil := None)])
  {
  }

  /** After it no approval is left open that has run out, and no run waits for one that just did. */
  lemma ExpiredLeave(db: Db, s: Step)
    requires s.ExpireApprovals?
    ensures Succeeds(db, s)
    ensures var next := After(db, s);
      && next == db.(runs := next.runs, approvals := next.approvals)
      && next.runs.Keys == db.runs.Keys && next.approvals.Keys == db.approvals.Keys
    ensures forall a :: a in db.approvals ==>
      var row := db.approvals[a];
      After(db, s).approvals[a] == if row.decision == None && row.expiresAt <= db.now
                                   then row.(decision := Some(Deny), decidedAt := Some(db.now)) else row
    ensures forall r :: r in db.runs ==>
      var run := db.runs[r];
      After(db, s).runs[r] ==
        if run.status == AwaitingApproval && RanOut(db, r) then run.(status := Failed, version := run.version + 1) else run
  {
    hide HasLapsed, RanOut;
    forall r ensures HasLapsed(db, r) <==> RanOut(db, r) { RanOutIff(db, r); }
  }

  predicate RanOut(db: Db, run: Id) {
    exists a :: a in db.approvals && db.approvals[a].run == run && db.approvals[a].decision == None && db.approvals[a].expiresAt <= db.now
  }

  lemma RanOutIff(db: Db, run: Id)
    ensures HasLapsed(db, run) <==> RanOut(db, run)
  {
  }

  // ---------------------------------------------------------------- what the engine reports

  /** Some approval, or some interaction, has the identifier, or is for the same call of the run. */
  predicate ApprovalKnown(db: Db, id: ApprovalId, run: Id, call: Text) {
    exists a :: a in db.approvals && (a == id || (db.approvals[a].run == run && db.approvals[a].call == call))
  }

  predicate InteractionKnown(db: Db, id: InteractionId, run: Id, call: Text) {
    exists i :: i in db.interactions && (i == id || (db.interactions[i].run == run && db.interactions[i].call == call))
  }

  lemma KnownIff(db: Db, a: ApprovalId, i: InteractionId, run: Id, call: Text)
    ensures ApprovalKeyTaken(db, a, run, call) <==> ApprovalKnown(db, a, run, call)
    ensures InteractionKeyTaken(db, i, run, call) <==> InteractionKnown(db, i, run, call)
  {
  }

  /** An event is taken for any run there is, whoever reports it; a snapshot only under the tenant of the run. */
  lemma AppendedIff(db: Db, s: Step)
    requires s.AppendRunEvent?
    ensures Succeeds(db, s) <==>
      && s.run in db.runs && Unused(db, s.event)
      && (s.content.SessionSnapshot? ==> db.runs[s.run].tenant == s.tenant)
    ensures Succeeds(db, s) ==>
      var next := After(db, s);
      && Recorded(db, next, s.run, s.event) && OnlyRun(db, next, s.run)
      && next == db.(events := next.events, outbox := next.outbox, runs := next.runs,
                     approvals := next.approvals, interactions := next.interactions)
      && (!s.content.ApprovalRequested? ==> next.approvals == db.approvals)
      && (!s.content.InputRequested? ==> next.interactions == db.interactions)
  {
    hide ApprovalKeyTaken, InteractionKeyTaken, IsPending;
  }

  function MovedTo(run: Run, status: RunStatus): Run {
    run.(status := status, version := run.version + 1)
  }

  /** What events other than requests do to their run: only a running run completes, only a queued or running one fails. */
  lemma EventMovesRun(db: Db, s: Step)
    requires s.AppendRunEvent? && Succeeds(db, s) && s.run in db.runs
    ensures s.run in After(db, s).runs
    ensures var run, next := db.runs[s.run], After(db, s).runs[s.run];
      match s.content
      case RunCompleted => next == if run.status == Running then MovedTo(run, Completed) else run
      case RunFailed => next == if run.status in {Queued, Running} then MovedTo(run, Failed) else run
      case SessionSnapshot(entries) => next == run.(snapshot := Some(entries), version := run.version + 1)
      case Progress(_) => next == run
      case _ => true
  {
    hide ApprovalKeyTaken, InteractionKeyTaken;
  }

  /** A request for approval opens one for a quarter of an hour, unless there is one for the same call, and a running run then
      waits for an approval. */
  lemma ApprovalIsOpened(db: Db, s: Step)
    requires s.AppendRunEvent? && Succeeds(db, s) && s.run in db.runs && s.content.ApprovalRequested?
    ensures var c := s.content;
      After(db, s).approvals ==
        if ApprovalKnown(db, c.approval, s.run, c.call) then db.approvals
        else db.approvals[c.approval :=
               Approval(s.run, c.call, c.tool, c.arguments, c.hash, db.now + 900_000_000, None, None)]
    ensures s.run in After(db, s).runs
    ensures var run := db.runs[s.run];
      After(db, s).runs[s.run] == if run.status == Running then MovedTo(run, AwaitingApproval) else run
  {
    hide ApprovalKeyTaken, InteractionKeyTaken, ApprovalKnown;
    KnownIff(db, s.content.approval, InteractionId(0, 0, 0), s.run, s.content.call);
  }

  /** A request for input opens an interaction for a day, unless there is one for the same call; a running run then waits for
      input while the interaction under this identifier is open, and goes on otherwise. */
  lemma InteractionIsOpened(db: Db, s: Step)
    requires s.AppendRunEvent? && Succeeds(db, s) && s.run in db.runs && s.content.InputRequested?
    ensures var c := s.content;
      After(db, s).interactions ==
        if InteractionKnown(db, c.interaction, s.run, c.call) then db.interactions
        else db.interactions[c.interaction := Interaction(s.run, c.call, c.kind, db.now + 86_400_000_000, Pending)]
    ensures s.run in After(db, s).runs
    ensures var run, open := db.runs[s.run], After(db, s).interactions; var id := s.content.interaction;
      After(db, s).runs[s.run] ==
        if run.status != Running then run
        else MovedTo(run, if id in open && open[id].status == Pending then AwaitingInput else Running)
  {
    hide ApprovalKeyTaken, InteractionKeyTaken, InteractionKnown;
    KnownIff(db, ApprovalId(0, 0, Digest(0, 0)), s.content.interaction, s.run, s.content.call);
  }

  // ---------------------------------------------------------------- the outbox

  /** A row is leased exactly when it is picked, unpublished, due, leased fewer than twenty times, and not leased now. */
  lemma RowLeasedIff(db: Db, s: Step, e: Id)
    requires s.LeaseOutbox? && e in db.outbox
    ensures After(db, s) == db.(outbox := After(db, s).outbox) && After(db, s).outbox.Keys == db.outbox.Keys
    ensures var row := db.outbox[e];
      After(db, s).outbox[e] ==
        if e in s.picked && row.publishedAt == None && row.attempts < 20 && row.nextAttemptAt <= db.now
           && (row.leaseUntil == None || row.leaseUntil.value < db.now)
        then row.(owner := Some(s.owner), leaseUntil := Some(db.now + s.lease), attempts := row.attempts + 1)
        else row
  {
  }

  /** The owner of an unpublished row, and nobody else, publishes it or gives it back for a later attempt. */
  lemma RowReportedIff(db: Db, s: Step)
    requires s.MarkOutboxPublished? || s.FailOutbox?
    ensures Succeeds(db, s) <==> s.event in db.outbox && db.outbox[s.event].owner == Some(s.owner) && db.outbox[s.event].publishedAt == None
    ensures Succeeds(db, s) ==>
      var row := db.outbox[s.event];
      After(db, s) == db.(outbox := db.outbox[s.event :=
        match s
        case MarkOutboxPublished(_, _) => row.(publishedAt := Some(db.now), owner := None, leaseUntil := None)
        case FailOutbox(_, _, delay) => row.(nextAttemptAt := db.now + delay, owner := None, leaseUntil := None)])
  {
  }
}
