/**
 The repository the API and the workers call: tables updated in place, one
 transaction per method. Every method is proved to take exactly the step of the
 control plane that carries its name, so the theorems about steps are theorems
 about any interleaving of these calls.
 */
module Repository {
  import opened Wrappers
  import opened ControlPlane

  datatype LeasedJob = LeasedJob(id: Id, run: Id, payload: Payload, attempts: nat)
  datatype LeasedEvent = LeasedEvent(id: Id, attempts: nat)

  /** The queue order of jobs: `ORDER BY available_at, created_at`. */
  predicate Precedes(a: Job, b: Job) {
    a.availableAt < b.availableAt || (a.availableAt == b.availableAt && a.createdAt < b.createdAt)
  }

  const SECOND: nat := 1_000_000

  function Pow2(n: nat): nat {
    if n == 0 then 1 else 2 * Pow2(n - 1)
  }

  /** Exponential back-off, capped at five minutes. */
  function RetryDelay(attempt: int): nat {
    SECOND * (if attempt >= 9 then 300 else Pow2(if attempt < 1 then 1 else attempt))
  }

  function JobIds(rows: seq<LeasedJob>): set<Id> {
    set i | 0 <= i < |rows| :: rows[i].id
  }

  function Ids(rows: seq<LeasedEvent>): set<Id> {
    set i | 0 <= i < |rows| :: rows[i].id
  }

  /** A row the query for the outbox may return. */
  predicate IsCandidate(outbox: map<Id, OutboxRow>, locked: set<Id>, now: Time, row: LeasedEvent) {
    && row.id in outbox && row.id !in locked && Sendable(outbox[row.id], now)
    && row.attempts == outbox[row.id].attempts
  }

  /** `ORDER BY seq`. */
  predicate InOrder(outbox: map<Id, OutboxRow>, rows: seq<LeasedEvent>) {
    && (forall i :: 0 <= i < |rows| ==> rows[i].id in outbox)
    && (forall i, k :: 0 <= i < k < |rows| ==> outbox[rows[i].id].number <= outbox[rows[k].id].number)
  }

  predicate ComesAfter(outbox: map<Id, OutboxRow>, rows: seq<LeasedEvent>, e: Id)
    requires e in outbox
  {
    forall i :: 0 <= i < |rows| ==> rows[i].id in outbox && outbox[rows[i].id].number <= outbox[e].number
  }

  /** What one delivery attempt leaves of a row: published, or released for a later attempt. */
  function Settle(row: OutboxRow, delivered: bool, now: Time): OutboxRow {
    if delivered
    then row.(attempts := row.attempts + 1, publishedAt := Some(now), owner := None, leaseUntil := None)
    else row.(attempts := row.attempts + 1, nextAttemptAt := now + RetryDelay(row.attempts + 1), owner := None, leaseUntil := None)
  }

  /** What the report on a delivery leaves of a leased row. */
  function Reported(row: OutboxRow, delivered: bool, now: Time): OutboxRow {
    if delivered then row.(publishedAt := Some(now), owner := None, leaseUntil := None)
    else row.(nextAttemptAt := now + RetryDelay(row.attempts), owner := None, leaseUntil := None)
  }

  /** What an event means does not depend on the events recorded. */
  lemma EventsDoNotProject(db: Db, recorded: Db, run: Id, content: RunEvent)
    requires run in db.runs && recorded == db.(events := recorded.events, outbox := recorded.outbox)
    ensures ProjectRuns(recorded, run, content) == ProjectRuns(db, run, content)
    ensures ProjectApprovals(recorded, run, content) == ProjectApprovals(db, run, content)
    ensures ProjectInteractions(recorded, run, content) == ProjectInteractions(db, run, content)
  {
  }

  /** A job that is buried could not be leased before, nor can it after. */
  lemma BuryingSparesTheEligible(jobs: map<Id, Job>, now: Time)
    ensures forall j :: j in jobs ==> Eligible(BuryExhausted(jobs, now)[j], now) == Eligible(jobs[j], now)
    ensures forall j :: j in jobs && Eligible(jobs[j], now) ==> BuryExhausted(jobs, now)[j] == jobs[j]
    ensures BuryExhausted(jobs, now).Keys == jobs.Keys
  {
  }

  /** Whether and what an event records depends on neither the status of the run nor the other tables. */
  lemma RecordIgnores(db: Db, changed: Db, run: Id, event: Id)
    requires changed.runs.Keys == db.runs.Keys && changed.now == db.now
    requires changed.events == db.events && changed.outbox == db.outbox
    ensures Record(changed, run, event).Some? == Record(db, run, event).Some?
    ensures Record(db, run, event).Some? ==>
              var recorded := Record(db, run, event).value;
              && recorded == db.(events := recorded.events, outbox := recorded.outbox)
              && Record(changed, run, event).value == changed.(events := recorded.events, outbox := recorded.outbox)
  {
  }

  /** The tables after an answer that was taken and recorded. */
  function AnsweredTables(db: Db, interaction: InteractionId, withdrawn: bool, recorded: Db): Db
    requires interaction in db.interactions && db.interactions[interaction].run in db.runs
  {
    var row := db.interactions[interaction];
    var closed := db.interactions[interaction := row.(status := if withdrawn then Withdrawn else Answered)];
    recorded.(interactions := closed,
              jobs := if row.kind == Elicitation then db.jobs else RequeueAnswered(db, row.run, interaction, withdrawn),
              runs := if row.kind == Elicitation
                      then MoveRun(db.runs, row.run, HasStatus(db.runs, row.run, Running) || HasStatus(db.runs, row.run, AwaitingInput),
                                   if HasPending(closed, row.run) then AwaitingInput else Running)
                      else MoveRun(db.runs, row.run, HasStatus(db.runs, row.run, AwaitingInput), Queued))
  }

  lemma SendableRows(outbox: map<Id, OutboxRow>, now: Time)
    ensures forall e :: e in outbox ==>
              (Sendable(outbox[e], now) <==>
                 && outbox[e].publishedAt == None && outbox[e].attempts < 20 && outbox[e].nextAttemptAt <= now
                 && (outbox[e].leaseUntil.None? || outbox[e].leaseUntil.value < now))
  {
  }

  lemma SettledRows(outbox: map<Id, OutboxRow>, accepted: set<Id>, now: Time)
    ensures forall e :: e in outbox ==>
              var row := outbox[e];
              Settle(row, e in accepted, now) ==
                if e in accepted
                then row.(attempts := row.attempts + 1, publishedAt := Some(now), owner := None, leaseUntil := None)
                else row.(attempts := row.attempts + 1, nextAttemptAt := now + RetryDelay(row.attempts + 1), owner := None,
                          leaseUntil := None)
  {
    hide RetryDelay;
  }

  lemma IdAt(rows: seq<LeasedEvent>, e: Id) returns (i: nat)
    requires e in Ids(rows)
    ensures i < |rows| && rows[i].id == e
  {
    i :| 0 <= i < |rows| && rows[i].id == e;
  }

  /** The delay starts at two seconds, doubles with each attempt, and is five minutes from the ninth on. */
  lemma DelaysDouble(attempt: int)
    ensures attempt <= 1 ==> RetryDelay(attempt) == 2_000_000
    ensures 1 <= attempt < 8 ==> RetryDelay(attempt + 1) == 2 * RetryDelay(attempt)
    ensures attempt >= 9 ==> RetryDelay(attempt) == 300_000_000
    ensures RetryDelay(attempt) <= RetryDelay(attempt + 1)
  {
    assert Pow2(1) == 2 && Pow2(2) == 4 && Pow2(3) == 8 && Pow2(4) == 16 && Pow2(5) == 32 && Pow2(6) == 64 && Pow2(7) == 128;
    assert Pow2(8) == 256;
  }

  lemma NoIds()
    ensures Ids([]) == {}
  {
  }

  lemma NotAmongIds(rows: seq<LeasedEvent>, e: Id)
    requires e !in Ids(rows)
    ensures forall i :: 0 <= i < |rows| ==> rows[i].id != e
  {
  }

  lemma OneMoreId(rows: seq<LeasedEvent>, row: LeasedEvent)
    ensures Ids(rows + [row]) == Ids(rows) + {row.id}
  {
    var more := rows + [row];
    assert forall i :: 0 <= i < |rows| ==> more[i] == rows[i];
    assert more[|rows|] == row;
  }

  lemma InOrderWithNext(outbox: map<Id, OutboxRow>, rows: seq<LeasedEvent>, row: LeasedEvent)
    requires InOrder(outbox, rows) && row.id in outbox && ComesAfter(outbox, rows, row.id)
    ensures InOrder(outbox, rows + [row])
  {
  }

  lemma AfterTheNext(outbox: map<Id, OutboxRow>, rows: seq<LeasedEvent>, row: LeasedEvent, e: Id)
    requires row.id in outbox && e in outbox && ComesAfter(outbox, rows, e) && outbox[row.id].number <= outbox[e].number
    ensures ComesAfter(outbox, rows + [row], e)
  {
  }

  class Repository {
    var now: Time
    var sessions: map<Id, Id>
    var runs: map<Id, Run>
    var jobs: map<Id, Job>
    var approvals: map<ApprovalId, Approval>
    var interactions: map<InteractionId, Interaction>
    var events: map<Id, Id>
    var outbox: map<Id, OutboxRow>
    var keys: map<(Id, Text), Id>

    function Tables(): Db
      reads this
    {
      Db(now, sessions, runs, jobs, approvals, interactions, events, outbox, keys)
    }

    constructor ()
      ensures Tables() == EMPTY
    {
      now := 0;
      sessions, runs, jobs := map[], map[], map[];
      approvals, interactions := map[], map[];
      events, outbox, keys := map[], map[], map[];
    }

    /** The database clock moves on between transactions. */
    method Tick(elapsed: nat)
      modifies `now
      ensures Tables() == After(old(Tables()), Step.Tick(elapsed))
    {
      now := now + elapsed;
    }

    /** Gives up the open transaction. */
    method Rollback(begun: Db)
      modifies this
      ensures Tables() == begun
    {
      now, sessions, runs, jobs := begun.now, begun.sessions, begun.runs, begun.jobs;
      approvals, interactions := begun.approvals, begun.interactions;
      events, outbox, keys := begun.events, begun.outbox, begun.keys;
    }

    method RecordEvent(run: Id, event: Id) returns (ok: bool)
      modifies `events, `outbox
      ensures var recorded := Record(old(Tables()), run, event);
        ok == recorded.Some? && Tables() == recorded.GetOr(old(Tables()))
    {
      if run !in runs || event in events || event in outbox {
        return false;
      }
      events := events[event := run];
      outbox := outbox[event := NewRow(Tables(), run)];
      return true;
    }

    method CreateRun(tenant: Id, key: Text, session: Id, parent: Option<Id>, run: Id, job: Id, event: Id, restored: Option<Text>)
      returns (outcome: Outcome)
      modifies this
      ensures (Tables(), outcome) == ApplyCreateRun(old(Tables()), Step.CreateRun(tenant, key, session, parent, run, job, event, restored))
    {
      hide HasActiveRun, HasJob;
      if key != NO_KEY && (tenant, key) in keys {
        return Replay(keys[(tenant, key)]);
      }
      if session in sessions && sessions[session] != tenant {
        return Conflict;
      }
      var busy := HasActiveRun(Tables(), tenant, session);
      if busy {
        return Conflict;
      }
      if parent.Some? && (parent.value !in runs || runs[parent.value].tenant != tenant) {
        return NotFound;
      }
      if run in runs || job in jobs || event in outbox || HasJob(Tables(), run) {
        return DatabaseError;
      }
      if session !in sessions {
        sessions := sessions[session := tenant];
      }
      runs := runs[run := Run(tenant, session, Queued, 1, None)];
      jobs := jobs[job := Job(run, Payload([], [], false, None, restored), Ready, 0, MAX_ATTEMPTS, now, now, None, None)];
      outbox := outbox[event := NewRow(Tables(), run)];
      if key != NO_KEY {
        keys := keys[(tenant, key) := run];
      }
      return Ok;
    }

    /** Each open job of the run is dead, and nobody's. */
    method KillOpenJobs(run: Id)
      modifies `jobs
      ensures jobs == KillJobsOf(old(jobs), run)
    {
      var left := set j | j in jobs && jobs[j].run == run && IsOpen(jobs[j]);
      while left != {}
        invariant left <= jobs.Keys == old(jobs).Keys
        invariant forall j :: j in left ==> jobs[j] == old(jobs)[j] && jobs[j].run == run && IsOpen(jobs[j])
        invariant forall j :: j in jobs && j !in left ==> jobs[j] == KillJobsOf(old(jobs), run)[j]
        decreases |left|
      {
        var j :| j in left;
        jobs := jobs[j := KillJob(jobs[j])];
        left := left - {j};
      }
    }

    method CancelRun(tenant: Id, run: Id, event: Id) returns (outcome: Outcome)
      modifies this
      ensures (Tables(), outcome) == ApplyCancelRun(old(Tables()), Step.CancelRun(tenant, run, event))
    {
      var begun := Tables();
      if run !in runs || runs[run].tenant != tenant {
        return NotFound;
      }
      if !IsActive(runs[run].status) {
        return Conflict;
      }
      runs := MoveRun(runs, run, true, Cancelled);
      KillOpenJobs(run);
      var ok := RecordEvent(run, event);
      if !ok {
        Rollback(begun);
        return DatabaseError;
      }
      return Ok;
    }

    /** The job of the run, with the decision in its payload. */
    method ResumeDecided(begun: Db, row: Approval, decision: Decision)
      requires row.run in begun.runs && begun.jobs == jobs && begun.now == now
      modifies `jobs
      ensures jobs == RequeueDecided(begun, row, decision)
    {
      hide Requeue, DecidedPayload, WithSnapshot;
      var left := set j | j in jobs && jobs[j].run == row.run;
      while left != {}
        invariant left <= jobs.Keys == old(jobs).Keys
        invariant forall j :: j in left ==> jobs[j] == old(jobs)[j] && jobs[j].run == row.run
        invariant forall j :: j in jobs && j !in left ==> jobs[j] == RequeueDecided(begun, row, decision)[j]
        decreases |left|
      {
        var j :| j in left;
        jobs := jobs[j := Requeue(jobs[j], DecidedPayload(jobs[j].payload, decision, row.hash, begun.runs[row.run].snapshot), now)];
        left := left - {j};
      }
    }

    method DecideApproval(tenant: Id, approval: ApprovalId, decision: Decision, event: Id) returns (outcome: Outcome)
      modifies this
      ensures (Tables(), outcome) == ApplyDecideApproval(old(Tables()), Step.DecideApproval(tenant, approval, decision, event))
    {
      hide RequeueDecided, HasJob, Record;
      var begun := Tables();
      if !CanDecide(begun, tenant, approval) {
        return Conflict;
      }
      var row := approvals[approval];
      approvals := approvals[approval := row.(decision := Some(decision), decidedAt := Some(now))];
      if !HasJob(begun, row.run) {
        Rollback(begun);
        return DatabaseError;
      }
      ResumeDecided(begun, row, decision);
      runs := MoveRun(runs, row.run, HasStatus(runs, row.run, AwaitingApproval), Queued);
      RecordIgnores(begun, Tables(), row.run, event);
      var ok := RecordEvent(row.run, event);
      if !ok {
        Rollback(begun);
        return DatabaseError;
      }
      return Ok;
    }

    /** The job of the run, with the answer in its payload. */
    method ResumeAnswered(begun: Db, run: Id, interaction: InteractionId, withdrawn: bool)
      requires run in begun.runs && begun.jobs == jobs && begun.now == now
      modifies `jobs
      ensures jobs == RequeueAnswered(begun, run, interaction, withdrawn)
    {
      hide Requeue, DecidedPayload, WithSnapshot;
      var left := set j | j in jobs && jobs[j].run == run;
      while left != {}
        invariant left <= jobs.Keys == old(jobs).Keys
        invariant forall j :: j in left ==> jobs[j] == old(jobs)[j] && jobs[j].run == run
        invariant forall j :: j in jobs && j !in left ==> jobs[j] == RequeueAnswered(begun, run, interaction, withdrawn)[j]
        decreases |left|
      {
        var j :| j in left;
        jobs := jobs[j := Requeue(jobs[j], WithSnapshot(jobs[j].payload.(resume := true, resumePrompt := Some((interaction, withdrawn))), begun.runs[run].snapshot), now)];
        left := left - {j};
      }
    }

    /** The interaction is closed. An answer to an elicitation reaches the worker that polls for it; one to a questionnaire
        resumes the job. */
    method TakeAnswer(begun: Db, interaction: InteractionId, withdrawn: bool)
      requires interaction in interactions && interactions[interaction].run in runs
      requires begun.interactions == interactions && begun.runs == runs && begun.jobs == jobs && begun.now == now
      modifies `interactions, `jobs, `runs
      ensures var row := begun.interactions[interaction]; var run := row.run;
        && interactions == begun.interactions[interaction := row.(status := if withdrawn then Withdrawn else Answered)]
        && jobs == (if row.kind == Elicitation then begun.jobs else RequeueAnswered(begun, run, interaction, withdrawn))
        && runs == (if row.kind == Elicitation
                    then MoveRun(begun.runs, run, HasStatus(begun.runs, run, Running) || HasStatus(begun.runs, run, AwaitingInput),
                                 if HasPending(interactions, run) then AwaitingInput else Running)
                    else MoveRun(begun.runs, run, HasStatus(begun.runs, run, AwaitingInput), Queued))
    {
      hide HasPending, RequeueAnswered, MoveRun, HasStatus;
      var row := interactions[interaction];
      interactions := interactions[interaction := row.(status := if withdrawn then Withdrawn else Answered)];
      if row.kind == Elicitation {
        var waits := HasPending(interactions, row.run);
        runs := MoveRun(runs, row.run, HasStatus(runs, row.run, Running) || HasStatus(runs, row.run, AwaitingInput),
                        if waits then AwaitingInput else Running);
      } else {
        ResumeAnswered(begun, row.run, interaction, withdrawn);
        runs := MoveRun(runs, row.run, HasStatus(runs, row.run, AwaitingInput), Queued);
      }
    }

    /** The event is recorded and the answer taken, or neither. */
    method RecordAnswer(interaction: InteractionId, withdrawn: bool, event: Id) returns (ok: bool)
      requires interaction in interactions && interactions[interaction].run in runs
      modifies `events, `outbox, `interactions, `jobs, `runs
      ensures var begun := old(Tables()); var run := begun.interactions[interaction].run;
        && ok == Record(begun, run, event).Some?
        && (!ok ==> Tables() == begun)
        && (ok ==> Tables() == AnsweredTables(begun, interaction, withdrawn, Record(begun, run, event).value))
    {
      hide HasPending, RequeueAnswered, MoveRun, HasStatus, Record;
      var begun := Tables();
      RecordIgnores(begun, begun, interactions[interaction].run, event);
      ok := RecordEvent(interactions[interaction].run, event);
      if ok {
        TakeAnswer(begun, interaction, withdrawn);
      }
    }

    method AnswerInteraction(tenant: Id, interaction: InteractionId, withdrawn: bool, event: Id) returns (outcome: Outcome)
      modifies this
      ensures (Tables(), outcome) == ApplyAnswerInteraction(old(Tables()), Step.AnswerInteraction(tenant, interaction, withdrawn, event))
    {
      hide HasJob, HasPending, RequeueAnswered, MoveRun, HasStatus, Record;
      if !CanAnswer(Tables(), tenant, interaction) {
        return Conflict;
      }
      var row := interactions[interaction];
      if row.kind == Questionnaire && !HasJob(Tables(), row.run) {
        return DatabaseError;
      }
      var ok := RecordAnswer(interaction, withdrawn, event);
      return if ok then Ok else DatabaseError;
    }

    method StartRun(run: Id) returns (outcome: Outcome)
      modifies this
      ensures (Tables(), outcome) == ApplyStartRun(old(Tables()), Step.StartRun(run))
    {
      if run !in runs || !IsStartable(runs[run].status) {
        return Conflict;
      }
      runs := runs[run := runs[run].(status := Running, version := runs[run].version + 1)];
      return Ok;
    }

    method OpenApproval(run: Id, approval: ApprovalId, row: Approval)
      modifies `approvals
      ensures approvals == if ApprovalKeyTaken(old(Tables()), approval, run, row.call) then old(approvals)
                           else old(approvals)[approval := row]
    {
      hide ApprovalKeyTaken;
      if !ApprovalKeyTaken(Tables(), approval, run, row.call) {
        approvals := approvals[approval := row];
      }
    }

    method OpenInteraction(run: Id, interaction: InteractionId, row: Interaction)
      modifies `interactions
      ensures interactions == if InteractionKeyTaken(old(Tables()), interaction, run, row.call) then old(interactions)
                              else old(interactions)[interaction := row]
    {
      hide InteractionKeyTaken;
      if !InteractionKeyTaken(Tables(), interaction, run, row.call) {
        interactions := interactions[interaction := row];
      }
    }

    /** What an event means for its run: the rows it opens and the status it moves the run to. */
    method Project(run: Id, content: RunEvent)
      requires run in runs
      modifies `runs, `approvals, `interactions
      ensures runs == ProjectRuns(old(Tables()), run, content)
      ensures approvals == ProjectApprovals(old(Tables()), run, content)
      ensures interactions == ProjectInteractions(old(Tables()), run, content)
    {
      hide ApprovalKeyTaken, InteractionKeyTaken;
      match content {
        case RunCompleted =>
        runs := MoveRun(runs, run, runs[run].status == Running, Completed);
        case RunFailed =>
        runs := MoveRun(runs, run, runs[run].status == Queued || runs[run].status == Running, Failed);
        case ApprovalRequested(approval, call, tool, arguments, hash) =>
        OpenApproval(run, approval, Approval(run, call, tool, arguments, hash, now + APPROVAL_TTL, None, None));
        runs := MoveRun(runs, run, runs[run].status == Running, AwaitingApproval);
        case InputRequested(interaction, call, kind) =>
        OpenInteraction(run, interaction, Interaction(run, call, kind, now + INTERACTION_TTL, Pending));
        runs := MoveRun(runs, run, runs[run].status == Running, if IsPending(interactions, interaction) then AwaitingInput else Running);
        case SessionSnapshot(entries) =>
        runs := runs[run := runs[run].(snapshot := Some(entries), version := runs[run].version + 1)];
        case Progress(_) =>
      }
    }

    method AppendRunEvent(tenant: Id, run: Id, event: Id, content: RunEvent) returns (outcome: Outcome)
      modifies this
      ensures (Tables(), outcome) == ApplyAppendRunEvent(old(Tables()), Step.AppendRunEvent(tenant, run, event, content))
    {
      hide ProjectRuns, ProjectApprovals, ProjectInteractions;
      var begun := Tables();
      var ok := RecordEvent(run, event);
      if !ok {
        return DatabaseError;
      }
      if content.SessionSnapshot? && runs[run].tenant != tenant {
        Rollback(begun);
        return DatabaseError;
      }
      EventsDoNotProject(begun, Tables(), run, content);
      Project(run, content);
      return Ok;
    }

    method HeartbeatJob(job: Id, owner: Worker, lease: nat) returns (outcome: Outcome)
      modifies this
      ensures (Tables(), outcome) == ApplyHeartbeatJob(old(Tables()), Step.HeartbeatJob(job, owner, lease))
    {
      if job !in jobs || jobs[job].status != Leased || jobs[job].owner != Some(owner) {
        return Conflict;
      }
      jobs := jobs[job := jobs[job].(leaseUntil := Some(now + lease))];
      return Ok;
    }

    method CompleteJob(job: Id, owner: Worker) returns (outcome: Outcome)
      modifies this
      ensures (Tables(), outcome) == ApplyCompleteJob(old(Tables()), Step.CompleteJob(job, owner))
    {
      if job !in jobs || jobs[job].status != Leased || jobs[job].owner != Some(owner) {
        return Conflict;
      }
      jobs := jobs[job := jobs[job].(status := Finished, owner := None, leaseUntil := None)];
      return Ok;
    }

    method FailJob(job: Id, owner: Worker, retryAfter: nat) returns (outcome: Outcome)
      modifies this
      ensures (Tables(), outcome) == ApplyFailJob(old(Tables()), Step.FailJob(job, owner, retryAfter))
    {
      if job !in jobs || jobs[job].status != Leased || jobs[job].owner != Some(owner) {
        return Conflict;
      }
      var row := jobs[job];
      jobs := jobs[job := row.(status := if row.attempts >= row.maxAttempts then Dead else Ready,
                               availableAt := now + retryAfter, owner := None, leaseUntil := None)];
      return Ok;
    }

    /** Each run that waits for an approval nobody decided in time has failed. */
    method FailLapsedRuns()
      modifies `runs
      ensures runs == FailLapsed(old(Tables()))
    {
      hide HasLapsed;
      var begun := Tables();
      var left := set r | r in runs && runs[r].status == AwaitingApproval && HasLapsed(begun, r);
      while left != {}
        invariant left <= runs.Keys == old(runs).Keys
        invariant forall r :: r in left ==> runs[r] == old(runs)[r] && runs[r].status == AwaitingApproval && HasLapsed(begun, r)
        invariant forall r :: r in runs && r !in left ==> runs[r] == FailLapsed(begun)[r]
        decreases |left|
      {
        var r :| r in left;
        runs := runs[r := runs[r].(status := Failed, version := runs[r].version + 1)];
        left := left - {r};
      }
    }

    /** Each approval nobody decided in time is denied. */
    method DenyLapsedApprovals(begun: Db)
      requires begun.approvals == approvals && begun.now == now
      modifies `approvals
      ensures approvals == DenyLapsed(begun)
    {
      var left := set a | a in approvals && Lapsed(approvals[a], now);
      while left != {}
        invariant left <= approvals.Keys == old(approvals).Keys
        invariant forall a :: a in left ==> approvals[a] == old(approvals)[a] && Lapsed(approvals[a], now)
        invariant forall a :: a in approvals && a !in left ==> approvals[a] == DenyLapsed(begun)[a]
        decreases |left|
      {
        var a :| a in left;
        approvals := approvals[a := approvals[a].(decision := Some(Deny), decidedAt := Some(now))];
        left := left - {a};
      }
    }

    method ExpireApprovals()
      modifies this
      ensures Tables() == After(old(Tables()), Step.ExpireApprovals)
    {
      var begun := Tables();
      FailLapsedRuns();
      DenyLapsedApprovals(begun);
    }

    /** The first row of a non-empty result in queue order. */
    method Oldest(candidates: set<Id>) returns (oldest: Id)
      requires candidates != {} && candidates <= jobs.Keys
      ensures oldest in candidates
      ensures forall j :: j in candidates ==> !Precedes(jobs[j], jobs[oldest])
    {
      var left := candidates;
      oldest :| oldest in left;
      left := left - {oldest};
      while left != {}
        invariant left <= candidates && oldest in candidates
        invariant forall j :: j in candidates && j !in left ==> !Precedes(jobs[j], jobs[oldest])
        decreases |left|
      {
        var j :| j in left;
        if Precedes(jobs[j], jobs[oldest]) {
          oldest := j;
        }
        left := left - {j};
      }
    }

    /** `SELECT ... ORDER BY ... LIMIT ... FOR UPDATE SKIP LOCKED`: the oldest eligible rows no other transaction has locked. */
    method SelectJobs(limit: nat, locked: set<Id>) returns (rows: seq<Id>)
      ensures forall i, k :: 0 <= i < k < |rows| ==> rows[i] != rows[k]
      ensures forall i :: 0 <= i < |rows| ==> rows[i] in jobs && rows[i] !in locked && Eligible(jobs[rows[i]], now)
      ensures |rows| <= limit
      ensures forall i, k :: 0 <= i < k < |rows| ==> !Precedes(jobs[rows[k]], jobs[rows[i]])
      ensures forall j :: j in jobs && j !in locked && Eligible(jobs[j], now) && j !in rows ==>
                |rows| == limit && forall i :: 0 <= i < |rows| ==> !Precedes(jobs[j], jobs[rows[i]])
    {
      var left := set j | j in jobs && j !in locked && Eligible(jobs[j], now);
      rows := [];
      while |rows| < limit && left != {}
        invariant forall j :: j in left ==> j in jobs && j !in locked && Eligible(jobs[j], now) && j !in rows
        invariant forall j :: j in jobs && j !in locked && Eligible(jobs[j], now) ==> j in left || j in rows
        invariant forall i, k :: 0 <= i < k < |rows| ==> rows[i] != rows[k]
        invariant forall i :: 0 <= i < |rows| ==> rows[i] in jobs && rows[i] !in locked && Eligible(jobs[rows[i]], now)
        invariant |rows| <= limit
        invariant forall i, k :: 0 <= i < k < |rows| ==> !Precedes(jobs[rows[k]], jobs[rows[i]])
        invariant forall i, j :: 0 <= i < |rows| && j in left ==> !Precedes(jobs[j], jobs[rows[i]])
        decreases |left|
      {
        var j := Oldest(left);
        rows := rows + [j];
        left := left - {j};
      }
    }

    /** The loop over the selected rows: one UPDATE each. */
    method ClaimJobs(rows: seq<Id>, owner: Worker, lease: nat) returns (leased: seq<LeasedJob>)
      requires forall i, k :: 0 <= i < k < |rows| ==> rows[i] != rows[k]
      requires forall i :: 0 <= i < |rows| ==> rows[i] in jobs
      modifies `jobs
      ensures |leased| == |rows|
      ensures forall i :: 0 <= i < |rows| ==>
                var row := old(jobs)[rows[i]];
                leased[i] == LeasedJob(rows[i], row.run, row.payload, row.attempts + 1)
      ensures jobs == map j | j in old(jobs) :: if j in rows then LeaseTo(old(jobs)[j], owner, now + lease) else old(jobs)[j]
    {
      leased := [];
      for i := 0 to |rows|
        invariant |leased| == i
        invariant forall k :: 0 <= k < i ==>
          var row := old(jobs)[rows[k]];
          leased[k] == LeasedJob(rows[k], row.run, row.payload, row.attempts + 1)
        invariant jobs == map j | j in old(jobs) :: if j in rows[..i] then LeaseTo(old(jobs)[j], owner, now + lease) else old(jobs)[j]
      {
        var row := jobs[rows[i]];
        leased := leased + [LeasedJob(rows[i], row.run, row.payload, row.attempts + 1)];
        jobs := jobs[rows[i] := LeaseTo(row, owner, now + lease)];
      }
      assert rows[..|rows|] == rows;
    }

    /** Each job whose last lease ran out is dead. */
    method BuryJobs()
      modifies `jobs
      ensures jobs == BuryExhausted(old(jobs), now)
    {
      var left := set j | j in jobs && Exhausted(jobs[j], now);
      while left != {}
        invariant left <= jobs.Keys == old(jobs).Keys
        invariant forall j :: j in left ==> jobs[j] == old(jobs)[j] && Exhausted(jobs[j], now)
        invariant forall j :: j in jobs && j !in left ==> jobs[j] == BuryExhausted(old(jobs), now)[j]
        decreases |left|
      {
        var j :| j in left;
        jobs := jobs[j := KillJob(jobs[j])];
        left := left - {j};
      }
    }

    /** Each running run whose job is dead has failed. */
    method FailLostRuns()
      modifies `runs
      ensures runs == FailLost(old(runs), jobs)
    {
      hide ExecutorLost;
      var begun := runs;
      var left := set r | r in runs && ExecutorLost(begun, jobs, r);
      while left != {}
        invariant left <= runs.Keys == begun.Keys
        invariant forall r :: r in left ==> runs[r] == begun[r] && ExecutorLost(begun, jobs, r)
        invariant forall r :: r in runs && r !in left ==> runs[r] == FailLost(begun, jobs)[r]
        decreases |left|
      {
        var r :| r in left;
        runs := runs[r := runs[r].(status := Failed, version := runs[r].version + 1)];
        left := left - {r};
      }
    }

    /** Buries what has run out, then takes the selected rows. */
    method TakeJobs(owner: Worker, limit: nat, lease: nat, locked: set<Id>) returns (leased: seq<LeasedJob>)
      modifies this
      ensures |leased| <= limit
      ensures Tables() == ApplyLeaseJobs(old(Tables()), Step.LeaseJobs(owner, JobIds(leased), lease)).0
      ensures forall i, k :: 0 <= i < k < |leased| ==> leased[i].id != leased[k].id
      ensures forall i :: 0 <= i < |leased| ==>
                var id := leased[i].id;
                && id in old(jobs) && id !in locked && Eligible(old(jobs)[id], now)
                && leased[i] == LeasedJob(id, old(jobs)[id].run, old(jobs)[id].payload, old(jobs)[id].attempts + 1)
      ensures forall j :: j in old(jobs) && j !in locked && Eligible(old(jobs)[j], now) && j !in JobIds(leased) ==>
                |leased| == limit && forall i :: 0 <= i < |leased| ==> !Precedes(old(jobs)[j], old(jobs)[leased[i].id])
    {
      hide FailLost, BuryExhausted, Eligible, Precedes;
      BuryingSparesTheEligible(jobs, now);
      BuryJobs();
      FailLostRuns();
      var rows := SelectJobs(limit, locked);
      ghost var buried := jobs;
      leased := ClaimJobs(rows, owner, lease);
      ghost var picked := JobIds(leased);
      assert forall j :: j in rows ==> j in picked by {
        forall j | j in rows ensures j in picked {
          var i :| 0 <= i < |rows| && rows[i] == j;
          assert leased[i].id == j;
        }
      }
      assert jobs == LeaseAll(buried, picked, owner, now, lease);
    }

    /** Gives out unlocked jobs that have attempts left, are due, and are ready or were leased until some time before: the
        oldest of them, and all of them unless that is more than asked for. */
    method LeaseJobs(owner: Worker, limit: nat, lease: nat, locked: set<Id>) returns (leased: seq<LeasedJob>)
      modifies this
      ensures |leased| <= limit
      ensures Tables() == ApplyLeaseJobs(old(Tables()), Step.LeaseJobs(owner, JobIds(leased), lease)).0
      ensures forall i, k :: 0 <= i < k < |leased| ==> leased[i].id != leased[k].id
      ensures forall i :: 0 <= i < |leased| ==>
                var id := leased[i].id;
                && id in old(jobs) && id !in locked
                && leased[i] == LeasedJob(id, old(jobs)[id].run, old(jobs)[id].payload, old(jobs)[id].attempts + 1)
      ensures forall i :: 0 <= i < |leased| ==>
                var job := old(jobs)[leased[i].id];
                && job.attempts < job.maxAttempts && job.availableAt <= now
                && (job.status == Ready || (job.status == Leased && job.leaseUntil.Some? && job.leaseUntil.value < now))
      ensures forall j :: j in old(jobs) && j !in locked && j !in JobIds(leased) ==>
                var job := old(jobs)[j];
                job.attempts < job.maxAttempts && job.availableAt <= now
                && (job.status == Ready || (job.status == Leased && job.leaseUntil.Some? && job.leaseUntil.value < now)) ==>
                  |leased| == limit &&
                  forall i :: 0 <= i < |leased| ==>
                    var first := old(jobs)[leased[i].id];
                    first.availableAt < job.availableAt || (first.availableAt == job.availableAt && first.createdAt <= job.createdAt)
    {
      hide ApplyLeaseJobs, JobIds;
      leased := TakeJobs(owner, limit, lease, locked);
    }

    /** The row inserted first. */
    method OldestRow(candidates: set<Id>) returns (oldest: Id)
      requires candidates != {} && candidates <= outbox.Keys
      ensures oldest in candidates
      ensures forall e :: e in candidates ==> outbox[oldest].number <= outbox[e].number
    {
      var left := candidates;
      oldest :| oldest in left;
      left := left - {oldest};
      while left != {}
        invariant left <= candidates && oldest in candidates
        invariant forall e :: e in candidates && e !in left ==> outbox[oldest].number <= outbox[e].number
        decreases |left|
      {
        var e :| e in left;
        if outbox[e].number < outbox[oldest].number {
          oldest := e;
        }
        left := left - {e};
      }
    }

    /** The sendable rows no other transaction has locked, in the order of insertion. */
    method SelectOutbox(limit: nat, locked: set<Id>) returns (rows: seq<LeasedEvent>)
      ensures |rows| <= limit
      ensures forall i, k :: 0 <= i < k < |rows| ==> rows[i].id != rows[k].id
      ensures forall i :: 0 <= i < |rows| ==> IsCandidate(outbox, locked, now, rows[i])
      ensures InOrder(outbox, rows)
      ensures forall e :: e in outbox && e !in locked && Sendable(outbox[e], now) && e !in Ids(rows) ==>
                |rows| == limit && ComesAfter(outbox, rows, e)
    {
      hide Ids, Sendable;
      var left: set<Id> := set e | e in outbox && e !in locked && Sendable(outbox[e], now);
      rows := [];
      NoIds();
      while |rows| < limit && left != {}
        invariant |rows| <= limit
        invariant forall e :: e in left ==> e in outbox && e !in locked && Sendable(outbox[e], now) && e !in Ids(rows)
        invariant forall e :: e in outbox && e !in locked && Sendable(outbox[e], now) ==> e in left || e in Ids(rows)
        invariant forall i, k :: 0 <= i < k < |rows| ==> rows[i].id != rows[k].id
        invariant forall i :: 0 <= i < |rows| ==> IsCandidate(outbox, locked, now, rows[i])
        invariant InOrder(outbox, rows)
        invariant forall e :: e in left ==> ComesAfter(outbox, rows, e)
        decreases |left|
      {
        var e := OldestRow(left);
        ghost var before := rows;
        NotAmongIds(rows, e);
        var row := LeasedEvent(e, outbox[e].attempts);
        InOrderWithNext(outbox, rows, row);
        forall d | d in left ensures ComesAfter(outbox, rows + [row], d) { AfterTheNext(outbox, rows, row, d); }
        rows := rows + [row];
        left := left - {e};
        OneMoreId(before, row);
      }
    }

    method LeaseOutbox(owner: Worker, limit: nat, lease: nat, locked: set<Id>) returns (leased: seq<LeasedEvent>)
      modifies `outbox
      ensures |leased| <= limit
      ensures forall i, k :: 0 <= i < k < |leased| ==> leased[i].id != leased[k].id
      ensures forall i :: 0 <= i < |leased| ==> IsCandidate(old(outbox), locked, now, leased[i])
      ensures InOrder(old(outbox), leased)
      ensures forall e :: e in old(outbox) && e !in locked && Sendable(old(outbox)[e], now) && e !in Ids(leased) ==>
                |leased| == limit && ComesAfter(old(outbox), leased, e)
      ensures Tables() == ApplyLeaseOutbox(old(Tables()), Step.LeaseOutbox(owner, Ids(leased), lease)).0
    {
      hide InOrder, ComesAfter;
      leased := SelectOutbox(limit, locked);
      for i := 0 to |leased|
        invariant outbox == map e | e in old(outbox) ::
          if e in Ids(leased[..i]) then LeaseRow(old(outbox)[e], owner, now + lease) else old(outbox)[e]
      {
        var e := leased[i].id;
        assert e !in Ids(leased[..i]);
        outbox := outbox[e := LeaseRow(outbox[e], owner, now + lease)];
        assert Ids(leased[..i + 1]) == Ids(leased[..i]) + {e};
      }
      assert leased[..|leased|] == leased;
    }

    method MarkOutboxPublished(event: Id, owner: Worker) returns (outcome: Outcome)
      modifies `outbox
      ensures (Tables(), outcome) == ApplyMarkOutboxPublished(old(Tables()), Step.MarkOutboxPublished(event, owner))
    {
      if event !in outbox || outbox[event].owner != Some(owner) || outbox[event].publishedAt != None {
        return Conflict;
      }
      outbox := outbox[event := outbox[event].(publishedAt := Some(now), owner := None, leaseUntil := None)];
      return Ok;
    }

    method FailOutbox(event: Id, owner: Worker, retryAfter: nat) returns (outcome: Outcome)
      modifies `outbox
      ensures (Tables(), outcome) == ApplyFailOutbox(old(Tables()), Step.FailOutbox(event, owner, retryAfter))
    {
      if event !in outbox || outbox[event].owner != Some(owner) || outbox[event].publishedAt != None {
        return Conflict;
      }
      outbox := outbox[event := outbox[event].(nextAttemptAt := now + retryAfter, owner := None, leaseUntil := None)];
      return Ok;
    }

    /** Reports the outcome of one delivery of a row this owner has leased. */
    method ReportDelivery(event: LeasedEvent, owner: Worker, delivered: bool)
      requires OwnsRow(Tables(), event.id, owner)
      modifies `outbox
      ensures var row := old(outbox)[event.id];
        outbox == old(outbox)[event.id :=
          if delivered then row.(publishedAt := Some(now), owner := None, leaseUntil := None)
          else row.(nextAttemptAt := now + RetryDelay(event.attempts + 1), owner := None, leaseUntil := None)]
    {
      if delivered {
        var _ := MarkOutboxPublished(event.id, owner);
      } else {
        var _ := FailOutbox(event.id, owner, RetryDelay(event.attempts + 1));
      }
    }

    /** One round of the publisher, undisturbed by others. It tries the oldest events that are unpublished, due, tried fewer than
        twenty times, and leased by nobody now. `accepted` are the events the webhook answers with success: exactly those that
        were tried here are published, every other one goes back to the queue for later. */
    method PublishOutboxOnce(owner: Worker, batch: nat, lease: nat, locked: set<Id>, accepted: set<Id>) returns (tried: seq<LeasedEvent>)
      modifies `outbox
      ensures |tried| <= batch && forall i, k :: 0 <= i < k < |tried| ==> tried[i].id != tried[k].id
      ensures forall i :: 0 <= i < |tried| ==>
                && tried[i].id in old(outbox) && tried[i].id !in locked
                && (var row := old(outbox)[tried[i].id];
                    && row.publishedAt == None && row.attempts < 20 && row.nextAttemptAt <= now
                    && (row.leaseUntil.None? || row.leaseUntil.value < now))
      ensures forall e :: e in old(outbox) && e !in locked && e !in Ids(tried) ==>
                var row := old(outbox)[e];
                row.publishedAt == None && row.attempts < 20 && row.nextAttemptAt <= now
                && (row.leaseUntil.None? || row.leaseUntil.value < now) ==>
                  |tried| == batch && forall i :: 0 <= i < |tried| ==> old(outbox)[tried[i].id].number <= row.number
      ensures outbox.Keys == old(outbox).Keys
      ensures forall e :: e in outbox && e !in Ids(tried) ==> outbox[e] == old(outbox)[e]
      ensures forall e :: e in Ids(tried) ==>
                var row := old(outbox)[e];
                e in outbox && outbox[e] ==
                  if e in accepted
                  then row.(attempts := row.attempts + 1, publishedAt := Some(now), owner := None, leaseUntil := None)
                  else row.(attempts := row.attempts + 1, nextAttemptAt := now + RetryDelay(row.attempts + 1), owner := None,
                            leaseUntil := None)
    {
      hide RetryDelay, Settle, Ids;
      tried := TryOutbox(owner, batch, lease, locked, accepted);
      SendableRows(old(outbox), now);
      SettledRows(old(outbox), accepted, now);
      forall e | e in Ids(tried) ensures e in old(outbox) {
        var i := IdAt(tried, e);
      }
    }

    /** Leases a batch and reports on each delivery. */
    method TryOutbox(owner: Worker, batch: nat, lease: nat, locked: set<Id>, accepted: set<Id>) returns (tried: seq<LeasedEvent>)
      modifies `outbox
      ensures |tried| <= batch && forall i, k :: 0 <= i < k < |tried| ==> tried[i].id != tried[k].id
      ensures forall i :: 0 <= i < |tried| ==> IsCandidate(old(outbox), locked, now, tried[i])
      ensures forall e :: e in Ids(tried) ==> e in old(outbox) && Sendable(old(outbox)[e], now)
      ensures forall e :: e in old(outbox) && e !in locked && Sendable(old(outbox)[e], now) && e !in Ids(tried) ==>
                |tried| == batch && ComesAfter(old(outbox), tried, e)
      ensures outbox.Keys == old(outbox).Keys
      ensures forall e :: e in outbox ==>
                outbox[e] == if e in Ids(tried) then Settle(old(outbox)[e], e in accepted, now) else old(outbox)[e]
    {
      hide RetryDelay, Settle, Reported, InOrder, ComesAfter;
      tried := LeaseOutbox(owner, batch, lease, locked);
      SettleEach(tried, owner, accepted);
      forall e | e in outbox
        ensures outbox[e] == if e in Ids(tried) then Settle(old(outbox)[e], e in accepted, now) else old(outbox)[e]
      {
        if e in Ids(tried) {
          var i :| 0 <= i < |tried| && tried[i].id == e;
          SettledRow(old(outbox)[e], owner, now + lease, e in accepted, now);
        }
      }
    }

    /** Reports the delivery of each leased row. */
    method SettleEach(tried: seq<LeasedEvent>, owner: Worker, accepted: set<Id>)
      requires forall i, k :: 0 <= i < k < |tried| ==> tried[i].id != tried[k].id
      requires forall i :: 0 <= i < |tried| ==>
                 OwnsRow(Tables(), tried[i].id, owner) && outbox[tried[i].id].attempts == tried[i].attempts + 1
      modifies `outbox
      ensures outbox.Keys == old(outbox).Keys
      ensures forall k :: 0 <= k < |tried| ==> tried[k].id in old(outbox)
      ensures forall k :: 0 <= k < |tried| ==>
                outbox[tried[k].id] == Reported(old(outbox)[tried[k].id], tried[k].id in accepted, now)
      ensures forall e :: e in outbox && e !in Ids(tried) ==> outbox[e] == old(outbox)[e]
    {
      hide RetryDelay;
      for i := 0 to |tried|
        invariant outbox.Keys == old(outbox).Keys
        invariant forall k :: i <= k < |tried| ==> outbox[tried[k].id] == old(outbox)[tried[k].id]
        invariant forall k :: 0 <= k < i ==>
          outbox[tried[k].id] == Reported(old(outbox)[tried[k].id], tried[k].id in accepted, now)
        invariant forall e :: e in outbox && e !in Ids(tried) ==> outbox[e] == old(outbox)[e]
      {
        ReportDelivery(tried[i], owner, tried[i].id in accepted);
      }
    }
  }

  lemma SettledRow(row: OutboxRow, owner: Worker, until: Time, delivered: bool, now: Time)
    ensures Reported(LeaseRow(row, owner, until), delivered, now) == Settle(row, delivered, now)
  {
    hide RetryDelay;
  }
}
