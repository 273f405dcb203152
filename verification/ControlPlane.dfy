/**
 The persistent control plane: its tables as one value, and every transaction as
 one atomic step over them. A transaction that fails is rolled back, so a step
 returns the tables unchanged together with the reason.

 Identifiers are opaque numbers. A key that is already taken makes the insert,
 and with it the transaction, fail, so no freshness is assumed. SHA-256 is
 idealised as injective: a digest is the pair it was computed from, and a stable
 identifier is the triple it was derived from.
 */
module ControlPlane {
  import opened Wrappers

  type Id = nat
  type Worker = nat
  type Time = int
  type Text = nat

  const NO_KEY: Text := 0
  const MAX_ATTEMPTS: nat := 5
  const MAX_OUTBOX_ATTEMPTS: nat := 20
  const APPROVAL_TTL: nat := 15 * 60 * 1_000_000
  const INTERACTION_TTL: nat := 24 * 60 * 60 * 1_000_000

  datatype Digest = Digest(tool: Text, arguments: Text)
  datatype ApprovalId = ApprovalId(run: Id, call: Text, hash: Digest)
  datatype InteractionId = InteractionId(run: Id, call: Text, request: Text)

  datatype RunStatus = Queued | Running | AwaitingApproval | AwaitingInput | Completed | Failed | Cancelled
  datatype Run = Run(tenant: Id, session: Id, status: RunStatus, version: nat, snapshot: Option<Text>)

  /** What a worker receives with the job; `session` is the tree it resumes from. */
  datatype Payload = Payload(approved: seq<Digest>, denied: seq<Digest>, resume: bool,
                             resumePrompt: Option<(InteractionId, bool)>, session: Option<Text>)

  datatype JobStatus = Ready | Leased | Finished | Dead
  datatype Job = Job(run: Id, payload: Payload, status: JobStatus, attempts: nat, maxAttempts: nat,
                     availableAt: Time, createdAt: Time, owner: Option<Worker>, leaseUntil: Option<Time>)

  datatype Decision = Allow | Deny
  datatype Approval = Approval(run: Id, call: Text, tool: Text, arguments: Text, hash: Digest,
                               expiresAt: Time, decision: Option<Decision>, decidedAt: Option<Time>)

  datatype InteractionKind = Questionnaire | Elicitation
  datatype InteractionStatus = Pending | Answered | Withdrawn
  datatype Interaction = Interaction(run: Id, call: Text, kind: InteractionKind, expiresAt: Time,
                                     status: InteractionStatus)

  /** `number` is the place of the row in the order of insertion. */
  datatype OutboxRow = OutboxRow(run: Id, number: nat, attempts: nat, nextAttemptAt: Time, owner: Option<Worker>,
                                 leaseUntil: Option<Time>, publishedAt: Option<Time>)

  datatype Db = Db(
    now: Time,
    sessions: map<Id, Id>,
    runs: map<Id, Run>,
    jobs: map<Id, Job>,
    approvals: map<ApprovalId, Approval>,
    interactions: map<InteractionId, Interaction>,
    events: map<Id, Id>,
    outbox: map<Id, OutboxRow>,
    keys: map<(Id, Text), Id>)

  const EMPTY: Db := Db(0, map[], map[], map[], map[], map[], map[], map[], map[])

  datatype Outcome = Ok | Conflict | NotFound | DatabaseError | Replay(run: Id)

  datatype RunEvent =
    | RunCompleted
    | RunFailed
    | ApprovalRequested(approval: ApprovalId, call: Text, tool: Text, arguments: Text, hash: Digest)
    | InputRequested(interaction: InteractionId, call: Text, kind: InteractionKind)
    | SessionSnapshot(entries: Text)
    | Progress(name: Text)

  datatype Step =
    | Tick(elapsed: nat)
    | CreateRun(tenant: Id, key: Text, session: Id, parent: Option<Id>, run: Id, job: Id, event: Id, restored: Option<Text>)
    | CancelRun(tenant: Id, run: Id, event: Id)
    | DecideApproval(tenant: Id, approval: ApprovalId, decision: Decision, event: Id)
    | AnswerInteraction(tenant: Id, interaction: InteractionId, withdrawn: bool, event: Id)
    | StartRun(run: Id)
    | AppendRunEvent(tenant: Id, run: Id, event: Id, content: RunEvent)
    | LeaseJobs(owner: Worker, picked: set<Id>, lease: nat)
    | HeartbeatJob(job: Id, owner: Worker, lease: nat)
    | CompleteJob(job: Id, owner: Worker)
    | FailJob(job: Id, owner: Worker, retryAfter: nat)
    | ExpireApprovals
    | LeaseOutbox(owner: Worker, picked: set<Id>, lease: nat)
    | MarkOutboxPublished(event: Id, owner: Worker)
    | FailOutbox(event: Id, owner: Worker, retryAfter: nat)

  // ---------------------------------------------------------------- runs

  predicate IsActive(status: RunStatus) {
    status == Queued || status == Running || status == AwaitingApproval || status == AwaitingInput
  }

  predicate IsStartable(status: RunStatus) {
    status == Queued || status == Failed || status == Running || status == AwaitingInput
  }

  predicate HasStatus(runs: map<Id, Run>, run: Id, status: RunStatus) {
    run in runs && runs[run].status == status
  }

  /** The guarded update `SET status=..., version=version+1 WHERE id=... AND <guard>`. */
  function MoveRun(runs: map<Id, Run>, run: Id, guard: bool, to: RunStatus): map<Id, Run> {
    if run in runs && guard
    then runs[run := runs[run].(status := to, version := runs[run].version + 1)]
    else runs
  }

  predicate HasActiveRun(db: Db, tenant: Id, session: Id) {
    exists r :: r in db.runs && db.runs[r].tenant == tenant && db.runs[r].session == session && IsActive(db.runs[r].status)
  }

  predicate HasJob(db: Db, run: Id) {
    exists j :: j in db.jobs && db.jobs[j].run == run
  }

  /** Rows are never deleted, so a new one comes after as many as there are. */
  function NewRow(db: Db, run: Id): OutboxRow {
    OutboxRow(run, |db.outbox|, 0, db.now, None, None, None)
  }

  /** One event row and its outbox row, under the same identifier. */
  function Record(db: Db, run: Id, event: Id): (r: Option<Db>) {
    if run !in db.runs || event in db.events || event in db.outbox then None
    else Some(db.(events := db.events[event := run],
                  outbox := db.outbox[event := NewRow(db, run)]))
  }

  function ApplyCreateRun(db: Db, s: Step): (Db, Outcome)
    requires s.CreateRun?
  {
    if s.key != NO_KEY && (s.tenant, s.key) in db.keys then (db, Replay(db.keys[(s.tenant, s.key)]))
    else if s.session in db.sessions && db.sessions[s.session] != s.tenant then (db, Conflict)
    else if HasActiveRun(db, s.tenant, s.session) then (db, Conflict)
    else if s.parent.Some? && (s.parent.value !in db.runs || db.runs[s.parent.value].tenant != s.tenant) then (db, NotFound)
    else if s.run in db.runs || s.job in db.jobs || s.event in db.outbox || HasJob(db, s.run) then (db, DatabaseError)
    else
      (db.(sessions := if s.session in db.sessions then db.sessions else db.sessions[s.session := s.tenant],
           runs := db.runs[s.run := Run(s.tenant, s.session, Queued, 1, None)],
           jobs := db.jobs[s.job := Job(s.run, Payload([], [], false, None, s.restored), Ready, 0, MAX_ATTEMPTS,
                                        db.now, db.now, None, None)],
           outbox := db.outbox[s.event := NewRow(db, s.run)],
           keys := if s.key == NO_KEY then db.keys else db.keys[(s.tenant, s.key) := s.run]),
       Ok)
  }

  predicate IsOpen(job: Job) {
    job.status == Ready || job.status == Leased
  }

  function KillJob(job: Job): Job {
    job.(status := Dead, owner := None, leaseUntil := None)
  }

  function KillJobsOf(jobs: map<Id, Job>, run: Id): map<Id, Job> {
    map j | j in jobs ::
      if jobs[j].run == run && IsOpen(jobs[j]) then KillJob(jobs[j]) else jobs[j]
  }

  function ApplyCancelRun(db: Db, s: Step): (Db, Outcome)
    requires s.CancelRun?
  {
    if s.run !in db.runs || db.runs[s.run].tenant != s.tenant then (db, NotFound)
    else if !IsActive(db.runs[s.run].status) then (db, Conflict)
    else
      match Record(db, s.run, s.event)
      case None => (db, DatabaseError)
      case Some(recorded) =>
        (recorded.(runs := MoveRun(db.runs, s.run, IsActive(db.runs[s.run].status), Cancelled),
                   jobs := KillJobsOf(db.jobs, s.run)),
         Ok)
  }

  // ---------------------------------------------------------------- resuming a job

  /** Makes a job leasable again at once, with a fresh budget of attempts. */
  function Requeue(job: Job, payload: Payload, now: Time): Job {
    job.(payload := payload, status := Ready, attempts := 0, availableAt := now, owner := None, leaseUntil := None)
  }

  function WithSnapshot(payload: Payload, snapshot: Option<Text>): Payload {
    if snapshot.Some? then payload.(session := snapshot) else payload
  }

  function DecidedPayload(payload: Payload, decision: Decision, hash: Digest, snapshot: Option<Text>): Payload {
    var listed := if decision == Allow then payload.(approved := payload.approved + [hash])
                  else payload.(denied := payload.denied + [hash]);
    WithSnapshot(listed.(resume := true), snapshot)
  }

  function RequeueDecided(db: Db, row: Approval, decision: Decision): map<Id, Job>
    requires row.run in db.runs
  {
    map j | j in db.jobs ::
      if db.jobs[j].run == row.run
      then Requeue(db.jobs[j], DecidedPayload(db.jobs[j].payload, decision, row.hash, db.runs[row.run].snapshot), db.now)
      else db.jobs[j]
  }

  predicate CanDecide(db: Db, tenant: Id, approval: ApprovalId) {
    && approval in db.approvals
    && db.approvals[approval].run in db.runs
    && db.runs[db.approvals[approval].run].tenant == tenant
    && db.approvals[approval].decision == None
    && db.approvals[approval].expiresAt > db.now
  }

  function ApplyDecideApproval(db: Db, s: Step): (Db, Outcome)
    requires s.DecideApproval?
  {
    if !CanDecide(db, s.tenant, s.approval) then (db, Conflict)
    else
      var row := db.approvals[s.approval];
      if !HasJob(db, row.run) then (db, DatabaseError)
      else
        match Record(db, row.run, s.event)
        case None => (db, DatabaseError)
        case Some(recorded) =>
          (recorded.(approvals := db.approvals[s.approval := row.(decision := Some(s.decision), decidedAt := Some(db.now))],
                     jobs := RequeueDecided(db, row, s.decision),
                     runs := MoveRun(db.runs, row.run, HasStatus(db.runs, row.run, AwaitingApproval), Queued)),
           Ok)
  }

  predicate CanAnswer(db: Db, tenant: Id, interaction: InteractionId) {
    && interaction in db.interactions
    && db.interactions[interaction].run in db.runs
    && db.runs[db.interactions[interaction].run].tenant == tenant
    && db.interactions[interaction].status == Pending
    && db.interactions[interaction].expiresAt > db.now
  }

  predicate HasPending(interactions: map<InteractionId, Interaction>, run: Id) {
    exists i :: i in interactions && interactions[i].run == run && interactions[i].status == Pending
  }

  function CloseInteraction(db: Db, s: Step): map<InteractionId, Interaction>
    requires s.AnswerInteraction? && s.interaction in db.interactions
  {
    db.interactions[s.interaction := db.interactions[s.interaction].(status := if s.withdrawn then Withdrawn else Answered)]
  }

  function RequeueAnswered(db: Db, run: Id, interaction: InteractionId, withdrawn: bool): map<Id, Job>
    requires run in db.runs
  {
    map j | j in db.jobs ::
      if db.jobs[j].run == run
      then Requeue(db.jobs[j],
                   WithSnapshot(db.jobs[j].payload.(resume := true, resumePrompt := Some((interaction, withdrawn))),
                                db.runs[run].snapshot),
                   db.now)
      else db.jobs[j]
  }

  /** A worker is still polling for the answer to an elicitation, so only a questionnaire requeues the job. */
  function ApplyAnswerInteraction(db: Db, s: Step): (Db, Outcome)
    requires s.AnswerInteraction?
  {
    if !CanAnswer(db, s.tenant, s.interaction) then (db, Conflict)
    else
      var row := db.interactions[s.interaction];
      var closed := CloseInteraction(db, s);
      if row.kind == Questionnaire && !HasJob(db, row.run) then (db, DatabaseError)
      else
        match Record(db, row.run, s.event)
        case None => (db, DatabaseError)
        case Some(recorded) =>
          (recorded.(interactions := closed,
                     jobs := if row.kind == Elicitation then db.jobs
                             else RequeueAnswered(db, row.run, s.interaction, s.withdrawn),
                     runs := if row.kind == Elicitation
                             then MoveRun(db.runs, row.run, HasStatus(db.runs, row.run, Running) || HasStatus(db.runs, row.run, AwaitingInput),
                                          if HasPending(closed, row.run) then AwaitingInput else Running)
                             else MoveRun(db.runs, row.run, HasStatus(db.runs, row.run, AwaitingInput), Queued)),
           Ok)
  }

  // ---------------------------------------------------------------- the worker's reports

  function ApplyStartRun(db: Db, s: Step): (Db, Outcome)
    requires s.StartRun?
  {
    if s.run in db.runs && IsStartable(db.runs[s.run].status)
    then (db.(runs := MoveRun(db.runs, s.run, true, Running)), Ok)
    else (db, Conflict)
  }

  /** `ON DUPLICATE KEY UPDATE id=id`: a row under the same id or the same (run, call) wins. */
  predicate ApprovalKeyTaken(db: Db, approval: ApprovalId, run: Id, call: Text) {
    approval in db.approvals || exists a :: a in db.approvals && db.approvals[a].run == run && db.approvals[a].call == call
  }

  predicate InteractionKeyTaken(db: Db, interaction: InteractionId, run: Id, call: Text) {
    interaction in db.interactions
    || exists i :: i in db.interactions && db.interactions[i].run == run && db.interactions[i].call == call
  }

  /** Opening an interaction that a row under the same id or the same (run, call) already holds changes nothing. */
  function ProjectInteractions(db: Db, run: Id, content: RunEvent): map<InteractionId, Interaction> {
    if content.InputRequested? && !InteractionKeyTaken(db, content.interaction, run, content.call)
    then db.interactions[content.interaction := Interaction(run, content.call, content.kind, db.now + INTERACTION_TTL, Pending)]
    else db.interactions
  }

  function ProjectApprovals(db: Db, run: Id, content: RunEvent): map<ApprovalId, Approval> {
    if content.ApprovalRequested? && !ApprovalKeyTaken(db, content.approval, run, content.call)
    then db.approvals[content.approval :=
           Approval(run, content.call, content.tool, content.arguments, content.hash, db.now + APPROVAL_TTL, None, None)]
    else db.approvals
  }

  predicate IsPending(interactions: map<InteractionId, Interaction>, interaction: InteractionId) {
    interaction in interactions && interactions[interaction].status == Pending
  }

  function ProjectRuns(db: Db, run: Id, content: RunEvent): map<Id, Run>
    requires run in db.runs
  {
    match content
    case RunCompleted => MoveRun(db.runs, run, HasStatus(db.runs, run, Running), Completed)
    case RunFailed => MoveRun(db.runs, run, HasStatus(db.runs, run, Queued) || HasStatus(db.runs, run, Running), Failed)
    case ApprovalRequested(_, _, _, _, _) => MoveRun(db.runs, run, HasStatus(db.runs, run, Running), AwaitingApproval)
    case InputRequested(interaction, _, _) =>
      var waits := IsPending(ProjectInteractions(db, run, content), interaction);
      MoveRun(db.runs, run, HasStatus(db.runs, run, Running), if waits then AwaitingInput else Running)
    case SessionSnapshot(entries) =>
      db.runs[run := db.runs[run].(snapshot := Some(entries), version := db.runs[run].version + 1)]
    case Progress(_) => db.runs
  }

  /** Not fenced: any worker may report any event on any run. Only a snapshot names the tenant. */
  function ApplyAppendRunEvent(db: Db, s: Step): (Db, Outcome)
    requires s.AppendRunEvent?
  {
    match Record(db, s.run, s.event)
    case None => (db, DatabaseError)
    case Some(recorded) =>
      if s.content.SessionSnapshot? && db.runs[s.run].tenant != s.tenant then (db, DatabaseError)
      else (recorded.(runs := ProjectRuns(db, s.run, s.content),
                      approvals := ProjectApprovals(db, s.run, s.content),
                      interactions := ProjectInteractions(db, s.run, s.content)), Ok)
  }

  // ---------------------------------------------------------------- leasing

  predicate Exhausted(job: Job, now: Time) {
    job.status == Leased && job.leaseUntil.Some? && job.leaseUntil.value < now && job.attempts >= job.maxAttempts
  }

  function BuryExhausted(jobs: map<Id, Job>, now: Time): map<Id, Job> {
    map j | j in jobs :: if Exhausted(jobs[j], now) then KillJob(jobs[j]) else jobs[j]
  }

  predicate ExecutorLost(runs: map<Id, Run>, jobs: map<Id, Job>, r: Id)
    requires r in runs
  {
    runs[r].status == Running && exists j :: j in jobs && jobs[j].run == r && jobs[j].status == Dead
  }

  function FailLost(runs: map<Id, Run>, jobs: map<Id, Job>): map<Id, Run> {
    map r | r in runs ::
      if ExecutorLost(runs, jobs, r) then runs[r].(status := Failed, version := runs[r].version + 1) else runs[r]
  }

  predicate Eligible(job: Job, now: Time) {
    && IsOpen(job)
    && job.attempts < job.maxAttempts
    && job.availableAt <= now
    && (job.status == Ready || (job.leaseUntil.Some? && job.leaseUntil.value < now))
  }

  function LeaseTo(job: Job, owner: Worker, until: Time): Job {
    job.(status := Leased, owner := Some(owner), leaseUntil := Some(until), attempts := job.attempts + 1)
  }

  function LeaseAll(jobs: map<Id, Job>, picked: set<Id>, owner: Worker, now: Time, lease: nat): map<Id, Job> {
    map j | j in jobs ::
      if j in picked && Eligible(jobs[j], now) then LeaseTo(jobs[j], owner, now + lease) else jobs[j]
  }

  function ApplyLeaseJobs(db: Db, s: Step): (Db, Outcome)
    requires s.LeaseJobs?
  {
    var buried := BuryExhausted(db.jobs, db.now);
    (db.(runs := FailLost(db.runs, buried), jobs := LeaseAll(buried, s.picked, s.owner, db.now, s.lease)), Ok)
  }

  /** The fence every worker-side update carries: `id=? AND lease_owner=? AND status='leased'`. */
  predicate Holds(db: Db, job: Id, owner: Worker) {
    job in db.jobs && db.jobs[job].status == Leased && db.jobs[job].owner == Some(owner)
  }

  function ApplyHeartbeatJob(db: Db, s: Step): (Db, Outcome)
    requires s.HeartbeatJob?
  {
    if Holds(db, s.job, s.owner)
    then (db.(jobs := db.jobs[s.job := db.jobs[s.job].(leaseUntil := Some(db.now + s.lease))]), Ok)
    else (db, Conflict)
  }

  function ApplyCompleteJob(db: Db, s: Step): (Db, Outcome)
    requires s.CompleteJob?
  {
    if Holds(db, s.job, s.owner)
    then (db.(jobs := db.jobs[s.job := db.jobs[s.job].(status := Finished, owner := None, leaseUntil := None)]), Ok)
    else (db, Conflict)
  }

  function ApplyFailJob(db: Db, s: Step): (Db, Outcome)
    requires s.FailJob?
  {
    if Holds(db, s.job, s.owner)
    then
      var job := db.jobs[s.job];
      (db.(jobs := db.jobs[s.job := job.(status := if job.attempts >= job.maxAttempts then Dead else Ready,
                                         availableAt := db.now + s.retryAfter, owner := None, leaseUntil := None)]), Ok)
    else (db, Conflict)
  }

  // ---------------------------------------------------------------- expiry

  predicate Lapsed(approval: Approval, now: Time) {
    approval.decision == None && approval.expiresAt <= now
  }

  predicate HasLapsed(db: Db, run: Id) {
    exists a :: a in db.approvals && db.approvals[a].run == run && Lapsed(db.approvals[a], db.now)
  }

  function FailLapsed(db: Db): map<Id, Run> {
    map r | r in db.runs ::
      if db.runs[r].status == AwaitingApproval && HasLapsed(db, r)
      then db.runs[r].(status := Failed, version := db.runs[r].version + 1)
      else db.runs[r]
  }

  function DenyLapsed(db: Db): map<ApprovalId, Approval> {
    map a | a in db.approvals ::
      if Lapsed(db.approvals[a], db.now)
      then db.approvals[a].(decision := Some(Deny), decidedAt := Some(db.now))
      else db.approvals[a]
  }

  function ApplyExpireApprovals(db: Db): (Db, Outcome) {
    (db.(runs := FailLapsed(db), approvals := DenyLapsed(db)), Ok)
  }

  // ---------------------------------------------------------------- outbox

  predicate Sendable(row: OutboxRow, now: Time) {
    && row.publishedAt == None
    && row.attempts < MAX_OUTBOX_ATTEMPTS
    && row.nextAttemptAt <= now
    && (row.leaseUntil == None || row.leaseUntil.value < now)
  }

  function LeaseRow(row: OutboxRow, owner: Worker, until: Time): OutboxRow {
    row.(owner := Some(owner), leaseUntil := Some(until), attempts := row.attempts + 1)
  }

  function ApplyLeaseOutbox(db: Db, s: Step): (Db, Outcome)
    requires s.LeaseOutbox?
  {
    (db.(outbox := map e | e in db.outbox ::
           if e in s.picked && Sendable(db.outbox[e], db.now)
           then LeaseRow(db.outbox[e], s.owner, db.now + s.lease) else db.outbox[e]),
     Ok)
  }

  predicate OwnsRow(db: Db, event: Id, owner: Worker) {
    event in db.outbox && db.outbox[event].owner == Some(owner) && db.outbox[event].publishedAt == None
  }

  function ApplyMarkOutboxPublished(db: Db, s: Step): (Db, Outcome)
    requires s.MarkOutboxPublished?
  {
    if OwnsRow(db, s.event, s.owner)
    then (db.(outbox := db.outbox[s.event := db.outbox[s.event].(publishedAt := Some(db.now), owner := None, leaseUntil := None)]), Ok)
    else (db, Conflict)
  }

  function ApplyFailOutbox(db: Db, s: Step): (Db, Outcome)
    requires s.FailOutbox?
  {
    if OwnsRow(db, s.event, s.owner)
    then (db.(outbox := db.outbox[s.event :=
                db.outbox[s.event].(nextAttemptAt := db.now + s.retryAfter, owner := None, leaseUntil := None)]), Ok)
    else (db, Conflict)
  }

  // ---------------------------------------------------------------- runs of the whole system

  function Apply(db: Db, s: Step): (Db, Outcome) {
    match s
    case Tick(elapsed) => (db.(now := db.now + elapsed), Ok)
    case CreateRun(_, _, _, _, _, _, _, _) => ApplyCreateRun(db, s)
    case CancelRun(_, _, _) => ApplyCancelRun(db, s)
    case DecideApproval(_, _, _, _) => ApplyDecideApproval(db, s)
    case AnswerInteraction(_, _, _, _) => ApplyAnswerInteraction(db, s)
    case StartRun(_) => ApplyStartRun(db, s)
    case AppendRunEvent(_, _, _, _) => ApplyAppendRunEvent(db, s)
    case LeaseJobs(_, _, _) => ApplyLeaseJobs(db, s)
    case HeartbeatJob(_, _, _) => ApplyHeartbeatJob(db, s)
    case CompleteJob(_, _) => ApplyCompleteJob(db, s)
    case FailJob(_, _, _) => ApplyFailJob(db, s)
    case ExpireApprovals => ApplyExpireApprovals(db)
    case LeaseOutbox(_, _, _) => ApplyLeaseOutbox(db, s)
    case MarkOutboxPublished(_, _) => ApplyMarkOutboxPublished(db, s)
    case FailOutbox(_, _, _) => ApplyFailOutbox(db, s)
  }

  function After(db: Db, s: Step): Db {
    Apply(db, s).0
  }

  predicate Succeeds(db: Db, s: Step) {
    Apply(db, s).1 == Ok
  }

  /** The tables after any number of steps, by any workers, in any order. */
  function Execute(db: Db, steps: seq<Step>): Db
    decreases |steps|
  {
    if steps == [] then db else Execute(After(db, steps[0]), steps[1..])
  }

  lemma {:induction false} ExecuteSplit(db: Db, first: seq<Step>, second: seq<Step>)
    ensures Execute(db, first + second) == Execute(Execute(db, first), second)
    decreases |first|
  {
    if first == [] {
      assert first + second == second;
    } else {
      ExecuteSplit(After(db, first[0]), first[1..], second);
      assert (first + second)[1..] == first[1..] + second;
    }
  }

  lemma OneMore(db: Db, steps: seq<Step>, s: Step)
    ensures Execute(db, steps + [s]) == After(Execute(db, steps), s)
  {
    hide Apply;
    ExecuteSplit(db, steps, [s]);
    assert [s][1..] == [];
  }
}
