/** The gate in front of every tool call of a worker's execution, and what a passed gate says about the user. */
module ApprovalGate {
  import opened Wrappers
  import opened ControlPlane
  import opened ControlPlaneRows
  import opened ControlPlaneInvariants
  import opened ControlPlaneTheorems

  datatype Call = Call(id: Text, tool: Text, arguments: Text)

  datatype Verdict = Proceed | Denied | AwaitsApproval

  function HashOf(call: Call): Digest {
    Digest(call.tool, call.arguments)
  }

  /** What the engine reports when it refuses to run a dangerous call on its own authority. */
  function Request(run: Id, call: Call): RunEvent {
    ApprovalRequested(ApprovalId(run, call.id, HashOf(call)), call.id, call.tool, call.arguments, HashOf(call))
  }

  /** One run of the engine on a leased job. Which calls are dangerous is a policy of its own. */
  class Execution {
    const run: Id
    const dangerous: Call -> bool
    const approvedCalls: set<Text>
    const approvedHashes: set<Digest>
    const deniedHashes: set<Digest>
    var pending: nat
    var emitted: seq<RunEvent>

    /** The payload names digests only: no call identifier is ever approved in advance. */
    constructor (run: Id, payload: Payload, dangerous: Call -> bool)
      ensures this.run == run && this.dangerous == dangerous && approvedCalls == {}
      ensures approvedHashes == (set h | h in payload.approved) && deniedHashes == (set h | h in payload.denied)
      ensures pending == 0 && emitted == []
    {
      this.run := run;
      this.dangerous := dangerous;
      approvedCalls := {};
      approvedHashes := set h | h in payload.approved;
      deniedHashes := set h | h in payload.denied;
      pending := 0;
      emitted := [];
    }

    /** A denial outranks an approval; a dangerous call without an approval is reported and not run. */
    method PrepareToolExecution(call: Call) returns (verdict: Verdict)
      modifies this
      ensures verdict == Gate(call)
      ensures emitted == old(emitted) + (if verdict == AwaitsApproval then [Request(run, call)] else [])
      ensures pending == old(pending) + (if verdict == AwaitsApproval then 1 else 0)
    {
      var hash := HashOf(call);
      if hash in deniedHashes {
        return Denied;
      }
      if dangerous(call) && call.id !in approvedCalls && hash !in approvedHashes {
        pending := pending + 1;
        emitted := emitted + [Request(run, call)];
        return AwaitsApproval;
      }
      return Proceed;
    }

    function Gate(call: Call): Verdict {
      if HashOf(call) in deniedHashes then Denied
      else if dangerous(call) && call.id !in approvedCalls && HashOf(call) !in approvedHashes then AwaitsApproval
      else Proceed
    }
  }

  ghost predicate DigestsOk(db: Db) {
    forall a :: a in db.approvals ==> db.approvals[a].hash == Digest(db.approvals[a].tool, db.approvals[a].arguments)
  }

  lemma {:induction false} DigestsMatchCalls(db: Db, steps: seq<Step>)
    requires DigestsOk(db) && EngineRun(steps)
    ensures DigestsOk(Execute(db, steps))
    decreases |steps|
  {
    hide Apply;
    if steps != [] {
      StepEvolves(db, steps[0]);
      DigestsMatchCalls(After(db, steps[0]), steps[1..]);
    }
  }

  /** The user of the run has allowed exactly this call: same tool, same arguments, and in time. */
  ghost predicate AllowedBy(db: Db, a: ApprovalId, run: Id, call: Call) {
    && a in db.approvals && db.approvals[a].run == run
    && db.approvals[a].tool == call.tool && db.approvals[a].arguments == call.arguments
    && db.approvals[a].decision == Some(Allow) && db.approvals[a].decidedAt.Some?
    && db.approvals[a].decidedAt.value <= db.now && db.approvals[a].decidedAt.value < db.approvals[a].expiresAt
  }

  /** A dangerous call passes the gate of an execution whose job was leased at step `lease` only if, before
      that lease, the user allowed this tool with these arguments on this run; and that decision still stands
      after every later step. */
  lemma DangerousCallsWereAllowed(steps: seq<Step>, lease: nat, j: Id, e: Execution, call: Call) returns (a: ApprovalId)
    requires EngineRun(steps) && lease < |steps|
    requires var db := Execute(EMPTY, steps[..lease]);
      && Leases(db, steps[lease], j)
      && e.run == db.jobs[j].run && e.approvedCalls == {}
      && e.approvedHashes == (set h | h in db.jobs[j].payload.approved)
    requires e.dangerous(call) && e.Gate(call) == Proceed
    ensures AllowedBy(Execute(EMPTY, steps[..lease]), a, e.run, call)
    ensures a in Execute(EMPTY, steps).approvals
    ensures Execute(EMPTY, steps).approvals[a] == Execute(EMPTY, steps[..lease]).approvals[a]
  {
    hide Apply;
    var db := Execute(EMPTY, steps[..lease]);
    ReachableInv(steps[..lease]);
    DigestsMatchCalls(EMPTY, steps[..lease]);
    var h := HashOf(call);
    assert GrantOk(db, j, h);
    a :| a in db.approvals && db.approvals[a].run == e.run && db.approvals[a].hash == h && db.approvals[a].decision == Some(Allow);
    DecisionsAreWriteOnce(db, steps[lease..], a);
    ExecuteSplit(EMPTY, steps[..lease], steps[lease..]);
    assert steps[..lease] + steps[lease..] == steps;
  }

  /** A call the user denied is never run again by that run's executions, approved or not. */
  lemma DeniedCallsAreRefused(steps: seq<Step>, k: nat, j: Id, e: Execution, call: Call, a: ApprovalId)
    requires k < |steps|
    requires var db := Execute(EMPTY, steps[..k]);
      && j in db.jobs && DecidesOn(db, steps[k], db.jobs[j].run) && a == steps[k].approval
      && steps[k].decision == Deny && db.approvals[a].hash == HashOf(call)
    requires var last := Execute(EMPTY, steps);
      j in last.jobs && e.deniedHashes == (set h | h in last.jobs[j].payload.denied)
    ensures e.Gate(call) == Denied
  {
    hide Apply;
    var db := Execute(EMPTY, steps[..k]);
    ReachableInv(steps[..k]);
    GrantsFollowDecisions(db, steps[k..], j, Deny);
    ExecuteSplit(EMPTY, steps[..k], steps[k..]);
    assert steps[..k] + steps[k..] == steps;
    var log := DecisionLog(db, steps[k..], db.jobs[j].run, Deny);
    assert log[0] == HashOf(call);
    assert log[0] in Listed(Execute(EMPTY, steps).jobs[j].payload, Deny);
  }

  // ---------------------------------------------------------------- what passes

  /** A user decided so on a call of the run with this digest. A denial that only records that nobody did bears a later time
      than the row's expiry. */
  ghost predicate InTime(db: Db, run: Id, h: Digest, d: Decision) {
    exists a :: a in db.approvals && TimelyRow(db.approvals[a], run, h, d)
  }

  predicate TimelyRow(row: Approval, run: Id, h: Digest, d: Decision) {
    row.run == run && row.hash == h && row.decision == Some(d) && row.decidedAt.Some? && row.decidedAt.value < row.expiresAt
  }

  lemma TimelyRowMoves(db: Db, s: Step, a: ApprovalId, run: Id, h: Digest, d: Decision)
    requires a in db.approvals
    ensures TimelyRow(ApprovalAfter(db, s, a), run, h, d) <==>
            TimelyRow(db.approvals[a], run, h, d) ||
            (Decides(db, s, run) && s.decision == d && s.approval == a && db.approvals[a].hash == h)
  {
    hide HasJob;
  }

  lemma InTimeStays(db: Db, s: Step, next: Db, run: Id, h: Digest, d: Decision)
    requires ApprovalsEvolve(db, s, next)
    requires InTime(db, run, h, d) || (Decides(db, s, run) && s.decision == d && db.approvals[s.approval].hash == h)
    ensures InTime(next, run, h, d)
  {
    hide ApprovalAfter, ProjectApprovals, Reports, HasJob;
    if InTime(db, run, h, d) {
      var a :| a in db.approvals && TimelyRow(db.approvals[a], run, h, d);
      TimelyRowMoves(db, s, a, run, h, d);
      assert a in next.approvals && TimelyRow(next.approvals[a], run, h, d);
    } else {
      TimelyRowMoves(db, s, s.approval, run, h, d);
      assert s.approval in next.approvals && TimelyRow(next.approvals[s.approval], run, h, d);
    }
  }

  lemma InTimeSince(db: Db, s: Step, next: Db, run: Id, h: Digest, d: Decision)
    requires ApprovalsEvolve(db, s, next) && InTime(next, run, h, d)
    ensures InTime(db, run, h, d) || (Decides(db, s, run) && s.decision == d && db.approvals[s.approval].hash == h)
  {
    hide ApprovalAfter, ProjectApprovals, Reports, Decides;
    var a :| a in next.approvals && TimelyRow(next.approvals[a], run, h, d);
    assert a in db.approvals;
    TimelyRowMoves(db, s, a, run, h, d);
    if TimelyRow(db.approvals[a], run, h, d) {
      assert InTime(db, run, h, d);
    }
  }

  lemma InTimeMoves(db: Db, s: Step, next: Db, run: Id, h: Digest, d: Decision)
    requires ApprovalsEvolve(db, s, next)
    ensures InTime(next, run, h, d) <==>
            InTime(db, run, h, d) || (Decides(db, s, run) && s.decision == d && db.approvals[s.approval].hash == h)
  {
    hide InTime, ApprovalsEvolve, HasJob;
    if InTime(next, run, h, d) {
      InTimeSince(db, s, next, run, h, d);
    }
    if InTime(db, run, h, d) || (Decides(db, s, run) && s.decision == d && db.approvals[s.approval].hash == h) {
      InTimeStays(db, s, next, run, h, d);
    }
  }

  /** What a job carries as approved and as denied are exactly the digests on which users decided so in time. */
  ghost predicate ListsExact(db: Db) {
    forall j, h, d :: j in db.jobs ==> (h in Listed(db.jobs[j].payload, d) <==> InTime(db, db.jobs[j].run, h, d))
  }

  lemma NotYetDecided(db: Db, run: Id, h: Digest, d: Decision)
    requires ApprovalsOk(db) && run !in db.runs
    ensures !InTime(db, run, h, d)
  {
  }

  lemma OldList(db: Db, s: Step, j: Id, h: Digest, d: Decision)
    requires Inv(db) && ListsExact(db) && j in db.jobs
    ensures j in After(db, s).jobs && After(db, s).jobs[j].run == db.jobs[j].run
    ensures h in Listed(After(db, s).jobs[j].payload, d) <==>
            InTime(db, db.jobs[j].run, h, d) ||
            (Decides(db, s, db.jobs[j].run) && s.decision == d && db.approvals[s.approval].hash == h)
  {
    hide Apply, Listed, InTime, DecidesOn, GrantsOk, ApprovalsOk, OutboxOk;
    StepKeepsJob(db, s, j, d);
    assert HasJob(db, db.jobs[j].run);
  }

  lemma NewList(db: Db, s: Step, next: Db, j: Id, h: Digest, d: Decision)
    requires ApprovalsOk(db) && JobsEvolve(db, s, next) && j in next.jobs && j !in db.jobs
    ensures h !in Listed(next.jobs[j].payload, d)
    ensures !InTime(db, next.jobs[j].run, h, d) && !Decides(db, s, next.jobs[j].run)
  {
    hide JobAfter, InTime, HasJob;
    NotYetDecided(db, next.jobs[j].run, h, d);
  }

  lemma StepKeepsList(db: Db, s: Step, j: Id, h: Digest, d: Decision)
    requires Inv(db) && ListsExact(db) && j in After(db, s).jobs
    ensures h in Listed(After(db, s).jobs[j].payload, d) <==> InTime(After(db, s), After(db, s).jobs[j].run, h, d)
  {
    hide Apply, Listed, InTime, ListsExact, Decides, JobsEvolve, RunsEvolve, ApprovalsEvolve, InteractionsEvolve, OutboxEvolves;
    var next := After(db, s);
    StepEvolves(db, s);
    InTimeMoves(db, s, next, next.jobs[j].run, h, d);
    if j in db.jobs {
      OldList(db, s, j, h, d);
    } else {
      NewList(db, s, next, j, h, d);
    }
  }

  lemma {:induction false} ListsAreExact(db: Db, steps: seq<Step>)
    requires Inv(db) && ListsExact(db)
    ensures ListsExact(Execute(db, steps))
    decreases |steps|
  {
    hide Apply, Listed, InTime, Inv;
    if steps != [] {
      var next := After(db, steps[0]);
      forall j, h, d | j in next.jobs ensures h in Listed(next.jobs[j].payload, d) <==> InTime(next, next.jobs[j].run, h, d) {
        StepKeepsList(db, steps[0], j, h, d);
      }
      StepKeepsInv(db, steps[0]);
      ListsAreExact(next, steps[1..]);
    }
  }

  lemma NothingListed()
    ensures Inv(EMPTY) && ListsExact(EMPTY) && DigestsOk(EMPTY)
  {
  }

  /** The user decided so on a call of the run with the same tool and the same arguments. */
  ghost predicate UserSaid(db: Db, run: Id, call: Call, d: Decision) {
    exists a :: a in db.approvals && db.approvals[a].run == run
                && db.approvals[a].tool == call.tool && db.approvals[a].arguments == call.arguments
                && db.approvals[a].decision == Some(d) && db.approvals[a].decidedAt.Some?
                && db.approvals[a].decidedAt.value < db.approvals[a].expiresAt
  }

  lemma SaidIff(db: Db, run: Id, call: Call, d: Decision)
    requires DigestsOk(db)
    ensures UserSaid(db, run, call, d) <==> InTime(db, run, HashOf(call), d)
  {
    if a :| a in db.approvals && db.approvals[a].run == run
            && db.approvals[a].tool == call.tool && db.approvals[a].arguments == call.arguments
            && db.approvals[a].decision == Some(d) && db.approvals[a].decidedAt.Some?
            && db.approvals[a].decidedAt.value < db.approvals[a].expiresAt
    {
      assert db.approvals[a].hash == HashOf(call);
    }
    if a :| a in db.approvals && db.approvals[a].run == run && db.approvals[a].hash == HashOf(call)
            && db.approvals[a].decision == Some(d) && db.approvals[a].decidedAt.Some?
            && db.approvals[a].decidedAt.value < db.approvals[a].expiresAt
    {
      assert db.approvals[a].tool == call.tool;
    }
  }

  /** The execution was started on the job as it was after these steps. */
  ghost predicate StartedOn(e: Execution, steps: seq<Step>, j: Id) {
    var db := Execute(EMPTY, steps);
    && j in db.jobs && e.run == db.jobs[j].run && e.approvedCalls == {}
    && e.approvedHashes == (set h | h in db.jobs[j].payload.approved)
    && e.deniedHashes == (set h | h in db.jobs[j].payload.denied)
  }

  lemma ListedIff(steps: seq<Step>, j: Id, e: Execution, call: Call)
    requires EngineRun(steps) && StartedOn(e, steps, j)
    ensures HashOf(call) in e.approvedHashes <==> UserSaid(Execute(EMPTY, steps), e.run, call, Allow)
    ensures HashOf(call) in e.deniedHashes <==> UserSaid(Execute(EMPTY, steps), e.run, call, Deny)
  {
    hide Apply, Inv, InTime, UserSaid, HashOf;
    var db := Execute(EMPTY, steps);
    ReachableInv(steps);
    NothingListed();
    ListsAreExact(EMPTY, steps);
    DigestsMatchCalls(EMPTY, steps);
    SaidIff(db, e.run, call, Allow);
    SaidIff(db, e.run, call, Deny);
    assert HashOf(call) in Listed(db.jobs[j].payload, Allow) <==> InTime(db, e.run, HashOf(call), Allow);
    assert HashOf(call) in Listed(db.jobs[j].payload, Deny) <==> InTime(db, e.run, HashOf(call), Deny);
  }

  /** Which calls run, read off the tables the job was leased from: those the user has not denied on this run that need no
      approval or that the user has allowed on it. Of the others, those denied are refused and the rest ask. */
  lemma VerdictIff(steps: seq<Step>, j: Id, e: Execution, call: Call)
    requires EngineRun(steps) && StartedOn(e, steps, j)
    ensures var db := Execute(EMPTY, steps);
      && (e.Gate(call) == Denied <==> UserSaid(db, e.run, call, Deny))
      && (e.Gate(call) == Proceed <==>
            !UserSaid(db, e.run, call, Deny) && (!e.dangerous(call) || UserSaid(db, e.run, call, Allow)))
      && (e.Gate(call) == AwaitsApproval <==>
            !UserSaid(db, e.run, call, Deny) && e.dangerous(call) && !UserSaid(db, e.run, call, Allow))
  {
    hide UserSaid, Execute, StartedOn;
    ListedIff(steps, j, e, call);
    assert e.approvedCalls == {} by { ApprovesNoCall(e, steps, j); }
  }

  lemma ApprovesNoCall(e: Execution, steps: seq<Step>, j: Id)
    requires StartedOn(e, steps, j)
    ensures e.approvedCalls == {}
  {
  }

  /** One call of an execution started on a leased job: a call the user has not denied on the run runs when it needs no
      approval, and when the user has allowed the same tool and arguments; then nothing is asked. */
  method Prepare(e: Execution, call: Call, ghost steps: seq<Step>, ghost j: Id) returns (verdict: Verdict)
    requires EngineRun(steps) && StartedOn(e, steps, j)
    modifies e
    ensures verdict == Proceed <==>
            && !UserSaid(Execute(EMPTY, steps), e.run, call, Deny)
            && (!e.dangerous(call) || UserSaid(Execute(EMPTY, steps), e.run, call, Allow))
    ensures verdict == Denied <==> UserSaid(Execute(EMPTY, steps), e.run, call, Deny)
    ensures verdict != AwaitsApproval ==> e.emitted == old(e.emitted) && e.pending == old(e.pending)
    ensures verdict == AwaitsApproval ==>
            && e.pending == old(e.pending) + 1
            && e.emitted == old(e.emitted) +
                 [ApprovalRequested(ApprovalId(e.run, call.id, Digest(call.tool, call.arguments)), call.id, call.tool,
                                    call.arguments, Digest(call.tool, call.arguments))]
  {
    hide UserSaid, Execute, StartedOn, EngineRun;
    VerdictIff(steps, j, e, call);
    verdict := e.PrepareToolExecution(call);
  }

  // ---------------------------------------------------------------- asking, being allowed, running

  /** Rows bear the identifier the engine derived for them. */
  ghost predicate IdsOk(db: Db) {
    forall a :: a in db.approvals ==> a.run == db.approvals[a].run && a.hash == db.approvals[a].hash
  }

  lemma {:induction false} IdsMatchRows(db: Db, steps: seq<Step>)
    requires IdsOk(db) && EngineRun(steps)
    ensures IdsOk(Execute(db, steps))
    decreases |steps|
  {
    hide Apply;
    if steps != [] {
      StepEvolves(db, steps[0]);
      IdsMatchRows(After(db, steps[0]), steps[1..]);
    }
  }

  /** A call that had to ask and was allowed runs: once the user has allowed the approval it asked for, every execution
      started later on a job of the run runs it, unless the user has denied the same call there. */
  lemma AskedAndAllowed(steps: seq<Step>, k: nat, tenant: Id, event: Id, j: Id, e: Execution, call: Call)
    requires EngineRun(steps) && StartedOn(e, steps, j) && k < |steps|
    requires steps[k] == Step.DecideApproval(tenant, ApprovalId(e.run, call.id, Digest(call.tool, call.arguments)), Allow, event)
    requires Succeeds(Execute(EMPTY, steps[..k]), steps[k])
    requires !UserSaid(Execute(EMPTY, steps), e.run, call, Deny)
    ensures e.Gate(call) == Proceed
  {
    hide Apply, Inv, UserSaid, StartedOn, Execute;
    var db, a := Execute(EMPTY, steps[..k]), steps[k].approval;
    IdsMatchRows(EMPTY, steps[..k]);
    DigestsMatchCalls(EMPTY, steps[..k]);
    AllowedNow(db, steps[k], e.run, call);
    OneMore(EMPTY, steps[..k], steps[k]);
    assert steps[..k] + [steps[k]] == steps[..k + 1];
    ExecuteSplit(EMPTY, steps[..k + 1], steps[k + 1..]);
    assert steps[..k + 1] + steps[k + 1..] == steps;
    SaidStays(After(db, steps[k]), steps[k + 1..], e.run, call, Allow);
    VerdictIff(steps, j, e, call);
  }

  lemma AllowedNow(db: Db, s: Step, run: Id, call: Call)
    requires IdsOk(db) && DigestsOk(db) && s.DecideApproval? && s.decision == Allow && Succeeds(db, s)
    requires s.approval == ApprovalId(run, call.id, Digest(call.tool, call.arguments))
    ensures UserSaid(After(db, s), run, call, Allow)
  {
    hide RequeueDecided, HasJob;
    assert After(db, s).approvals[s.approval].tool == call.tool;
  }

  lemma SaidStays(db: Db, steps: seq<Step>, run: Id, call: Call, d: Decision)
    requires UserSaid(db, run, call, d)
    ensures UserSaid(Execute(db, steps), run, call, d)
  {
    hide Execute;
    var a :| a in db.approvals && db.approvals[a].run == run
             && db.approvals[a].tool == call.tool && db.approvals[a].arguments == call.arguments
             && db.approvals[a].decision == Some(d) && db.approvals[a].decidedAt.Some?
             && db.approvals[a].decidedAt.value < db.approvals[a].expiresAt;
    DecisionsAreWriteOnce(db, steps, a);
  }
}
