/**
 Publishers of the outbox as processes: each leases a batch, posts its rows one by one to the webhook and reports on
 each delivery before it posts the next. Time passes, leases lapse, other publishers take rows over and every other
 transaction of the control plane goes on between any two of these moves, and a publisher may stop at any point.
 */
module Publishers {
  import opened Wrappers
  import opened ControlPlane
  import opened ControlPlaneRows
  import opened ControlPlaneInvariants
  import opened Repository

  /** What the publishers did, in the order they did it. A delivery names the place of the lease it was made under. */
  datatype Note =
    | Took(owner: Worker, event: Id)
    | Sent(owner: Worker, event: Id, accepted: bool, lease: nat)
    | Published(owner: Worker, event: Id)

  /** A round in progress: the rows leased at `since` and on, of which those before `at` are reported on. */
  datatype Round = Round(batch: seq<LeasedEvent>, since: nat, at: nat, answer: Option<bool>, sentAt: nat)

  datatype System = System(db: Db, rounds: map<Worker, Round>, history: seq<Note>)

  const IDLE: System := System(EMPTY, map[], [])

  datatype Move =
    | Other(step: Step)
    | Fetch(owner: Worker, batch: seq<LeasedEvent>, lease: nat)
    | Send(owner: Worker, accepted: bool)
    | Report(owner: Worker)
    | Crash(owner: Worker)

  predicate IsIdle(sys: System, owner: Worker) {
    owner in sys.rounds ==> sys.rounds[owner].at == |sys.rounds[owner].batch|
  }

  predicate IsBusy(sys: System, owner: Worker) {
    owner in sys.rounds && sys.rounds[owner].at < |sys.rounds[owner].batch|
  }

  predicate Distinct(batch: seq<LeasedEvent>) {
    forall i, k :: 0 <= i < k < |batch| ==> batch[i].id != batch[k].id
  }

  /** Any rows a query for sendable rows may have returned; `Repository.LeaseOutbox` says which ones it does return. */
  predicate MayFetch(db: Db, batch: seq<LeasedEvent>) {
    Distinct(batch) && forall i :: 0 <= i < |batch| ==> IsCandidate(db.outbox, {}, db.now, batch[i])
  }

  predicate Can(sys: System, m: Move) {
    match m
    case Other(step) => !step.LeaseOutbox? && !step.MarkOutboxPublished? && !step.FailOutbox?
    case Fetch(owner, batch, _) => IsIdle(sys, owner) && MayFetch(sys.db, batch)
    case Send(owner, _) => IsBusy(sys, owner) && sys.rounds[owner].answer == None
    case Report(owner) => IsBusy(sys, owner) && sys.rounds[owner].answer.Some?
    case Crash(owner) => owner in sys.rounds
  }

  /** The report on the delivery just made. */
  function ReportStep(owner: Worker, round: Round): Step
    requires round.at < |round.batch| && round.answer.Some?
  {
    var row := round.batch[round.at];
    if round.answer.value then MarkOutboxPublished(row.id, owner) else FailOutbox(row.id, owner, RetryDelay(row.attempts + 1))
  }

  function Takes(owner: Worker, batch: seq<LeasedEvent>): (notes: seq<Note>)
    ensures |notes| == |batch| && forall k :: 0 <= k < |batch| ==> notes[k] == Took(owner, batch[k].id)
  {
    seq(|batch|, k requires 0 <= k < |batch| => Took(owner, batch[k].id))
  }

  function Fetched(sys: System, owner: Worker, batch: seq<LeasedEvent>, lease: nat): System {
    System(After(sys.db, LeaseOutbox(owner, Ids(batch), lease)),
           sys.rounds[owner := Round(batch, |sys.history|, 0, None, 0)],
           sys.history + Takes(owner, batch))
  }

  function Posted(sys: System, owner: Worker, accepted: bool): System
    requires IsBusy(sys, owner)
  {
    var round := sys.rounds[owner];
    sys.(rounds := sys.rounds[owner := round.(answer := Some(accepted), sentAt := |sys.history|)],
         history := sys.history + [Sent(owner, round.batch[round.at].id, accepted, round.since + round.at)])
  }

  function Settled(sys: System, owner: Worker): System
    requires IsBusy(sys, owner) && sys.rounds[owner].answer.Some?
  {
    var round := sys.rounds[owner];
    var event := round.batch[round.at].id;
    System(After(sys.db, ReportStep(owner, round)),
           sys.rounds[owner := round.(at := round.at + 1, answer := None)],
           if round.answer.value && OwnsRow(sys.db, event, owner) then sys.history + [Published(owner, event)] else sys.history)
  }

  /** A move that cannot be made changes nothing. */
  function Do(sys: System, m: Move): System {
    if !Can(sys, m) then sys
    else match m
      case Other(step) => sys.(db := After(sys.db, step))
      case Fetch(owner, batch, lease) => Fetched(sys, owner, batch, lease)
      case Send(owner, accepted) => Posted(sys, owner, accepted)
      case Report(owner) => Settled(sys, owner)
      case Crash(owner) => sys.(rounds := sys.rounds - {owner})
  }

  function Play(sys: System, moves: seq<Move>): System
    decreases |moves|
  {
    if moves == [] then sys else Do(Play(sys, moves[..|moves| - 1]), moves[|moves| - 1])
  }

  function Run(moves: seq<Move>): System {
    Play(IDLE, moves)
  }

  // ---------------------------------------------------------------- the tables under the publishers

  function StepsOf(sys: System, m: Move): seq<Step> {
    if !Can(sys, m) then []
    else match m
      case Other(step) => [step]
      case Fetch(owner, batch, lease) => [LeaseOutbox(owner, Ids(batch), lease)]
      case Report(owner) => [ReportStep(owner, sys.rounds[owner])]
      case _ => []
  }

  function AllSteps(moves: seq<Move>): seq<Step>
    decreases |moves|
  {
    if moves == [] then []
    else AllSteps(moves[..|moves| - 1]) + StepsOf(Run(moves[..|moves| - 1]), moves[|moves| - 1])
  }

  lemma MoveIsSteps(sys: System, m: Move)
    ensures Do(sys, m).db == Execute(sys.db, StepsOf(sys, m))
  {
    hide Apply, Can, ReportStep;
    var steps := StepsOf(sys, m);
    if |steps| == 1 {
      assert steps[1..] == [];
    }
  }

  /** Publishers only take steps of the control plane, so all that holds of its runs holds here. */
  lemma {:induction false} RunIsExecution(moves: seq<Move>)
    ensures Run(moves).db == Execute(EMPTY, AllSteps(moves))
    ensures Inv(Run(moves).db)
    decreases |moves|
  {
    hide Inv, Do, StepsOf, Apply;
    if moves != [] {
      var before := moves[..|moves| - 1];
      var m := moves[|moves| - 1];
      RunIsExecution(before);
      MoveIsSteps(Run(before), m);
      ExecuteSplit(EMPTY, AllSteps(before), StepsOf(Run(before), m));
    }
    ReachableInv(AllSteps(moves));
  }

  // ---------------------------------------------------------------- what a history says

  /** Nobody leased the row from that place in the history on. */
  ghost predicate Untaken(history: seq<Note>, event: Id, from: nat) {
    forall i :: from <= i < |history| ==> history[i].Took? ==> history[i].event != event
  }

  ghost predicate NotSentUnder(history: seq<Note>, low: nat, high: nat) {
    forall j :: 0 <= j < |history| && history[j].Sent? ==> !(low <= history[j].lease < high)
  }

  /** The row was leased, then delivered with success under that lease, then marked, all by this owner, and it has not
      been leased again. */
  ghost predicate Delivery(history: seq<Note>, event: Id, owner: Worker, took: nat, sent: nat, marked: nat) {
    && took < sent < marked < |history|
    && history[took] == Took(owner, event)
    && history[sent] == Sent(owner, event, true, took)
    && history[marked] == Published(owner, event)
    && Untaken(history, event, took + 1)
  }

  ghost predicate WasDelivered(history: seq<Note>, event: Id) {
    exists owner: Worker, took: nat, sent: nat, marked: nat :: Delivery(history, event, owner, took, sent, marked)
  }

  // ---------------------------------------------------------------- invariants

  ghost predicate RoundShape(history: seq<Note>, owner: Worker, round: Round) {
    && round.at <= |round.batch| && Distinct(round.batch)
    && round.since + |round.batch| <= |history|
    && (forall k :: 0 <= k < |round.batch| ==> history[round.since + k] == Took(owner, round.batch[k].id))
    && (round.answer.Some? ==>
          && round.at < |round.batch| && round.since + |round.batch| <= round.sentAt < |history|
          && history[round.sentAt] == Sent(owner, round.batch[round.at].id, round.answer.value, round.since + round.at))
    && NotSentUnder(history, round.since + round.at + (if round.answer.Some? then 1 else 0), round.since + |round.batch|)
  }

  /** The owner still has a row of its batch exactly when nobody leased it since. */
  ghost predicate HeldIff(db: Db, history: seq<Note>, owner: Worker, round: Round) {
    forall k :: round.at <= k < |round.batch| ==>
      (OwnsRow(db, round.batch[k].id, owner) <==> Untaken(history, round.batch[k].id, round.since + k + 1))
  }

  ghost predicate RoundsOk(sys: System) {
    forall o :: o in sys.rounds ==> RoundShape(sys.history, o, sys.rounds[o]) && HeldIff(sys.db, sys.history, o, sys.rounds[o])
  }

  /** Notes are about rows of the outbox, deliveries are made under leases, and no two under the same one. */
  ghost predicate HistoryOk(sys: System) {
    && (forall i :: 0 <= i < |sys.history| ==> sys.history[i].event in sys.db.outbox)
    && (forall j :: 0 <= j < |sys.history| && sys.history[j].Sent? ==>
          sys.history[j].lease < j && sys.history[sys.history[j].lease] == Took(sys.history[j].owner, sys.history[j].event))
    && (forall i, j :: 0 <= i < j < |sys.history| && sys.history[i].Sent? && sys.history[j].Sent? ==>
          sys.history[i].lease != sys.history[j].lease)
  }

  ghost predicate PublicationsOk(sys: System) {
    && (forall e :: e in sys.db.outbox && sys.db.outbox[e].publishedAt.Some? ==> WasDelivered(sys.history, e))
    && (forall k :: 0 <= k < |sys.history| && sys.history[k].Published? && sys.history[k].event in sys.db.outbox ==>
          sys.db.outbox[sys.history[k].event].publishedAt.Some?)
    && (forall i, k :: 0 <= i < k < |sys.history| && sys.history[i].Published? && sys.history[k].Published? ==>
          sys.history[i].event != sys.history[k].event)
  }

  function TakesOf(history: seq<Note>, event: Id): set<nat> {
    set i: nat | i < |history| && history[i].Took? && history[i].event == event
  }

  function SendsOf(history: seq<Note>, event: Id): set<nat> {
    set i: nat | i < |history| && history[i].Sent? && history[i].event == event
  }

  ghost predicate AttemptsOk(sys: System) {
    forall e :: e in sys.db.outbox ==> sys.db.outbox[e].attempts == |TakesOf(sys.history, e)|
  }

  ghost predicate SystemOk(sys: System) {
    RoundsOk(sys) && HistoryOk(sys) && PublicationsOk(sys) && AttemptsOk(sys)
  }

  // ---------------------------------------------------------------- one row under one move

  lemma InIds(batch: seq<LeasedEvent>, e: Id)
    ensures e in Ids(batch) <==> exists k :: 0 <= k < |batch| && batch[k].id == e
  {
  }

  /** Rows the publishers do not touch stay as they are; new ones are unleased. */
  lemma OthersLeaveRows(db: Db, s: Step)
    requires Can(System(db, map[], []), Other(s))
    ensures forall e :: e in db.outbox ==> e in After(db, s).outbox && After(db, s).outbox[e] == db.outbox[e]
    ensures forall e :: e in After(db, s).outbox && e !in db.outbox ==>
              After(db, s).outbox[e].attempts == 0 && After(db, s).outbox[e].publishedAt == None
  {
    hide Apply, JobsEvolve, RunsEvolve, ApprovalsEvolve, InteractionsEvolve;
    StepEvolves(db, s);
  }

  lemma FetchLeases(db: Db, owner: Worker, batch: seq<LeasedEvent>, lease: nat)
    requires MayFetch(db, batch)
    ensures var next := After(db, LeaseOutbox(owner, Ids(batch), lease));
      && next.outbox.Keys == db.outbox.Keys
      && (forall k :: 0 <= k < |batch| ==>
            && batch[k].id in db.outbox && db.outbox[batch[k].id].publishedAt == None
            && next.outbox[batch[k].id] == LeaseRow(db.outbox[batch[k].id], owner, db.now + lease))
      && (forall e :: e in db.outbox && e !in Ids(batch) ==> next.outbox[e] == db.outbox[e])
  {
    hide Ids;
    forall k | 0 <= k < |batch| ensures batch[k].id in Ids(batch) { InIds(batch, batch[k].id); }
  }

  lemma MarkMoves(db: Db, owner: Worker, event: Id)
    ensures var next := After(db, MarkOutboxPublished(event, owner));
      if OwnsRow(db, event, owner)
      then next.outbox == db.outbox[event := db.outbox[event].(publishedAt := Some(db.now), owner := None, leaseUntil := None)]
      else next == db
  {
  }

  lemma FailMoves(db: Db, owner: Worker, event: Id, delay: nat)
    ensures var next := After(db, FailOutbox(event, owner, delay));
      if OwnsRow(db, event, owner)
      then next.outbox == db.outbox[event := db.outbox[event].(nextAttemptAt := db.now + delay, owner := None, leaseUntil := None)]
      else next == db
  {
  }

  lemma ReportMoves(db: Db, owner: Worker, round: Round)
    requires round.at < |round.batch| && round.answer.Some?
    ensures var next := After(db, ReportStep(owner, round)); var event := round.batch[round.at].id;
      && next.outbox.Keys == db.outbox.Keys
      && (forall e :: e in db.outbox && e != event ==> next.outbox[e] == db.outbox[e])
      && (!OwnsRow(db, event, owner) ==> next.outbox == db.outbox)
      && (OwnsRow(db, event, owner) ==>
            && next.outbox[event].attempts == db.outbox[event].attempts && next.outbox[event].owner == None
            && (next.outbox[event].publishedAt.Some? <==> round.answer.value))
  {
    hide RetryDelay, Apply;
    var row := round.batch[round.at];
    MarkMoves(db, owner, row.id);
    FailMoves(db, owner, row.id, RetryDelay(row.attempts + 1));
  }

  // ---------------------------------------------------------------- longer histories

  lemma UntakenExtends(history: seq<Note>, more: seq<Note>, event: Id, from: nat)
    requires from <= |history|
    ensures Untaken(history + more, event, from) <==> Untaken(history, event, from) && Untaken(more, event, 0)
  {
    var all := history + more;
    if Untaken(all, event, from) {
      forall i | from <= i < |history| && history[i].Took? ensures history[i].event != event { assert all[i] == history[i]; }
      forall i | 0 <= i < |more| && more[i].Took? ensures more[i].event != event { assert all[|history| + i] == more[i]; }
    }
    if Untaken(history, event, from) && Untaken(more, event, 0) {
      forall i | from <= i < |all| && all[i].Took? ensures all[i].event != event {
        if i < |history| { assert all[i] == history[i]; } else { assert all[i] == more[i - |history|]; }
      }
    }
  }

  lemma DeliveryExtends(history: seq<Note>, more: seq<Note>, event: Id)
    requires WasDelivered(history, event) && Untaken(more, event, 0)
    ensures WasDelivered(history + more, event)
  {
    var owner: Worker, took: nat, sent: nat, marked: nat :| Delivery(history, event, owner, took, sent, marked);
    UntakenExtends(history, more, event, took + 1);
    assert Delivery(history + more, event, owner, took, sent, marked);
  }

  lemma ShapeExtends(history: seq<Note>, more: seq<Note>, owner: Worker, round: Round)
    requires RoundShape(history, owner, round)
    requires forall i :: 0 <= i < |more| && more[i].Sent? ==> !(round.since <= more[i].lease < round.since + |round.batch|)
    ensures RoundShape(history + more, owner, round)
  {
    var all := history + more;
    var low := round.since + round.at + (if round.answer.Some? then 1 else 0);
    forall j | 0 <= j < |all| && all[j].Sent? ensures !(low <= all[j].lease < round.since + |round.batch|) {
      if j < |history| { assert all[j] == history[j]; } else { assert all[j] == more[j - |history|]; }
    }
  }

  lemma HeldExtends(db: Db, next: Db, history: seq<Note>, more: seq<Note>, owner: Worker, round: Round)
    requires round.since + |round.batch| <= |history| && HeldIff(db, history, owner, round)
    requires forall k :: round.at <= k < |round.batch| ==>
               OwnsRow(next, round.batch[k].id, owner) == (OwnsRow(db, round.batch[k].id, owner) && Untaken(more, round.batch[k].id, 0))
    ensures HeldIff(next, history + more, owner, round)
  {
    hide Untaken, OwnsRow;
    forall k | round.at <= k < |round.batch|
      ensures OwnsRow(next, round.batch[k].id, owner) <==> Untaken(history + more, round.batch[k].id, round.since + k + 1)
    {
      UntakenExtends(history, more, round.batch[k].id, round.since + k + 1);
    }
  }

  lemma RoundFits(history: seq<Note>, o: Worker, round: Round)
    requires RoundShape(history, o, round)
    ensures round.since + |round.batch| <= |history|
  {
  }

  lemma NoMore(history: seq<Note>)
    ensures history + [] == history
  {
  }

  lemma TakesExtend(history: seq<Note>, more: seq<Note>, event: Id)
    requires Untaken(more, event, 0)
    ensures TakesOf(history + more, event) == TakesOf(history, event)
  {
    var all := history + more;
    forall i: nat ensures i in TakesOf(all, event) <==> i in TakesOf(history, event) {
      if i < |history| {
        assert all[i] == history[i];
      } else if i < |all| {
        assert all[i] == more[i - |history|];
      }
    }
  }

  /** The rows of a batch are rows of the outbox. */
  lemma BatchIsStored(sys: System, o: Worker, k: nat)
    requires RoundsOk(sys) && HistoryOk(sys) && o in sys.rounds && k < |sys.rounds[o].batch|
    ensures sys.rounds[o].batch[k].id in sys.db.outbox
  {
    assert sys.history[sys.rounds[o].since + k] == Took(o, sys.rounds[o].batch[k].id);
  }

  /** What follows for the publications and the attempts when no row is published and only these rows are leased. */
  lemma PublicationsExtend(sys: System, next: System, more: seq<Note>)
    requires PublicationsOk(sys) && next.history == sys.history + more
    requires forall i :: 0 <= i < |more| ==> !more[i].Published?
    requires forall e :: e in next.db.outbox && e !in sys.db.outbox ==> next.db.outbox[e].publishedAt == None
    requires forall e :: e in sys.db.outbox ==> e in next.db.outbox && next.db.outbox[e].publishedAt == sys.db.outbox[e].publishedAt
    requires forall e :: e in sys.db.outbox && sys.db.outbox[e].publishedAt.Some? ==> Untaken(more, e, 0)
    requires HistoryOk(sys)
    ensures PublicationsOk(next)
  {
    hide WasDelivered, Untaken;
    forall e | e in next.db.outbox && next.db.outbox[e].publishedAt.Some? ensures WasDelivered(next.history, e) {
      DeliveryExtends(sys.history, more, e);
    }
    forall k | 0 <= k < |next.history|
      ensures next.history[k] == if k < |sys.history| then sys.history[k] else more[k - |sys.history|]
    {
    }
  }

  // ---------------------------------------------------------------- other transactions

  lemma OtherKeeps(sys: System, s: Step)
    requires SystemOk(sys) && Can(sys, Other(s))
    ensures SystemOk(Do(sys, Other(s)))
  {
    hide After, Untaken, WasDelivered, RoundShape;
    var next := Do(sys, Other(s));
    OthersLeaveRows(sys.db, s);
    NoMore(sys.history);
    forall o | o in sys.rounds ensures HeldIff(next.db, sys.history, o, sys.rounds[o]) {
      forall k | sys.rounds[o].at <= k < |sys.rounds[o].batch|
        ensures OwnsRow(next.db, sys.rounds[o].batch[k].id, o) == OwnsRow(sys.db, sys.rounds[o].batch[k].id, o)
      {
        BatchIsStored(sys, o, k);
      }
    }
    assert HistoryOk(next);
    PublicationsExtend(sys, next, []) by { assert forall e :: Untaken([], e, 0) by { NothingTaken(); } }
    forall e | e in next.db.outbox ensures next.db.outbox[e].attempts == |TakesOf(sys.history, e)| {
      if e !in sys.db.outbox {
        assert TakesOf(sys.history, e) == {};
      }
    }
  }

  lemma NothingTaken()
    ensures forall e :: Untaken([], e, 0)
  {
  }

  // ---------------------------------------------------------------- a batch is leased

  lemma TakesTake(owner: Worker, batch: seq<LeasedEvent>, e: Id)
    ensures Untaken(Takes(owner, batch), e, 0) <==> e !in Ids(batch)
  {
    InIds(batch, e);
    if e in Ids(batch) {
      var k :| 0 <= k < |batch| && batch[k].id == e;
      assert Takes(owner, batch)[k] == Took(owner, e);
    }
  }

  lemma OthersAfterFetch(sys: System, owner: Worker, batch: seq<LeasedEvent>, lease: nat, o: Worker)
    requires RoundsOk(sys) && HistoryOk(sys) && MayFetch(sys.db, batch) && o in sys.rounds && o != owner
    ensures var next := Fetched(sys, owner, batch, lease);
      RoundShape(next.history, o, sys.rounds[o]) && HeldIff(next.db, next.history, o, sys.rounds[o])
  {
    hide After, Untaken, RoundShape, MayFetch, Ids;
    var next := Fetched(sys, owner, batch, lease);
    var more := Takes(owner, batch);
    FetchLeases(sys.db, owner, batch, lease);
    ShapeExtends(sys.history, more, o, sys.rounds[o]);
    forall k | sys.rounds[o].at <= k < |sys.rounds[o].batch|
      ensures var id := sys.rounds[o].batch[k].id; OwnsRow(next.db, id, o) == (OwnsRow(sys.db, id, o) && Untaken(more, id, 0))
    {
      var id := sys.rounds[o].batch[k].id;
      BatchIsStored(sys, o, k);
      TakesTake(owner, batch, id);
      InIds(batch, id);
    }
    RoundFits(sys.history, o, sys.rounds[o]);
    HeldExtends(sys.db, next.db, sys.history, more, o, sys.rounds[o]);
  }

  lemma NothingSentYet(history: seq<Note>, owner: Worker, batch: seq<LeasedEvent>)
    requires forall j :: 0 <= j < |history| && history[j].Sent? ==> history[j].lease < |history|
    ensures NotSentUnder(history + Takes(owner, batch), |history|, |history| + |batch|)
  {
    var all := history + Takes(owner, batch);
    assert forall j :: 0 <= j < |history| ==> all[j] == history[j];
    assert forall j :: |history| <= j < |all| ==> all[j].Took?;
  }

  lemma NewShape(history: seq<Note>, owner: Worker, batch: seq<LeasedEvent>)
    requires Distinct(batch) && NotSentUnder(history + Takes(owner, batch), |history|, |history| + |batch|)
    ensures RoundShape(history + Takes(owner, batch), owner, Round(batch, |history|, 0, None, 0))
  {
    hide NotSentUnder, Distinct;
    var all := history + Takes(owner, batch);
    forall k | 0 <= k < |batch| ensures all[|history| + k] == Took(owner, batch[k].id) {
      assert all[|history| + k] == Takes(owner, batch)[k];
    }
  }

  lemma NotTakenAgain(history: seq<Note>, owner: Worker, batch: seq<LeasedEvent>, k: nat)
    requires Distinct(batch) && k < |batch|
    ensures Untaken(history + Takes(owner, batch), batch[k].id, |history| + k + 1)
  {
    var all := history + Takes(owner, batch);
    forall i | |history| + k + 1 <= i < |all| ensures all[i].event != batch[k].id {
      assert all[i] == Took(owner, batch[i - |history|].id);
    }
  }

  lemma OwnAfterFetch(sys: System, owner: Worker, batch: seq<LeasedEvent>, lease: nat)
    requires HistoryOk(sys) && MayFetch(sys.db, batch)
    ensures var next := Fetched(sys, owner, batch, lease);
      RoundShape(next.history, owner, next.rounds[owner]) && HeldIff(next.db, next.history, owner, next.rounds[owner])
  {
    hide After, Ids, Untaken, RoundShape, NotSentUnder;
    var next := Fetched(sys, owner, batch, lease);
    FetchLeases(sys.db, owner, batch, lease);
    NothingSentYet(sys.history, owner, batch);
    NewShape(sys.history, owner, batch);
    forall k | 0 <= k < |batch|
      ensures OwnsRow(next.db, batch[k].id, owner) && Untaken(next.history, batch[k].id, |sys.history| + k + 1)
    {
      NotTakenAgain(sys.history, owner, batch, k);
    }
  }

  lemma AttemptsAfterFetch(sys: System, owner: Worker, batch: seq<LeasedEvent>, lease: nat)
    requires AttemptsOk(sys) && MayFetch(sys.db, batch)
    ensures AttemptsOk(Fetched(sys, owner, batch, lease))
  {
    hide After, Ids;
    var next := Fetched(sys, owner, batch, lease);
    FetchLeases(sys.db, owner, batch, lease);
    forall e | e in next.db.outbox ensures next.db.outbox[e].attempts == |TakesOf(next.history, e)| {
      TakesTake(owner, batch, e);
      InIds(batch, e);
      if e in Ids(batch) {
        var k :| 0 <= k < |batch| && batch[k].id == e;
        TakenOnce(sys.history, owner, batch, k);
      } else {
        TakesExtend(sys.history, Takes(owner, batch), e);
      }
    }
  }

  lemma TakenOnce(history: seq<Note>, owner: Worker, batch: seq<LeasedEvent>, k: nat)
    requires Distinct(batch) && k < |batch|
    ensures |TakesOf(history + Takes(owner, batch), batch[k].id)| == |TakesOf(history, batch[k].id)| + 1
  {
    var e := batch[k].id;
    var all := history + Takes(owner, batch);
    forall i: nat ensures i in TakesOf(all, e) <==> i in TakesOf(history, e) + {|history| + k} {
      if i < |history| {
        assert all[i] == history[i];
      } else if i < |all| {
        assert all[i] == Took(owner, batch[i - |history|].id);
      }
    }
    assert TakesOf(all, e) == TakesOf(history, e) + {|history| + k};
  }

  lemma HistoryAfterFetch(sys: System, owner: Worker, batch: seq<LeasedEvent>, lease: nat)
    requires HistoryOk(sys) && MayFetch(sys.db, batch)
    ensures HistoryOk(Fetched(sys, owner, batch, lease))
  {
    hide After, Ids;
    var next := Fetched(sys, owner, batch, lease);
    FetchLeases(sys.db, owner, batch, lease);
    forall i | 0 <= i < |next.history|
      ensures next.history[i].event in next.db.outbox
      ensures next.history[i].Sent? ==> i < |sys.history| && next.history[i] == sys.history[i]
    {
      if i >= |sys.history| {
        assert next.history[i] == Took(owner, batch[i - |sys.history|].id);
      }
    }
  }

  lemma FetchKeeps(sys: System, owner: Worker, batch: seq<LeasedEvent>, lease: nat)
    requires SystemOk(sys) && Can(sys, Fetch(owner, batch, lease))
    ensures SystemOk(Do(sys, Fetch(owner, batch, lease)))
  {
    hide After, Untaken, WasDelivered, RoundShape, HeldIff, HistoryOk, AttemptsOk, Ids, MayFetch;
    var next := Fetched(sys, owner, batch, lease);
    forall o | o in sys.rounds && o != owner
      ensures RoundShape(next.history, o, sys.rounds[o]) && HeldIff(next.db, next.history, o, sys.rounds[o])
    {
      OthersAfterFetch(sys, owner, batch, lease, o);
    }
    OwnAfterFetch(sys, owner, batch, lease);
    HistoryAfterFetch(sys, owner, batch, lease);
    AttemptsAfterFetch(sys, owner, batch, lease);
    FetchLeases(sys.db, owner, batch, lease);
    forall e | e in sys.db.outbox
      ensures next.db.outbox[e].publishedAt == sys.db.outbox[e].publishedAt
      ensures sys.db.outbox[e].publishedAt.Some? ==> Untaken(Takes(owner, batch), e, 0)
    {
      TakesTake(owner, batch, e);
      InIds(batch, e);
    }
    PublicationsExtend(sys, next, Takes(owner, batch));
  }

  // ---------------------------------------------------------------- a row is delivered

  lemma NotTaken(note: Note)
    requires !note.Took?
    ensures forall e :: Untaken([note], e, 0)
  {
  }

  lemma WindowIsOwn(history: seq<Note>, o: Worker, round: Round, i: nat)
    requires RoundShape(history, o, round) && i < |history|
    ensures round.since <= i < round.since + |round.batch| ==> history[i].owner == o
  {
    if round.since <= i < round.since + |round.batch| {
      assert history[round.since + (i - round.since)] == Took(o, round.batch[i - round.since].id);
    }
  }

  lemma RoundsAfterSend(sys: System, owner: Worker, accepted: bool, o: Worker)
    requires RoundsOk(sys) && Can(sys, Send(owner, accepted)) && o in sys.rounds && o != owner
    ensures var next := Posted(sys, owner, accepted);
      RoundShape(next.history, o, sys.rounds[o]) && HeldIff(next.db, next.history, o, sys.rounds[o])
  {
    hide Untaken, NotSentUnder;
    var own := sys.rounds[owner];
    var round := sys.rounds[o];
    var note := Sent(owner, own.batch[own.at].id, accepted, own.since + own.at);
    NotTaken(note);
    assert sys.history[own.since + own.at] == Took(owner, own.batch[own.at].id);
    WindowIsOwn(sys.history, o, round, note.lease);
    ShapeExtends(sys.history, [note], o, round);
    HeldExtends(sys.db, sys.db, sys.history, [note], o, round);
  }

  lemma OwnAfterSend(sys: System, owner: Worker, accepted: bool)
    requires RoundsOk(sys) && Can(sys, Send(owner, accepted))
    ensures var next := Posted(sys, owner, accepted);
      RoundShape(next.history, owner, next.rounds[owner]) && HeldIff(next.db, next.history, owner, next.rounds[owner])
  {
    hide Untaken;
    var own := sys.rounds[owner];
    var next := Posted(sys, owner, accepted);
    var note := Sent(owner, own.batch[own.at].id, accepted, own.since + own.at);
    NotTaken(note);
    HeldExtends(sys.db, sys.db, sys.history, [note], owner, own);
    forall j | 0 <= j < |next.history| && next.history[j].Sent?
      ensures !(own.since + own.at + 1 <= next.history[j].lease < own.since + |own.batch|)
    {
      if j < |sys.history| { assert next.history[j] == sys.history[j]; }
    }
  }

  lemma HistoryAfterSend(sys: System, owner: Worker, accepted: bool)
    requires RoundsOk(sys) && HistoryOk(sys) && Can(sys, Send(owner, accepted))
    ensures HistoryOk(Posted(sys, owner, accepted))
  {
    hide HeldIff;
    var own := sys.rounds[owner];
    var next := Posted(sys, owner, accepted);
    assert sys.history[own.since + own.at] == Took(owner, own.batch[own.at].id);
    forall j | 0 <= j < |sys.history| ensures next.history[j] == sys.history[j] {}
  }

  lemma SendKeeps(sys: System, owner: Worker, accepted: bool)
    requires SystemOk(sys) && Can(sys, Send(owner, accepted))
    ensures SystemOk(Do(sys, Send(owner, accepted)))
  {
    hide Untaken, WasDelivered, RoundShape, HeldIff, HistoryOk;
    var own := sys.rounds[owner];
    var next := Posted(sys, owner, accepted);
    var note := Sent(owner, SentRow(sys, owner), accepted, own.since + own.at);
    assert next.history == sys.history + [note];
    NotTaken(note);
    forall o | o in sys.rounds && o != owner
      ensures RoundShape(next.history, o, sys.rounds[o]) && HeldIff(next.db, next.history, o, sys.rounds[o])
    {
      RoundsAfterSend(sys, owner, accepted, o);
    }
    OwnAfterSend(sys, owner, accepted);
    HistoryAfterSend(sys, owner, accepted);
    PublicationsExtend(sys, next, [note]);
    forall e | e in next.db.outbox ensures next.db.outbox[e].attempts == |TakesOf(next.history, e)| {
      TakesExtend(sys.history, [note], e);
    }
  }

  function SentRow(sys: System, owner: Worker): Id
    requires IsBusy(sys, owner)
  {
    sys.rounds[owner].batch[sys.rounds[owner].at].id
  }

  // ---------------------------------------------------------------- a delivery is reported on

  /** What a report adds to the history. */
  function Marks(sys: System, owner: Worker): seq<Note>
    requires IsBusy(sys, owner) && sys.rounds[owner].answer.Some?
  {
    if sys.rounds[owner].answer.value && OwnsRow(sys.db, SentRow(sys, owner), owner) then [Published(owner, SentRow(sys, owner))] else []
  }

  lemma MarksTakeNothing(sys: System, owner: Worker)
    requires IsBusy(sys, owner) && sys.rounds[owner].answer.Some?
    ensures forall e :: Untaken(Marks(sys, owner), e, 0)
    ensures Settled(sys, owner).history == sys.history + Marks(sys, owner)
  {
    hide After;
  }

  lemma ShapeAfterReport(sys: System, owner: Worker, o: Worker)
    requires RoundsOk(sys) && Can(sys, Report(owner)) && o in sys.rounds
    ensures RoundShape(Settled(sys, owner).history, o, Settled(sys, owner).rounds[o])
  {
    hide After, HeldIff, ReportStep, RoundShape;
    var round := sys.rounds[o];
    MarksTakeNothing(sys, owner);
    ShapeExtends(sys.history, Marks(sys, owner), o, round);
    if o == owner {
      AdvancedShape(Settled(sys, owner).history, o, round);
    }
  }

  lemma RowAfterReport(sys: System, owner: Worker, o: Worker, k: nat)
    requires RoundsOk(sys) && HistoryOk(sys) && Can(sys, Report(owner)) && o in sys.rounds
    requires Settled(sys, owner).rounds[o].at <= k < |sys.rounds[o].batch|
    ensures var id := sys.rounds[o].batch[k].id; OwnsRow(Settled(sys, owner).db, id, o) == OwnsRow(sys.db, id, o)
  {
    hide After, HeldIff, ReportStep, RoundShape;
    ReportMoves(sys.db, owner, sys.rounds[owner]);
    BatchIsStored(sys, o, k);
    if o == owner {
      DistinctRows(sys.history, o, sys.rounds[o], k);
    }
  }

  lemma HeldAfterReport(sys: System, owner: Worker, o: Worker)
    requires RoundsOk(sys) && HistoryOk(sys) && Can(sys, Report(owner)) && o in sys.rounds
    ensures HeldIff(Settled(sys, owner).db, Settled(sys, owner).history, o, Settled(sys, owner).rounds[o])
  {
    hide After, Untaken, ReportStep, RoundShape, OwnsRow;
    var next := Settled(sys, owner);
    MarksTakeNothing(sys, owner);
    forall k | next.rounds[o].at <= k < |sys.rounds[o].batch|
      ensures var id := sys.rounds[o].batch[k].id; OwnsRow(next.db, id, o) == OwnsRow(sys.db, id, o)
    {
      RowAfterReport(sys, owner, o, k);
    }
    RoundFits(sys.history, o, sys.rounds[o]);
    HeldExtends(sys.db, next.db, sys.history, Marks(sys, owner), o, next.rounds[o]);
  }

  lemma DistinctRows(history: seq<Note>, o: Worker, round: Round, k: nat)
    requires RoundShape(history, o, round) && round.at < k < |round.batch|
    ensures round.batch[round.at].id != round.batch[k].id
  {
  }

  lemma AdvancedShape(history: seq<Note>, o: Worker, round: Round)
    requires RoundShape(history, o, round) && round.answer.Some?
    ensures RoundShape(history, o, round.(at := round.at + 1, answer := None))
  {
  }

  /** The publications after one row more was marked. */
  lemma OneMorePublished(sys: System, next: System, owner: Worker, event: Id)
    requires PublicationsOk(sys) && HistoryOk(sys) && next.history == sys.history + [Published(owner, event)]
    requires next.db.outbox.Keys == sys.db.outbox.Keys && OwnsRow(sys.db, event, owner)
    requires next.db.outbox[event].publishedAt.Some? && WasDelivered(next.history, event)
    requires forall e :: e in sys.db.outbox && e != event ==> next.db.outbox[e] == sys.db.outbox[e]
    ensures PublicationsOk(next)
  {
    hide WasDelivered, Untaken;
    NotTaken(Published(owner, event));
    forall e | e in next.db.outbox && next.db.outbox[e].publishedAt.Some? && e != event ensures WasDelivered(next.history, e) {
      DeliveryExtends(sys.history, [Published(owner, event)], e);
    }
    forall k | 0 <= k < |sys.history| ensures next.history[k] == sys.history[k] {}
  }

  lemma PublicationsAfterReport(sys: System, owner: Worker)
    requires RoundsOk(sys) && HistoryOk(sys) && PublicationsOk(sys) && Can(sys, Report(owner))
    ensures PublicationsOk(Settled(sys, owner))
  {
    hide After, Untaken, ReportStep, RoundsOk, HistoryOk, PublicationsOk, WasDelivered;
    var next := Settled(sys, owner);
    MarksTakeNothing(sys, owner);
    ReportMoves(sys.db, owner, sys.rounds[owner]);
    if Marks(sys, owner) == [] {
      NoMore(sys.history);
      PublicationsExtend(sys, next, []);
    } else {
      ReportPublishes(sys, owner);
      OneMorePublished(sys, next, owner, SentRow(sys, owner));
    }
  }

  lemma ReportPublishes(sys: System, owner: Worker)
    requires RoundsOk(sys) && Can(sys, Report(owner)) && Marks(sys, owner) != []
    ensures WasDelivered(Settled(sys, owner).history, SentRow(sys, owner))
  {
    hide After, Untaken, ReportStep, NotSentUnder;
    var next := Settled(sys, owner);
    var round := sys.rounds[owner];
    MarksTakeNothing(sys, owner);
    UntakenExtends(sys.history, Marks(sys, owner), SentRow(sys, owner), round.since + round.at + 1);
    assert sys.history[round.since + round.at] == Took(owner, SentRow(sys, owner));
    assert Delivery(next.history, SentRow(sys, owner), owner, round.since + round.at, round.sentAt, |sys.history|);
  }

  lemma HistoryAfterReport(sys: System, owner: Worker)
    requires HistoryOk(sys) && Can(sys, Report(owner))
    ensures HistoryOk(Settled(sys, owner))
  {
    hide After, ReportStep;
    var next := Settled(sys, owner);
    MarksTakeNothing(sys, owner);
    ReportMoves(sys.db, owner, sys.rounds[owner]);
    forall k | 0 <= k < |sys.history| ensures next.history[k] == sys.history[k] {}
  }

  lemma AttemptsAfterReport(sys: System, owner: Worker)
    requires AttemptsOk(sys) && Can(sys, Report(owner))
    ensures AttemptsOk(Settled(sys, owner))
  {
    hide After, ReportStep, TakesOf, Untaken;
    var next := Settled(sys, owner);
    MarksTakeNothing(sys, owner);
    ReportMoves(sys.db, owner, sys.rounds[owner]);
    forall e | e in next.db.outbox ensures next.db.outbox[e].attempts == |TakesOf(next.history, e)| {
      TakesExtend(sys.history, Marks(sys, owner), e);
    }
  }

  lemma ReportKeeps(sys: System, owner: Worker)
    requires SystemOk(sys) && Can(sys, Report(owner))
    ensures SystemOk(Do(sys, Report(owner)))
  {
    hide After, RoundShape, HeldIff, PublicationsOk, HistoryOk, AttemptsOk, ReportStep;
    var next := Settled(sys, owner);
    forall o | o in next.rounds
      ensures RoundShape(next.history, o, next.rounds[o]) && HeldIff(next.db, next.history, o, next.rounds[o])
    {
      ShapeAfterReport(sys, owner, o);
      HeldAfterReport(sys, owner, o);
    }
    PublicationsAfterReport(sys, owner);
    HistoryAfterReport(sys, owner);
    AttemptsAfterReport(sys, owner);
  }

  // ---------------------------------------------------------------- every run

  lemma MoveKeeps(sys: System, m: Move)
    requires SystemOk(sys)
    ensures SystemOk(Do(sys, m))
  {
    hide SystemOk, Fetched, Posted, Settled, After;
    if Can(sys, m) {
      match m
      case Other(s) => OtherKeeps(sys, s);
      case Fetch(owner, batch, lease) => FetchKeeps(sys, owner, batch, lease);
      case Send(owner, accepted) => SendKeeps(sys, owner, accepted);
      case Report(owner) => ReportKeeps(sys, owner);
      case Crash(owner) => CrashKeeps(sys, owner);
    }
  }

  lemma CrashKeeps(sys: System, owner: Worker)
    requires SystemOk(sys) && Can(sys, Crash(owner))
    ensures SystemOk(Do(sys, Crash(owner)))
  {
    hide RoundShape, HeldIff, WasDelivered;
  }

  lemma {:induction false} RunKeeps(moves: seq<Move>)
    ensures SystemOk(Run(moves))
    decreases |moves|
  {
    hide Do;
    if moves != [] {
      hide SystemOk;
      RunKeeps(moves[..|moves| - 1]);
      MoveKeeps(Run(moves[..|moves| - 1]), moves[|moves| - 1]);
    }
  }

  // ---------------------------------------------------------------- what it means

  /** Whoever runs, stops or comes late: a row is published only after its owner leased it, delivered it with success under
      that lease and then marked it, and nobody leased it in between or since. */
  lemma PublishedWereDelivered(moves: seq<Move>, event: Id) returns (owner: Worker, took: nat, sent: nat, marked: nat)
    requires var db := Run(moves).db; event in db.outbox && db.outbox[event].publishedAt.Some?
    ensures var history := Run(moves).history;
      && took < sent < marked < |history|
      && history[took] == Took(owner, event)
      && history[sent] == Sent(owner, event, true, took)
      && history[marked] == Published(owner, event)
      && Untaken(history, event, took + 1)
      && forall k :: 0 <= k < |history| && history[k].Published? && history[k].event == event ==> k == marked
  {
    hide Run, RoundsOk, HistoryOk, AttemptsOk, Untaken;
    RunKeeps(moves);
    assert WasDelivered(Run(moves).history, event);
    owner, took, sent, marked :| Delivery(Run(moves).history, event, owner, took, sent, marked);
  }

  /** The report on a delivery is stored exactly when nobody has leased the row since this owner did, however long ago that
      lease lapsed; otherwise it conflicts and changes nothing. */
  lemma ReportCountsIff(moves: seq<Move>, owner: Worker)
    requires IsBusy(Run(moves), owner)
    ensures var sys := Run(moves); var round := sys.rounds[owner]; var event := round.batch[round.at].id;
      && round.since + round.at < |sys.history| && sys.history[round.since + round.at] == Took(owner, event)
      && (if Untaken(sys.history, event, round.since + round.at + 1)
          then Succeeds(sys.db, MarkOutboxPublished(event, owner)) && forall delay :: Succeeds(sys.db, FailOutbox(event, owner, delay))
          else && Apply(sys.db, MarkOutboxPublished(event, owner)) == (sys.db, Conflict)
               && forall delay :: Apply(sys.db, FailOutbox(event, owner, delay)) == (sys.db, Conflict))
  {
    hide Run, HistoryOk, AttemptsOk, PublicationsOk, Untaken, NotSentUnder;
    RunKeeps(moves);
    var sys := Run(moves);
    var round := sys.rounds[owner];
    assert RoundShape(sys.history, owner, round) && HeldIff(sys.db, sys.history, owner, round);
  }

  /** No row reaches the webhook more often than it was leased, which is at most twenty times. */
  lemma DeliveriesAreBounded(moves: seq<Move>, event: Id)
    requires event in Run(moves).db.outbox
    ensures |SendsOf(Run(moves).history, event)| <= |TakesOf(Run(moves).history, event)| == Run(moves).db.outbox[event].attempts
    ensures Run(moves).db.outbox[event].attempts <= MAX_OUTBOX_ATTEMPTS
  {
    hide Run, AllSteps, RoundsOk, PublicationsOk;
    RunKeeps(moves);
    RunIsExecution(moves);
    var history := Run(moves).history;
    LeasesOfSends(history, event, SendsOf(history, event));
  }

  lemma {:induction false} LeasesOfSends(history: seq<Note>, event: Id, sends: set<nat>)
    requires sends <= SendsOf(history, event)
    requires forall j :: j in SendsOf(history, event) ==> history[j].lease in TakesOf(history, event)
    requires forall i, j :: i in SendsOf(history, event) && j in SendsOf(history, event) && i != j ==> history[i].lease != history[j].lease
    ensures |sends| <= |TakesOf(history, event)|
  {
    var leases := set j | j in sends :: history[j].lease;
    ImageSize(history, event, sends);
    assert leases <= TakesOf(history, event);
    SubsetSize(leases, TakesOf(history, event));
  }

  lemma {:induction false} ImageSize(history: seq<Note>, event: Id, sends: set<nat>)
    requires sends <= SendsOf(history, event)
    requires forall i, j :: i in sends && j in sends && i != j ==> history[i].lease != history[j].lease
    ensures |set j | j in sends :: history[j].lease| == |sends|
    decreases |sends|
  {
    if sends != {} {
      var j :| j in sends;
      ImageSize(history, event, sends - {j});
      assert (set i | i in sends :: history[i].lease) == (set i | i in sends - {j} :: history[i].lease) + {history[j].lease};
    }
  }

  /** A delivery that was not answered with success leaves its event unpublished, and due again after a delay that grows with
      the attempts, unless somebody has leased it since; one that was is published. */
  lemma AnswerDecides(moves: seq<Move>, owner: Worker)
    requires IsBusy(Run(moves), owner) && Run(moves).rounds[owner].answer.Some?
    requires var round := Run(moves).rounds[owner]; Untaken(Run(moves).history, round.batch[round.at].id, round.since + round.at + 1)
    ensures var sys, next := Run(moves), Run(moves + [Report(owner)]); var round := sys.rounds[owner]; var event := round.batch[round.at];
      && event.id in sys.db.outbox && event.id in next.db.outbox
      && (var before, after := sys.db.outbox[event.id], next.db.outbox[event.id];
          if round.answer == Some(true) then after == before.(publishedAt := Some(sys.db.now), owner := None, leaseUntil := None)
          else after == before.(nextAttemptAt := sys.db.now + RetryDelay(event.attempts + 1), owner := None, leaseUntil := None)
               && after.publishedAt == None)
  {
    hide Run, Untaken, RetryDelay, HistoryOk, AttemptsOk, PublicationsOk, NotSentUnder;
    RunKeeps(moves);
    OneMoreMove(moves, Report(owner));
    var sys := Run(moves);
    var round := sys.rounds[owner];
    assert OwnsRow(sys.db, round.batch[round.at].id, owner);
  }

  lemma OneMoreMove(moves: seq<Move>, m: Move)
    ensures Run(moves + [m]) == Do(Run(moves), m)
  {
    hide Do;
    assert (moves + [m])[..|moves|] == moves;
  }
}
