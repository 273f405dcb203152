/** When the webhook has seen the last of an event. */
module Deliveries {
  import opened ControlPlane
  import opened Publishers
  import opened Repository
  import opened Wrappers

  /** Some publisher has the event in its batch and has not posted it yet. */
  ghost predicate IsUnsent(sys: System, event: Id) {
    exists o, k :: o in sys.rounds && IsAhead(sys.rounds[o], k) && sys.rounds[o].batch[k].id == event
  }

  predicate IsAhead(round: Round, k: int) {
    0 <= round.at <= k < |round.batch| && (round.answer.Some? ==> round.at < k)
  }

  /** Nobody will lease the event again, and nobody who has leased it has still to post it. */
  ghost predicate IsOver(sys: System, event: Id)
    requires event in sys.db.outbox
  {
    var row := sys.db.outbox[event];
    (row.publishedAt.Some? || row.attempts >= MAX_OUTBOX_ATTEMPTS) && !IsUnsent(sys, event)
  }

  // ---------------------------------------------------------------- runs go on

  lemma {:induction false} PlayOn(sys: System, first: seq<Move>, second: seq<Move>)
    ensures Play(sys, first + second) == Play(Play(sys, first), second)
    decreases |second|
  {
    hide Do;
    if second == [] {
      assert first + second == first;
    } else {
      PlayOn(sys, first, second[..|second| - 1]);
      assert (first + second)[..|first + second| - 1] == first + second[..|second| - 1];
    }
  }

  lemma PlayOne(sys: System, m: Move)
    ensures Play(sys, [m]) == Do(sys, m)
  {
    hide Do;
    assert [m][..0] == [];
  }

  lemma {:induction false} HistoryGrows(sys: System, moves: seq<Move>)
    ensures sys.history <= Play(sys, moves).history
    decreases |moves|
  {
    hide Do, Can;
    if moves != [] {
      HistoryGrows(sys, moves[..|moves| - 1]);
      MoveAddsNotes(Play(sys, moves[..|moves| - 1]), moves[|moves| - 1]);
    }
  }

  lemma MoveAddsNotes(sys: System, m: Move)
    ensures sys.history <= Do(sys, m).history
  {
    hide After, ReportStep;
  }

  // ---------------------------------------------------------------- over is for good

  lemma SendsExtend(history: seq<Note>, more: seq<Note>, event: Id)
    requires forall i :: 0 <= i < |more| && more[i].Sent? ==> more[i].event != event
    ensures SendsOf(history + more, event) == SendsOf(history, event)
  {
    var all := history + more;
    forall i: nat ensures i in SendsOf(all, event) <==> i in SendsOf(history, event) {
      if i < |history| {
        assert all[i] == history[i];
      } else if i < |all| {
        assert all[i] == more[i - |history|];
      }
    }
  }

  /** Only a report or a lease changes a row, and neither takes back what makes it over. */
  lemma RowStaysOver(sys: System, m: Move, event: Id)
    requires event in sys.db.outbox
    requires sys.db.outbox[event].publishedAt.Some? || sys.db.outbox[event].attempts >= MAX_OUTBOX_ATTEMPTS
    ensures var next := Do(sys, m).db;
      event in next.outbox && (next.outbox[event].publishedAt.Some? || next.outbox[event].attempts >= MAX_OUTBOX_ATTEMPTS)
    ensures m.Fetch? && Can(sys, m) ==> event !in Ids(m.batch)
  {
    hide After, Ids, ReportStep;
    if Can(sys, m) {
      match m
      case Other(s) => OthersLeaveRows(sys.db, s);
      case Fetch(owner, batch, lease) =>
        FetchLeases(sys.db, owner, batch, lease);
        InIds(batch, event);
      case Report(owner) => ReportMoves(sys.db, owner, sys.rounds[owner]);
      case _ =>
    }
  }

  lemma NothingMoreAhead(sys: System, m: Move, event: Id)
    requires !IsUnsent(sys, event) && (m.Fetch? && Can(sys, m) ==> event !in Ids(m.batch))
    ensures !IsUnsent(Do(sys, m), event)
  {
    hide After, Ids, ReportStep, MayFetch;
    var next := Do(sys, m);
    forall o, k | o in next.rounds && IsAhead(next.rounds[o], k) ensures next.rounds[o].batch[k].id != event {
      if m.Fetch? && Can(sys, m) && o == m.owner {
        InIds(m.batch, event);
      } else {
        assert o in sys.rounds && IsAhead(sys.rounds[o], k) && next.rounds[o].batch == sys.rounds[o].batch;
      }
    }
  }

  lemma NoMorePosts(sys: System, m: Move, event: Id)
    requires !IsUnsent(sys, event)
    ensures SendsOf(Do(sys, m).history, event) == SendsOf(sys.history, event)
  {
    hide After, SendsOf, MayFetch;
    if Can(sys, m) {
      match m
      case Fetch(owner, batch, lease) => SendsExtend(sys.history, Takes(owner, batch), event);
      case Send(owner, accepted) =>
        var round := sys.rounds[owner];
        assert IsAhead(round, round.at);
        SendsExtend(sys.history, [Sent(owner, round.batch[round.at].id, accepted, round.since + round.at)], event);
      case Report(owner) =>
        MarksTakeNothing(sys, owner);
        SendsExtend(sys.history, Marks(sys, owner), event);
      case _ =>
    }
  }

  lemma {:induction false} OverStays(sys: System, moves: seq<Move>, event: Id)
    requires event in sys.db.outbox && IsOver(sys, event)
    ensures var next := Play(sys, moves);
      event in next.db.outbox && IsOver(next, event) && SendsOf(next.history, event) == SendsOf(sys.history, event)
    decreases |moves|
  {
    hide Do, Can, IsUnsent, SendsOf, Ids;
    if moves != [] {
      var before, m := Play(sys, moves[..|moves| - 1]), moves[|moves| - 1];
      OverStays(sys, moves[..|moves| - 1], event);
      RowStaysOver(before, m, event);
      NothingMoreAhead(before, m, event);
      NoMorePosts(before, m, event);
    }
  }

  // ---------------------------------------------------------------- otherwise it may be posted again

  /** The event is posted somewhere along these moves. */
  ghost predicate Posts(sys: System, moves: seq<Move>, event: Id) {
    exists j :: |sys.history| <= j < |Play(sys, moves).history|
                && Play(sys, moves).history[j].Sent? && Play(sys, moves).history[j].event == event
  }

  lemma PostsLater(sys: System, m: Move, moves: seq<Move>, event: Id)
    requires Posts(Do(sys, m), moves, event)
    ensures Posts(sys, [m] + moves, event)
  {
    hide Do, Play;
    PlayOn(sys, [m], moves);
    PlayOne(sys, m);
    MoveAddsNotes(sys, m);
    var next := Do(sys, m);
    var j :| |next.history| <= j < |Play(next, moves).history|
             && Play(next, moves).history[j].Sent? && Play(next, moves).history[j].event == event;
    assert Play(sys, [m] + moves).history[j].Sent?;
  }

  lemma PostsNow(sys: System, o: Worker)
    requires IsBusy(sys, o) && sys.rounds[o].answer == None
    ensures Posts(sys, [Send(o, true)], SentRow(sys, o))
  {
    hide Play;
    PlayOne(sys, Send(o, true));
    var all := Play(sys, [Send(o, true)]).history;
    var note := Sent(o, SentRow(sys, o), true, sys.rounds[o].since + sys.rounds[o].at);
    assert all == sys.history + [note];
    assert all[|sys.history|] == note;
  }

  /** A publisher that goes on posts every row that is ahead of it. */
  lemma {:induction false} ItsTurnComes(sys: System, o: Worker, k: nat) returns (moves: seq<Move>)
    requires o in sys.rounds && IsAhead(sys.rounds[o], k)
    ensures Posts(sys, moves, sys.rounds[o].batch[k].id)
    decreases 2 * (k - sys.rounds[o].at) - (if sys.rounds[o].answer.Some? then 1 else 0)
  {
    hide Posts, Play, After, ReportStep;
    var round := sys.rounds[o];
    if round.answer == None && k == round.at {
      PostsNow(sys, o);
      moves := [Send(o, true)];
    } else {
      var m := if round.answer.Some? then Report(o) else Send(o, true);
      var rest := ItsTurnComes(Do(sys, m), o, k);
      PostsLater(sys, m, rest, round.batch[k].id);
      moves := [m] + rest;
    }
  }

  lemma {:induction false} AnotherName(names: set<Worker>) returns (o: Worker)
    ensures forall n :: n in names ==> n < o
    decreases |names|
  {
    if names == {} {
      o := 0;
    } else {
      var n :| n in names;
      var rest := AnotherName(names - {n});
      o := if n < rest then rest else n + 1;
      forall m | m in names ensures m < o {
        if m != n {
          assert m in names - {n};
        }
      }
    }
  }

  lemma TickOnly(sys: System, elapsed: nat)
    ensures Do(sys, Other(Tick(elapsed))) == sys.(db := sys.db.(now := sys.db.now + elapsed))
  {
  }

  lemma FreshRound(sys: System, o: Worker, row: LeasedEvent)
    requires o !in sys.rounds && IsCandidate(sys.db.outbox, {}, sys.db.now, row)
    ensures Posts(sys, [Fetch(o, [row], 0), Send(o, true)], row.id)
  {
    hide After, Ids, Posts, Sendable;
    var next := Do(sys, Fetch(o, [row], 0));
    assert MayFetch(sys.db, [row]);
    assert next.rounds[o] == Round([row], |sys.history|, 0, None, 0);
    PostsNow(next, o);
    PostsLater(sys, Fetch(o, [row], 0), [Send(o, true)], row.id);
    assert [Fetch(o, [row], 0)] + [Send(o, true)] == [Fetch(o, [row], 0), Send(o, true)];
  }

  /** An unpublished row with attempts left is leased and posted by the next publisher that comes late enough. */
  lemma LeasedAgain(sys: System, event: Id) returns (moves: seq<Move>)
    requires event in sys.db.outbox
    requires sys.db.outbox[event].publishedAt == None && sys.db.outbox[event].attempts < MAX_OUTBOX_ATTEMPTS
    ensures Posts(sys, moves, event)
  {
    hide Do, Posts;
    var row := sys.db.outbox[event];
    var wait := if row.nextAttemptAt > sys.db.now then row.nextAttemptAt - sys.db.now else 0;
    var lapse := if row.leaseUntil.Some? && row.leaseUntil.value >= sys.db.now then row.leaseUntil.value - sys.db.now + 1 else 0;
    var elapsed: nat := wait + lapse;
    var later := sys.(db := sys.db.(now := sys.db.now + elapsed));
    TickOnly(sys, elapsed);
    var o := AnotherName(sys.rounds.Keys);
    var leased := LeasedEvent(event, row.attempts);
    FreshRound(later, o, leased);
    PostsLater(sys, Other(Tick(elapsed)), [Fetch(o, [leased], 0), Send(o, true)], event);
    moves := [Other(Tick(elapsed))] + [Fetch(o, [leased], 0), Send(o, true)];
  }

  lemma NotOverPosts(sys: System, event: Id) returns (moves: seq<Move>)
    requires event in sys.db.outbox && !IsOver(sys, event)
    ensures Posts(sys, moves, event)
  {
    hide Posts;
    if IsUnsent(sys, event) {
      var o, k :| o in sys.rounds && IsAhead(sys.rounds[o], k) && sys.rounds[o].batch[k].id == event;
      moves := ItsTurnComes(sys, o, k);
    } else {
      moves := LeasedAgain(sys, event);
    }
  }

  lemma PostedIsMore(sys: System, moves: seq<Move>, event: Id)
    ensures SendsOf(sys.history, event) <= SendsOf(Play(sys, moves).history, event)
    ensures Posts(sys, moves, event) ==> SendsOf(Play(sys, moves).history, event) != SendsOf(sys.history, event)
  {
    hide Play;
    HistoryGrows(sys, moves);
    var all := Play(sys, moves).history;
    if Posts(sys, moves, event) {
      var j: int :| |sys.history| <= j < |all| && all[j].Sent? && all[j].event == event;
      assert j in SendsOf(all, event) && j !in SendsOf(sys.history, event);
    }
  }

  // ---------------------------------------------------------------- exactly when

  /** The webhook is done with an event, whatever happens from here on, exactly when its row is published or out of attempts
      and no publisher has it unsent in its batch. */
  lemma OverIff(moves: seq<Move>, event: Id)
    requires event in Publishers.Run(moves).db.outbox
    ensures (forall more :: SendsOf(Publishers.Run(moves + more).history, event) == SendsOf(Publishers.Run(moves).history, event))
            <==> IsOver(Publishers.Run(moves), event)
  {
    hide Play, IsOver, SendsOf, Posts;
    var sys := Publishers.Run(moves);
    if IsOver(sys, event) {
      forall more ensures SendsOf(Publishers.Run(moves + more).history, event) == SendsOf(sys.history, event) {
        PlayOn(IDLE, moves, more);
        OverStays(sys, more, event);
      }
    } else {
      var more := NotOverPosts(sys, event);
      PlayOn(IDLE, moves, more);
      PostedIsMore(sys, more, event);
    }
  }

  /** An event that was delivered once stays delivered once in every continuation exactly then. */
  lemma DeliveredOnceIff(moves: seq<Move>, event: Id)
    requires event in Publishers.Run(moves).db.outbox && |SendsOf(Publishers.Run(moves).history, event)| == 1
    ensures (forall more :: |SendsOf(Publishers.Run(moves + more).history, event)| == 1) <==> IsOver(Publishers.Run(moves), event)
  {
    hide Play, IsOver, SendsOf;
    var sys := Publishers.Run(moves);
    OverIff(moves, event);
    forall more
      ensures |SendsOf(Publishers.Run(moves + more).history, event)| == 1 <==>
              SendsOf(Publishers.Run(moves + more).history, event) == SendsOf(sys.history, event)
    {
      PlayOn(IDLE, moves, more);
      PostedIsMore(sys, more, event);
      SubsetSize(SendsOf(sys.history, event), SendsOf(Publishers.Run(moves + more).history, event));
    }
  }
}
