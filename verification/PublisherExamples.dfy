/** Publishers that get in each other's way. */
module PublisherExamples {
  import opened ControlPlane
  import opened ControlPlaneExamples
  import opened Repository
  import opened Wrappers

  import D = Deliveries
  import P = Publishers

  // ---------------------------------------------------------------- an event delivered twice

  const ROW := LeasedEvent(1, 0)
  const HELD := CREATED.(outbox := map[1 := LeaseRow(Unsent(1, 0), 7, 10)])
  const TAKEN := HELD.(now := 11, outbox := map[1 := LeaseRow(LeaseRow(Unsent(1, 0), 7, 10), 8, 21)])
  const DONE := TAKEN.(outbox := map[1 := LeaseRow(LeaseRow(Unsent(1, 0), 7, 10), 8, 21)
                                            .(publishedAt := Some(11), owner := None, leaseUntil := None)])
  const FIRST := P.Round([ROW], 0, 0, Some(true), 1)
  const SECOND := P.Round([LeasedEvent(1, 1)], 2, 0, None, 0)
  const SLOW := P.System(HELD, map[7 := FIRST], [P.Took(7, 1), P.Sent(7, 1, true, 0)])
  const TWICE := P.System(DONE, map[7 := FIRST, 8 := P.Round([LeasedEvent(1, 1)], 2, 1, None, 3)],
                          SLOW.history + [P.Took(8, 1), P.Sent(8, 1, true, 2), P.Published(8, 1)])

  const SLOW_MOVES := [P.Other(CreateRun(1, NO_KEY, 1, None, 1, 1, 1, None)), P.Fetch(7, [ROW], 10), P.Send(7, true)]
  const LATE_MOVES := [P.Other(Tick(11)), P.Fetch(8, [LeasedEvent(1, 1)], 10), P.Send(8, true), P.Report(8)]

  lemma Moves(moves: seq<P.Move>, m: P.Move)
    ensures P.Run(moves + [m]) == P.Do(P.Run(moves), m)
  {
    assert (moves + [m])[..|moves|] == moves;
  }

  lemma OneId(row: LeasedEvent)
    ensures Ids([row]) == {row.id}
  {
    assert [row][0] == row;
  }

  lemma FirstFetch()
    ensures P.Do(P.System(CREATED, map[], []), P.Fetch(7, [ROW], 10))
         == P.System(HELD, map[7 := FIRST.(answer := None, sentAt := 0)], [P.Took(7, 1)])
  {
    hide Ids;
    OneId(ROW);
    assert P.MayFetch(CREATED, [ROW]);
    assert P.Takes(7, [ROW]) == [P.Took(7, 1)];
  }

  lemma SlowRun()
    ensures P.Run(SLOW_MOVES) == SLOW
  {
    hide P.Do, P.Run, Apply;
    assert P.Run([]) == P.IDLE by { EmptyRun(); }
    Creates();
    OtherMove(P.IDLE, SLOW_MOVES[0].step);
    Moves([], SLOW_MOVES[0]);
    Moves([SLOW_MOVES[0]], SLOW_MOVES[1]);
    FirstFetch();
    Moves([SLOW_MOVES[0], SLOW_MOVES[1]], SLOW_MOVES[2]);
    FirstSend();
    assert [] + [SLOW_MOVES[0]] == [SLOW_MOVES[0]];
    assert [SLOW_MOVES[0]] + [SLOW_MOVES[1]] == [SLOW_MOVES[0], SLOW_MOVES[1]];
    assert [SLOW_MOVES[0], SLOW_MOVES[1]] + [SLOW_MOVES[2]] == SLOW_MOVES;
  }

  lemma EmptyRun() ensures P.Run([]) == P.IDLE {}

  lemma OtherMove(sys: P.System, s: Step)
    requires P.Can(sys, P.Other(s))
    ensures P.Do(sys, P.Other(s)) == sys.(db := After(sys.db, s))
  {
  }

  lemma FirstSend()
    ensures P.Do(P.System(HELD, map[7 := FIRST.(answer := None, sentAt := 0)], [P.Took(7, 1)]), P.Send(7, true)) == SLOW
  {
  }

  const TOOK_OVER := P.System(TAKEN, map[7 := FIRST, 8 := SECOND], SLOW.history + [P.Took(8, 1)])
  const RESENT := P.System(TAKEN, map[7 := FIRST, 8 := SECOND.(answer := Some(true), sentAt := 3)],
                           TOOK_OVER.history + [P.Sent(8, 1, true, 2)])

  lemma SecondFetch()
    ensures P.Do(SLOW.(db := HELD.(now := 11)), P.Fetch(8, [LeasedEvent(1, 1)], 10)) == TOOK_OVER
  {
    hide Ids, Apply, P.MayFetch;
    OneId(LeasedEvent(1, 1));
    MayTakeOver();
    TakesOver();
    assert P.Takes(8, [LeasedEvent(1, 1)]) == [P.Took(8, 1)];
  }

  lemma MayTakeOver()
    ensures P.MayFetch(HELD.(now := 11), [LeasedEvent(1, 1)])
  {
  }

  lemma TakesOver()
    ensures After(HELD.(now := 11), LeaseOutbox(8, {1}, 10)) == TAKEN
  {
  }

  lemma SecondSend()
    ensures P.Do(TOOK_OVER, P.Send(8, true)) == RESENT
  {
  }

  lemma SecondReport()
    ensures P.Do(RESENT, P.Report(8)) == TWICE
  {
  }

  /** The webhook can see an event twice: the first publisher is slow, its lease lapses, and the second delivers the event again.
      What is stored counts once: the first publisher's late report conflicts. */
  lemma DeliveredTwice()
    ensures P.Run(SLOW_MOVES + LATE_MOVES) == TWICE
    ensures P.SendsOf(TWICE.history, 1) == {1, 3} && P.IsBusy(TWICE, 7)
    ensures Apply(TWICE.db, P.ReportStep(7, TWICE.rounds[7])) == (TWICE.db, Conflict)
  {
    LateReport();
    hide P.Do, P.Run, Apply, P.SendsOf;
    var m := SLOW_MOVES;
    SlowRun();
    OtherMove(SLOW, Tick(11));
    Moves(m, LATE_MOVES[0]);
    SecondFetch();
    Moves(m + [LATE_MOVES[0]], LATE_MOVES[1]);
    SecondSend();
    Moves(m + [LATE_MOVES[0]] + [LATE_MOVES[1]], LATE_MOVES[2]);
    SecondReport();
    Moves(m + [LATE_MOVES[0]] + [LATE_MOVES[1]] + [LATE_MOVES[2]], LATE_MOVES[3]);
    assert m + [LATE_MOVES[0]] + [LATE_MOVES[1]] + [LATE_MOVES[2]] + [LATE_MOVES[3]] == m + LATE_MOVES;
    TickIsTime(HELD, 11);
  }

  lemma TickIsTime(db: Db, elapsed: nat)
    ensures After(db, Tick(elapsed)) == db.(now := db.now + elapsed)
  {
  }

  lemma LateReport()
    ensures P.SendsOf(TWICE.history, 1) == {1, 3}
    ensures Apply(TWICE.db, P.ReportStep(7, TWICE.rounds[7])) == (TWICE.db, Conflict)
  {
  }

  // ---------------------------------------------------------------- an event delivered after it was published

  const OPENED := P.System(HELD, map[7 := FIRST.(answer := None, sentAt := 0)], [P.Took(7, 1)])
  const BOTH := P.System(TAKEN, map[7 := OPENED.rounds[7], 8 := P.Round([LeasedEvent(1, 1)], 1, 0, None, 0)],
                         [P.Took(7, 1), P.Took(8, 1)])
  const ONE_SENT := P.System(TAKEN, map[7 := OPENED.rounds[7], 8 := P.Round([LeasedEvent(1, 1)], 1, 0, Some(true), 2)],
                             BOTH.history + [P.Sent(8, 1, true, 1)])
  const PUBLISHED := P.System(DONE, map[7 := OPENED.rounds[7], 8 := P.Round([LeasedEvent(1, 1)], 1, 1, None, 2)],
                              ONE_SENT.history + [P.Published(8, 1)])

  const OVERTAKEN := [SLOW_MOVES[0], SLOW_MOVES[1]] + LATE_MOVES

  lemma OpenedRun()
    ensures P.Run([SLOW_MOVES[0], SLOW_MOVES[1]]) == OPENED
  {
    hide P.Do, P.Run, Apply;
    EmptyRun();
    Creates();
    OtherMove(P.IDLE, SLOW_MOVES[0].step);
    Moves([], SLOW_MOVES[0]);
    Moves([SLOW_MOVES[0]], SLOW_MOVES[1]);
    FirstFetch();
    assert [] + [SLOW_MOVES[0]] == [SLOW_MOVES[0]];
    assert [SLOW_MOVES[0]] + [SLOW_MOVES[1]] == [SLOW_MOVES[0], SLOW_MOVES[1]];
  }

  lemma OvertakingFetch()
    ensures P.Do(OPENED.(db := HELD.(now := 11)), P.Fetch(8, [LeasedEvent(1, 1)], 10)) == BOTH
  {
    hide Ids, Apply, P.MayFetch;
    OneId(LeasedEvent(1, 1));
    MayTakeOver();
    TakesOver();
    assert P.Takes(8, [LeasedEvent(1, 1)]) == [P.Took(8, 1)];
  }

  lemma OvertakingSend()
    ensures P.Do(BOTH, P.Send(8, true)) == ONE_SENT
  {
  }

  lemma OvertakingReport()
    ensures P.Do(ONE_SENT, P.Report(8)) == PUBLISHED
  {
  }

  lemma SlowSend()
    ensures P.SendsOf(PUBLISHED.history, 1) == {2} && P.SendsOf(P.Do(PUBLISHED, P.Send(7, true)).history, 1) == {2, 4}
    ensures D.IsAhead(PUBLISHED.rounds[7], 0) && PUBLISHED.rounds[7].batch[0].id == 1
  {
    assert P.Do(PUBLISHED, P.Send(7, true)).history == PUBLISHED.history + [P.Sent(7, 1, true, 0)];
  }

  /** Publication does not end deliveries: a publisher that leased the event and was slow to post it posts it still. */
  lemma DeliveredAfterPublication()
    ensures P.Run(OVERTAKEN) == PUBLISHED && PUBLISHED.db.outbox[1].publishedAt.Some? && !D.IsOver(PUBLISHED, 1)
    ensures P.SendsOf(P.Run(OVERTAKEN).history, 1) == {2} && P.SendsOf(P.Run(OVERTAKEN + [P.Send(7, true)]).history, 1) == {2, 4}
  {
    SlowSend();
    hide P.Do, P.Run, Apply, P.SendsOf, D.IsAhead;
    var m := [SLOW_MOVES[0], SLOW_MOVES[1]];
    OpenedRun();
    OtherMove(OPENED, Tick(11));
    TickIsTime(HELD, 11);
    Moves(m, LATE_MOVES[0]);
    OvertakingFetch();
    Moves(m + [LATE_MOVES[0]], LATE_MOVES[1]);
    OvertakingSend();
    Moves(m + [LATE_MOVES[0]] + [LATE_MOVES[1]], LATE_MOVES[2]);
    OvertakingReport();
    Moves(m + [LATE_MOVES[0]] + [LATE_MOVES[1]] + [LATE_MOVES[2]], LATE_MOVES[3]);
    assert m + [LATE_MOVES[0]] + [LATE_MOVES[1]] + [LATE_MOVES[2]] + [LATE_MOVES[3]] == OVERTAKEN;
    Moves(OVERTAKEN, P.Send(7, true));
  }
}
