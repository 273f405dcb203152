/** Short conversations on which compaction does less than one would hope. */
module CompactionExamples {
  import opened Compaction
  import opened CompactionPairs
  import opened CompactionTheorems
  import opened SessionTree
  import S = Session
  import opened Wrappers

  /** A message of 1200 tokens. */
  function Say(role: Role, calls: seq<ToolCall>, result: Id): Message {
    Message(role, "", "", 1, calls, result, 0)
  }

  function Line(id: Id, role: Role): Entry {
    Entry(id, NONE, 0, MessageEntry(Some(Say(role, [], NONE))))
  }

  function FourLines(): seq<Entry> {
    [Line("a", User), Line("b", Assistant), Line("c", User), Line("d", Assistant)]
  }

  lemma LineCosts(id: Id, role: Role)
    requires role != NoRole
    ensures EntryMessage(Line(id, role)) == Some(Say(role, [], NONE)) && Tokens(Say(role, [], NONE)) == 1200
  {
  }

  lemma FirstCompaction()
    ensures Prepare(FourLines(), 1201) ==
            Some(Preparation("c", MessagesOf(FourLines()[0..2]), [], MessagesOf(FourLines()[2..]), false, NoSummary))
  {
    hide MessagesOf, LastCompaction;
    var b := FourLines();
    LineCosts("d", Assistant);
    LineCosts("c", User);
    assert LastCompaction(b) == None;
    assert FirstCut(b, 0) == Some(0);
    assert Crossing(b, 0, 4, 0, 1201) == Crossing(b, 0, 3, 1200, 1201) == Some(2);
    assert CutIndex(b, 1201) == Some(2);
    SomeMessage(b[0..2], 0);
    NoMessages();
    assert b[2..2] == [];
  }

  lemma NoMessages()
    ensures MessagesOf([]) == []
  {
  }

  lemma SomeMessage(entries: seq<Entry>, k: nat)
    requires k < |entries| && EntryMessage(entries[k]).Some?
    ensures MessagesOf(entries) != []
  {
    KeptMessage(entries, 0, |entries|, k);
    assert entries[0..|entries|] == entries;
  }

  function FirstSummary(): Entry {
    CompactionEntry("e", "d", 0, Prepare(FourLines(), 1201).GetOr(Preparation(NONE, [], [], [], false, NoSummary)))
  }

  function SixLines(): seq<Entry> {
    FourLines() + [FirstSummary()] + [Line("f", Assistant)]
  }

  lemma SixBoundary()
    ensures var b := SixLines();
      && LastCompaction(b) == Some(4) && Boundary(b) == 2
      && PreviousSummary(b) == History(MessagesOf(b[0..2]), NoSummary) && MessagesOf(b[0..2]) != []
  {
    hide MessagesOf, LastCompaction, IndexOf, Tokens, Prepare;
    var b := SixLines();
    FirstCompaction();
    SomeMessage(FourLines()[0..2], 0);
    assert b[0..2] == FourLines()[0..2];
    assert b[4] == FirstSummary();
    assert b[2].id == "c" && "a"[0] != "c"[0] && "b"[0] != "c"[0];
    assert b[0].id == "a" && b[1].id == "b";
    assert IndexOf(b, "c") == Some(2);
  }

  lemma SixTurnStart(b: seq<Entry>)
    requires |b| == 6 && HasRole(b[2], User) && HasRole(b[3], Assistant) && b[4].body.Compaction? && HasRole(b[5], Assistant)
    requires b[3].body.MessageEntry? && b[5].body.MessageEntry?
    ensures TurnStart(b, 2, 5) == Some(2)
  {
    assert LastTurnStart(b, 2, 3) == Some(2);
    assert LastTurnStart(b, 2, 4) == Some(2);
    assert LastTurnStart(b, 2, 5) == Some(2);
    assert LastTurnStart(b, 2, 6) == Some(2);
  }

  /** Compacting again inside the turn that was kept: there is no message before the turn, so the second summary is
      written from the start of the turn alone and no longer goes back to the first one. */
  lemma SecondCompactionDrops()
    ensures DropsPrevious(SixLines(), Compact(1, [], "g", "f", 0))
    ensures Lineage(PreviousSummary(SixLines())) != []
    ensures Lineage(SummaryOf(Prepare(SixLines(), 1).value)) == MessagesOf(SixLines()[2..5])
  {
    hide MessagesOf, LastCompaction, IndexOf, FirstCut, Crossing, Tokens, TurnStart, CutIndex, Boundary, PreviousSummary,
         FirstSummary, Line;
    var b := SixLines();
    SixBoundary();
    SixRoles();
    CutAtLast(b);
    SixTurnStart(b);
    NoMessages();
    assert b[2..2] == [];
    SomeMessage(b[2..5], 0);
  }

  lemma SixRoles()
    ensures var b := SixLines();
      && |b| == 6 && HasRole(b[2], User) && HasRole(b[3], Assistant) && b[4].body.Compaction? && HasRole(b[5], Assistant)
      && b[3].body.MessageEntry? && b[5].body.MessageEntry? && Tokens(EntryMessage(b[5]).value) == 1200
      && b[2].id == "c" && b[5].id == "f"
  {
    hide Prepare;
    LineCosts("f", Assistant);
  }

  lemma CutAtLast(b: seq<Entry>)
    requires |b| == 6 && Boundary(b) == 2 && HasRole(b[2], User) && HasRole(b[5], Assistant)
    requires b[4].body.Compaction? && Tokens(EntryMessage(b[5]).value) == 1200
    ensures CutIndex(b, 1) == Some(5)
  {
    hide Boundary, Tokens;
    assert FirstCut(b, 2) == Some(2);
    assert Crossing(b, 2, 6, 0, 1) == Some(5);
    assert FirstCut(b, 5) == Some(5);
  }

  function Call(): Entry {
    Entry("b", NONE, 0, MessageEntry(Some(Say(Assistant, [ToolCall("t", "read", [123, 125])], NONE))))
  }

  function CallResult(): Entry {
    Entry("d", NONE, 0, MessageEntry(Some(Say(Tool, [], "t"))))
  }

  function Steered(): seq<Entry> {
    [Line("a", User), Call(), Line("c", User), CallResult()]
  }

  lemma SteeredTail()
    ensures MessagesOf(Steered()[2..]) == [Say(User, [], NONE), Say(Tool, [], "t")]
  {
    var b := Steered();
    assert b[2..] == [b[2], b[3]];
    assert [b[2], b[3]][..1] == [b[2]];
    assert [b[2]][..0] == [];
    assert MessagesOf([b[2]]) == [Say(User, [], NONE)];
  }

  /** A message that steers the run lands between a call and its result: the cut may fall there, and the kept result
      has no call. */
  lemma SteeringSplitsPair()
    ensures PartsAPair(Steered()) && !Paired(Steered())
    ensures Prepare(Steered(), 1201).Some? && !Answers(Prepare(Steered(), 1201).value.tail)
  {
    hide Prepare, Paired, MessagesOf, PartsAPair;
    SteeringCut(Steered());
    SteeredTail();
    var tail := MessagesOf(Steered()[2..]);
    assert tail[1].role == Tool && !Calls(tail[0], "t");
    EveryTailAnswersIff(Steered());
    if Paired(Steered()) {
      PairsStayTogether(Steered());
      assert false;
    }
  }

  lemma SteeringCut(b: seq<Entry>)
    requires b == Steered()
    ensures Prepare(b, 1201).Some? && Prepare(b, 1201).value.tail == MessagesOf(b[2..])
  {
    hide LastCompaction, MessagesOf;
    LineCosts("c", User);
    assert Tokens(Say(Tool, [], "t")) == 1200;
    assert LastCompaction(b) == None;
    assert FirstCut(b, 0) == Some(0);
    assert Crossing(b, 0, 4, 0, 1201) == Crossing(b, 0, 3, 1200, 1201) == Some(2);
    assert CutIndex(b, 1201) == Some(2);
    SomeMessage(b[0..2], 0);
  }

  // ---------------------------------------------------------------- what the cached tail loses

  function WithSummary(): seq<Entry> {
    [Line("a", User), Line("b", Assistant), Line("c", User),
     Entry("s", NONE, 0, BranchSummary(History([Say(User, [], NONE)], NoSummary))), Line("d", Assistant)]
  }

  lemma CutWithSummary()
    ensures CutIndex(WithSummary(), 1201) == Some(2)
    ensures Prepare(WithSummary(), 1201).Some? && Prepare(WithSummary(), 1201).value.tail == MessagesOf(WithSummary()[2..])
  {
    hide LastCompaction, MessagesOf, Tokens;
    var b := WithSummary();
    LineCosts("d", Assistant);
    LineCosts("c", User);
    assert LastCompaction(b) == None;
    assert FirstCut(b, 0) == Some(0);
    assert Crossing(b, 0, 5, 0, 1201) == Crossing(b, 0, 4, 1200, 1201) == Crossing(b, 0, 3, 1200, 1201) == Some(2);
    SomeMessage(b[0..2], 0);
  }

  function CompactedBranch(b: seq<Entry>, keepRecent: int, late: seq<Entry>): seq<Entry>
    requires Prepare(b, keepRecent).Some?
  {
    b + late + [CompactionEntry("z", "d", 0, Prepare(b, keepRecent).value)]
  }

  lemma AgreesAtTheEnd(b: seq<Entry>, keepRecent: int, late: seq<Entry>)
    requires Distinct(b) && Prepare(b, keepRecent).Some? && (forall e :: e in late ==> !e.body.Compaction?)
    ensures CutIndex(b, keepRecent).Some?
    ensures var all := CompactedBranch(b, keepRecent, late);
      Replay(all) == ReplayFromFirstKept(all) <==>
      Prepare(b, keepRecent).value.tail == [] || (!KeepsBranchSummary(b[CutIndex(b, keepRecent).value..]) && ShowsNothing(late))
  {
    hide Prepare, CutIndex, Replay, ReplayFromFirstKept, KeepsBranchSummary, ShowsNothing, SummaryOf, Distinct;
    var c := CompactionEntry("z", "d", 0, Prepare(b, keepRecent).value);
    RetainedTailAgreesIff(b, keepRecent, late, c, []);
    assert b + late + [c] + [] == b + late + [c];
  }

  lemma LinesAreDistinct()
    ensures Distinct(FourLines()) && Distinct(WithSummary())
  {
    assert "a"[0] != "b"[0] && "a"[0] != "c"[0] && "a"[0] != "d"[0] && "a"[0] != "s"[0] && "b"[0] != "c"[0];
    assert "b"[0] != "d"[0] && "b"[0] != "s"[0] && "c"[0] != "d"[0] && "c"[0] != "s"[0] && "d"[0] != "s"[0];
  }

  /** A branch summary that was kept is gone from the conversation after the compaction. */
  lemma TailLosesBranchSummary()
    ensures Prepare(WithSummary(), 1201).Some?
    ensures var all := CompactedBranch(WithSummary(), 1201, []); Replay(all) != ReplayFromFirstKept(all)
  {
    hide Prepare, CutIndex, Replay, ReplayFromFirstKept, MessagesOf, Distinct;
    var b := WithSummary();
    LinesAreDistinct();
    CutWithSummary();
    AgreesAtTheEnd(b, 1201, []);
    assert b[2..][1] == b[3];
    SomeMessage(b[2..], 0);
  }

  /** A message that was polled while the summary was written is gone from the conversation after it. */
  lemma TailLosesLateMessage()
    ensures Prepare(FourLines(), 1201).Some?
    ensures var all := CompactedBranch(FourLines(), 1201, [Line("l", User)]); Replay(all) != ReplayFromFirstKept(all)
  {
    hide Prepare, CutIndex, Replay, ReplayFromFirstKept, MessagesOf, Distinct;
    var late := [Line("l", User)];
    LinesAreDistinct();
    FirstCompaction();
    AgreesAtTheEnd(FourLines(), 1201, late);
    assert late[0] in late && ShownOf(late[0]) == [Said(Say(User, [], NONE))];
    SomeMessage(FourLines()[2..], 0);
  }

  // ---------------------------------------------------------------- what leaving a branch forgets

  const ASKS := S.Written("a", 0, MessageEntry(Some(Say(User, [], NONE))))
  const REPLIES := S.Written("b", 0, MessageEntry(Some(Say(Assistant, [], NONE))))
  const STEERS := S.Written("l", 0, MessageEntry(Some(Say(User, [], NONE))))
  const TALK := [S.Append(ASKS), S.Append(REPLIES)]
  const LEAVES := S.Leave("a", [STEERS], S.Answered, "z", 0)

  lemma TalkIs()
    ensures S.After(TALK).leaf == "b"
    ensures S.After(TALK).log == [Line("a", User), Line("b", Assistant).(parent := "a")]
  {
    assert TALK[..1] == [S.Append(ASKS)] && [S.Append(ASKS)][..0] == [];
    assert S.After([]) == S.Tree([], NONE);
    assert S.After(TALK[..1]) == S.Tree([Line("a", User)], "a");
  }

  lemma TalkIsAllowed()
    ensures S.AllowedMoves(TALK)
  {
    assert TALK[..1] == [S.Append(ASKS)] && [S.Append(ASKS)][..0] == [];
    assert S.After([]) == S.Tree([], NONE) && S.AllowedMoves([]);
    assert S.AllowedMoves(TALK[..1]);
    assert S.After(TALK[..1]) == S.Tree([Line("a", User)], "a");
    assert "a"[0] != "b"[0];
  }

  lemma LeavesIsAllowed()
    ensures S.MayMove(S.After(TALK), LEAVES)
  {
    TalkIs();
    var t := S.After(TALK);
    assert t.log[0].id == "a";
    assert LEAVES.late[..0] == [];
    assert S.AppendedAll(t, LEAVES.late) == S.Appended(t, STEERS);
    assert "l"[0] != "a"[0] && "l"[0] != "b"[0] && "z"[0] != "a"[0] && "z"[0] != "b"[0] && "z"[0] != "l"[0];
    assert S.AppendedAll(t, []) == t && S.AreNew(t, []);
    assert S.IsNew(t, STEERS);
    assert S.AreNew(t, LEAVES.late);
    var log := S.AppendedAll(t, LEAVES.late).log;
    assert log == [t.log[0], t.log[1], Line("l", User).(parent := "b")];
    assert IsFresh(log, "z");
  }

  lemma SharedWithFirst(a: Entry, b: Entry)
    requires a.id != b.id && a.id != NONE
    ensures S.SharedUpTo([a, b], [a]) == 1
  {
    assert [a][0].id == a.id && !Known([a], b.id) && [a, b][..1] == [a];
  }

  lemma ReplyIsLeft()
    ensures S.LeftBehind(S.After(TALK), "a") == [Say(Assistant, [], NONE)]
  {
    hide MessagesOf, Branch, S.SharedUpTo;
    TalkIs();
    var a, b := Line("a", User), Line("b", Assistant).(parent := "a");
    assert "a"[0] != "b"[0];
    assert [] + [a] == [a] && [a] + [b] == [a, b] && [a][0].id == "a";
    AppendExtendsBranch([], a, NONE);
    AppendExtendsBranch([a], b, "a");
    SharedWithFirst(a, b);
    assert [a, b][1..] == [b];
    OneIsOne(b);
  }

  lemma OneIsOne(e: Entry)
    ensures MessagesOf([e]) == OneMessage(e)
  {
    assert [e][..0] == [];
  }

  /** A message that was polled while the summary of an abandoned branch was written is left on that branch, unsummarised. */
  lemma LeavingForgetsLateMessage()
    ensures S.AllowedMoves(TALK) && S.MayMove(S.After(TALK), LEAVES)
    ensures var next := S.After(TALK + [LEAVES]); var left := S.AppendedAll(S.After(TALK), [STEERS]);
      && next.log != [] && next.log[|next.log| - 1].body.BranchSummary?
      && Lineage(next.log[|next.log| - 1].body.abandoned) != S.LeftBehind(left, "a")
  {
    hide S.After, S.LeftBehind, S.AllowedMoves, S.MayMove, S.AppendedAll, Lineage;
    TalkIsAllowed();
    LeavesIsAllowed();
    ReplyIsLeft();
    assert LEAVES.late[..0] == [];
    S.LeavingCoversIff(TALK, LEAVES);
  }
}
