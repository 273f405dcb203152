/**
 Tool results and their calls across a compaction: where a branch can be cut at
 all, and for which branches no budget leaves a result without its call.
 */
module CompactionPairs {
  import opened Compaction
  import opened CompactionTheorems
  import opened SessionTree
  import opened Wrappers

  predicate Calls(m: Message, id: Id) {
    m.role == Assistant && exists k :: 0 <= k < |m.toolCalls| && m.toolCalls[k].id == id
  }

  /** Every result in the conversation comes after a message that calls for it. */
  predicate Answers(messages: seq<Message>) {
    forall i :: 0 <= i < |messages| && messages[i].role == Tool ==>
      exists j :: 0 <= j < i && Calls(messages[j], messages[i].toolCallId)
  }

  // ---------------------------------------------------------------- the same, said of entries

  /** Entry `j` calls for the result in entry `i`. */
  predicate IsCallFor(b: seq<Entry>, j: nat, i: nat)
    requires j < |b| && i < |b|
  {
    HasRole(b[i], Tool) && EntryMessage(b[j]).Some? && Calls(EntryMessage(b[j]).value, EntryMessage(b[i]).value.toolCallId)
  }

  /** The result in entry `i` is called for from entry `cut` on. */
  predicate CalledFrom(b: seq<Entry>, cut: nat, i: nat)
    requires cut <= i < |b|
  {
    exists j :: cut <= j < i && IsCallFor(b, j, i)
  }

  lemma {:induction false} KeptMessage(b: seq<Entry>, cut: nat, hi: nat, j: nat)
    requires cut <= j < hi <= |b| && EntryMessage(b[j]).Some?
    ensures EntryMessage(b[j]).value in MessagesOf(b[cut..hi])
    decreases hi
  {
    hide EntryMessage;
    assert b[cut..hi][..hi - 1 - cut] == b[cut..hi - 1];
    assert b[cut..hi][hi - 1 - cut] == b[hi - 1];
    if j < hi - 1 {
      KeptMessage(b, cut, hi - 1, j);
    }
  }

  lemma {:induction false} KeptFrom(b: seq<Entry>, cut: nat, hi: nat, m: Message) returns (j: nat)
    requires cut <= hi <= |b| && m in MessagesOf(b[cut..hi])
    ensures cut <= j < hi && EntryMessage(b[j]) == Some(m)
    decreases hi
  {
    hide EntryMessage;
    if cut < hi {
      assert b[cut..hi][..hi - 1 - cut] == b[cut..hi - 1];
      assert b[cut..hi][hi - 1 - cut] == b[hi - 1];
      if EntryMessage(b[hi - 1]) == Some(m) {
        j := hi - 1;
      } else {
        j := KeptFrom(b, cut, hi - 1, m);
      }
    }
  }

  lemma CalledIff(b: seq<Entry>, cut: nat, i: nat)
    requires cut <= i < |b| && HasRole(b[i], Tool)
    ensures CalledFrom(b, cut, i) <==>
            exists k :: 0 <= k < |MessagesOf(b[cut..i])| && Calls(MessagesOf(b[cut..i])[k], EntryMessage(b[i]).value.toolCallId)
  {
    hide EntryMessage, MessagesOf, Calls;
    var messages, id := MessagesOf(b[cut..i]), EntryMessage(b[i]).value.toolCallId;
    if CalledFrom(b, cut, i) {
      var j :| cut <= j < i && IsCallFor(b, j, i);
      KeptMessage(b, cut, i, j);
      var k :| 0 <= k < |messages| && messages[k] == EntryMessage(b[j]).value;
      assert Calls(messages[k], id);
    }
    if k :| 0 <= k < |messages| && Calls(messages[k], id) {
      var j := KeptFrom(b, cut, i, messages[k]);
      assert IsCallFor(b, j, i);
    }
  }

  lemma AnswersOneMore(messages: seq<Message>, m: Message)
    ensures Answers(messages + [m]) <==>
            Answers(messages) && (m.role == Tool ==> exists j :: 0 <= j < |messages| && Calls(messages[j], m.toolCallId))
  {
    hide Calls;
    var all := messages + [m];
    assert forall i :: 0 <= i < |messages| ==> all[i] == messages[i];
    assert all[|messages|] == m;
    if Answers(all) {
      forall i | 0 <= i < |messages| && messages[i].role == Tool
        ensures exists j :: 0 <= j < i && Calls(messages[j], messages[i].toolCallId)
      {
        var j :| 0 <= j < i && Calls(all[j], all[i].toolCallId);
        assert Calls(messages[j], messages[i].toolCallId);
      }
      if m.role == Tool {
        var j :| 0 <= j < |messages| && Calls(all[j], m.toolCallId);
        assert Calls(messages[j], m.toolCallId);
      }
    }
    if Answers(messages) && (m.role == Tool ==> exists j :: 0 <= j < |messages| && Calls(messages[j], m.toolCallId)) {
      forall i | 0 <= i < |all| && all[i].role == Tool ensures exists j :: 0 <= j < i && Calls(all[j], all[i].toolCallId) {
        var j :| 0 <= j < i && Calls(messages[j], all[i].toolCallId);
        assert Calls(all[j], all[i].toolCallId);
      }
    }
  }

  /** A stretch of a branch answers for itself exactly when each result in it is called for from its beginning on. */
  lemma {:induction false} StretchAnswersIff(b: seq<Entry>, cut: nat, hi: nat)
    requires cut <= hi <= |b|
    ensures Answers(MessagesOf(b[cut..hi])) <==>
            forall i :: cut <= i < hi && HasRole(b[i], Tool) ==> CalledFrom(b, cut, i)
    decreases hi
  {
    hide Calls, EntryMessage, Answers, CalledFrom, IsCallFor;
    if cut == hi {
      assert MessagesOf(b[cut..hi]) == [];
      NothingToAnswer();
    } else {
      var i := hi - 1;
      StretchAnswersIff(b, cut, i);
      assert b[cut..hi][..i - cut] == b[cut..i];
      assert b[cut..hi][i - cut] == b[i];
      if EntryMessage(b[i]).Some? {
        AnswersOneMore(MessagesOf(b[cut..i]), EntryMessage(b[i]).value);
        if HasRole(b[i], Tool) {
          CalledIff(b, cut, i);
        }
      } else {
        assert MessagesOf(b[cut..i]) + [] == MessagesOf(b[cut..i]);
      }
    }
  }

  lemma NothingToAnswer()
    ensures Answers([])
  {
  }

  // ---------------------------------------------------------------- where a branch can be cut

  predicate Costs(e: Entry) {
    EntryMessage(e).Some? && Tokens(EntryMessage(e).value) > 0
  }

  /** The place to cut is the first one, or the first from some message on that costs tokens. */
  predicate Chosen(b: seq<Entry>, k: nat) {
    FirstCut(b, Boundary(b)) == Some(k) || exists i :: Boundary(b) <= i < |b| && Costs(b[i]) && FirstCut(b, i) == Some(k)
  }

  predicate CutsAt(b: seq<Entry>, c: nat) {
    exists k :: Boundary(b) <= k < |b| && Chosen(b, k) && c == BackOff(b, Boundary(b), k)
  }

  /** With a budget of exactly the weight from a message on that costs tokens, the count reaches it there. */
  lemma CrossingExactly(b: seq<Entry>, boundary: nat, i: nat)
    requires boundary <= i < |b| && Costs(b[i])
    ensures Weight(b[i..]) > 0 && Crossing(b, boundary, |b|, 0, Weight(b[i..])) == Some(i)
  {
    hide Tokens, EntryMessage, Weight, Crossing;
    WeightStep(b, i);
    var keep := Weight(b[i..]);
    CrossingReaches(b, boundary, keep);
    LighterLater(b, boundary, i);
    match Crossing(b, boundary, |b|, 0, keep)
    case None =>
    case Some(reached) =>
      if reached < i { LighterLater(b, reached + 1, i); }
      if reached > i { LighterLater(b, i + 1, reached); }
  }

  lemma NeverCrossing(b: seq<Entry>, boundary: nat)
    requires boundary <= |b|
    ensures Crossing(b, boundary, |b|, 0, Weight(b[boundary..]) + 1) == None
  {
    hide Weight, Crossing;
    var keep := Weight(b[boundary..]) + 1;
    CrossingReaches(b, boundary, keep);
    var reached := Crossing(b, boundary, |b|, 0, keep);
    if reached.Some? {
      LighterLater(b, boundary, reached.value);
    }
  }

  lemma CrossingCosts(b: seq<Entry>, boundary: nat, keepRecent: int, i: nat)
    requires boundary <= |b| && keepRecent > 0 && Crossing(b, boundary, |b|, 0, keepRecent) == Some(i)
    ensures Costs(b[i])
  {
    hide Tokens, EntryMessage, Weight, Crossing;
    CrossingReaches(b, boundary, keepRecent);
    WeightStep(b, i);
  }

  lemma BudgetFor(b: seq<Entry>, c: nat) returns (keepRecent: int)
    requires CutsAt(b, c)
    ensures keepRecent > 0 && CutIndex(b, keepRecent) == Some(c)
  {
    hide Crossing, BackOff, FirstCut, Weight, Boundary, Costs;
    var boundary := Boundary(b);
    var k :| boundary <= k < |b| && Chosen(b, k) && c == BackOff(b, boundary, k);
    if FirstCut(b, boundary) == Some(k) {
      keepRecent := Weight(b[boundary..]) + 1;
      NeverCrossing(b, boundary);
    } else {
      var i :| boundary <= i < |b| && Costs(b[i]) && FirstCut(b, i) == Some(k);
      keepRecent := Weight(b[i..]);
      CrossingExactly(b, boundary, i);
      FirstOfMore(b, boundary, i);
    }
  }

  lemma FirstOfMore(b: seq<Entry>, boundary: nat, i: nat)
    requires boundary <= i && FirstCut(b, i).Some?
    ensures FirstCut(b, boundary).Some?
  {
  }

  lemma CutIsChosen(b: seq<Entry>, keepRecent: int)
    requires keepRecent > 0 && CutIndex(b, keepRecent).Some?
    ensures CutsAt(b, CutIndex(b, keepRecent).value)
  {
    hide Crossing, BackOff, FirstCut, Weight, Boundary, Costs;
    var boundary := Boundary(b);
    var first := FirstCut(b, boundary).value;
    var reached := Crossing(b, boundary, |b|, 0, keepRecent);
    if reached.Some? && FirstCut(b, reached.value).Some? {
      CrossingCosts(b, boundary, keepRecent, reached.value);
      assert Chosen(b, FirstCut(b, reached.value).value);
    } else {
      assert Chosen(b, first);
    }
  }

  /** The places where some budget cuts a branch are exactly these. */
  lemma CutsAtIff(b: seq<Entry>, c: nat)
    ensures CutsAt(b, c) <==> exists keepRecent :: keepRecent > 0 && CutIndex(b, keepRecent) == Some(c)
  {
    hide CutsAt, CutIndex;
    if CutsAt(b, c) {
      var keepRecent := BudgetFor(b, c);
    }
    if keepRecent :| keepRecent > 0 && CutIndex(b, keepRecent) == Some(c) {
      CutIsChosen(b, keepRecent);
    }
  }

  /** A place to cut that is reported, with something before it to summarise. */
  predicate Compactable(b: seq<Entry>, c: nat) {
    && b != [] && !b[|b| - 1].body.Compaction?
    && Boundary(b) <= c < |b| && b[c].id != NONE && MessagesOf(b[Boundary(b)..c]) != []
  }

  lemma PreparedIff(b: seq<Entry>, keepRecent: int)
    ensures Prepare(b, keepRecent).Some? <==>
            CutIndex(b, keepRecent).Some? && Compactable(b, CutIndex(b, keepRecent).value)
    ensures Prepare(b, keepRecent).Some? ==>
              Prepare(b, keepRecent).value.tail == MessagesOf(b[CutIndex(b, keepRecent).value..])
  {
    hide Boundary, CutIndex, TurnStart, MessagesOf;
    if CutIndex(b, keepRecent).Some? {
      var boundary, cut := Boundary(b), CutIndex(b, keepRecent).value;
      MessagesInThree(b, boundary, TurnStart(b, boundary, cut).GetOr(cut), cut);
    }
  }

  // ---------------------------------------------------------------- when no result loses its call

  /** Some result has a place to cut, with something to summarise before it, between its last call and itself. */
  predicate PartsAPair(b: seq<Entry>) {
    exists c, i :: 0 <= c <= i < |b| && Compactable(b, c) && CutsAt(b, c) && HasRole(b[i], Tool) && !CalledFrom(b, c, i)
  }

  lemma TailAnswersIff(b: seq<Entry>, keepRecent: int)
    requires Prepare(b, keepRecent).Some?
    ensures CutIndex(b, keepRecent).Some?
    ensures var c := CutIndex(b, keepRecent).value;
      Answers(Prepare(b, keepRecent).value.tail) <==>
      forall i :: c <= i < |b| && HasRole(b[i], Tool) ==> CalledFrom(b, c, i)
  {
    hide Prepare, CutIndex, MessagesOf, Answers, CalledFrom;
    PreparedIff(b, keepRecent);
    var c := CutIndex(b, keepRecent).value;
    StretchAnswersIff(b, c, |b|);
    assert b[c..|b|] == b[c..];
  }

  /** Kept results keep their calls, whatever the budget, exactly when no pair can be parted. */
  lemma EveryTailAnswersIff(b: seq<Entry>)
    ensures (forall keepRecent :: keepRecent > 0 && Prepare(b, keepRecent).Some? ==> Answers(Prepare(b, keepRecent).value.tail))
            <==> !PartsAPair(b)
  {
    hide Prepare, CutIndex, Answers, CalledFrom, CutsAt, Compactable;
    if PartsAPair(b) {
      var c, i :| 0 <= c <= i < |b| && Compactable(b, c) && CutsAt(b, c) && HasRole(b[i], Tool) && !CalledFrom(b, c, i);
      var keepRecent := BudgetFor(b, c);
      PreparedIff(b, keepRecent);
      TailAnswersIff(b, keepRecent);
      assert !Answers(Prepare(b, keepRecent).value.tail);
    } else {
      forall keepRecent | keepRecent > 0 && Prepare(b, keepRecent).Some? ensures Answers(Prepare(b, keepRecent).value.tail) {
        PreparedIff(b, keepRecent);
        TailAnswersIff(b, keepRecent);
        CutIsChosen(b, keepRecent);
      }
    }
  }

  // ---------------------------------------------------------------- conversations the engine writes without a poller

  /** Entry `j` calls for the result in entry `i`, and nothing between them is a place to cut. */
  ghost predicate CalledBy(b: seq<Entry>, j: int, i: int) {
    0 <= j < i < |b| && IsCallFor(b, j, i) && forall k :: j < k < i ==> !MayCutAt(b[k])
  }

  ghost predicate Paired(b: seq<Entry>) {
    forall i :: 0 <= i < |b| && HasRole(b[i], Tool) ==> exists j :: CalledBy(b, j, i)
  }

  /** A cut never falls between a call and its result, not even after backing off. */
  lemma CutSparesPairs(b: seq<Entry>, keepRecent: int, j: int, i: int)
    requires CutIndex(b, keepRecent).Some? && CalledBy(b, j, i) && CutIndex(b, keepRecent).value <= i
    ensures CutIndex(b, keepRecent).value <= j
  {
    hide Boundary, Crossing, BackOff, FirstCut;
    var first := FirstCut(b, Boundary(b)).value;
    var reached := Crossing(b, Boundary(b), |b|, 0, keepRecent);
    var raw := if reached.Some? then FirstCut(b, reached.value).GetOr(first) else first;
    assert MayCutAt(b[raw]) && !MayCutAt(b[i]) && b[i].body.MessageEntry?;
    if j < CutIndex(b, keepRecent).value {
      assert false;
    }
  }

  /** When every tool result follows its call with no place to cut between, every kept result keeps its call. */
  lemma KeptResultsKeepTheirCalls(b: seq<Entry>, keepRecent: int)
    requires Paired(b) && Prepare(b, keepRecent).Some?
    ensures Answers(Prepare(b, keepRecent).value.tail)
  {
    hide Prepare, CutIndex, Answers, IsCallFor, HasRole, MayCutAt;
    TailAnswersIff(b, keepRecent);
    var c := CutIndex(b, keepRecent).value;
    forall i | c <= i < |b| && HasRole(b[i], Tool) ensures CalledFrom(b, c, i) {
      var j :| CalledBy(b, j, i);
      CutSparesPairs(b, keepRecent, j, i);
    }
  }

  lemma PairsStayTogether(b: seq<Entry>)
    requires Paired(b)
    ensures !PartsAPair(b)
  {
    hide Prepare, Answers, Paired, PartsAPair;
    forall keepRecent | keepRecent > 0 && Prepare(b, keepRecent).Some? ensures Answers(Prepare(b, keepRecent).value.tail) {
      KeptResultsKeepTheirCalls(b, keepRecent);
    }
    EveryTailAnswersIff(b);
  }
}
