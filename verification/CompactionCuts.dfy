/**
 The preparation of a compaction read off the entries of the branch: where it is
 cut, where the interrupted turn began, and which message goes where.
 */
module CompactionCuts {
  import opened Compaction
  import opened CompactionTheorems
  import opened SessionTree
  import opened Wrappers

  // ---------------------------------------------------------------- entries

  /** The entry stands for this message. */
  predicate Says(e: Entry, m: Message) {
    || (e.body == MessageEntry(Some(m)) && m.role != NoRole)
    || (e.body.CustomMessage? && e.body.content == Some(m.content) && m == Message(User, m.content, "", 0, [], "", e.timestamp))
  }

  predicate SaysNothing(e: Entry) {
    match e.body
    case MessageEntry(m) => m.None? || m.value.role == NoRole
    case CustomMessage(content) => content.None?
    case BranchSummary(_) => true
    case Compaction(_, _, _) => true
    case Bookkeeping(_) => true
  }

  predicate SaidByUser(e: Entry) {
    match e.body
    case MessageEntry(m) => m.Some? && m.value.role == User
    case CustomMessage(content) => content.Some?
    case _ => false
  }

  predicate BeginsTurn(e: Entry) {
    match e.body
    case MessageEntry(m) => m.Some? && m.value.role == User
    case CustomMessage(_) => true
    case BranchSummary(_) => true
    case _ => false
  }

  predicate Cuttable(e: Entry) {
    match e.body
    case MessageEntry(m) => m.Some? && (m.value.role == User || m.value.role == Assistant)
    case CustomMessage(_) => true
    case BranchSummary(_) => true
    case _ => false
  }

  lemma EntryReads(e: Entry)
    ensures EntryMessage(e).None? <==> SaysNothing(e)
    ensures forall m :: EntryMessage(e) == Some(m) <==> Says(e, m)
    ensures HasRole(e, User) <==> SaidByUser(e)
    ensures OpensTurn(e) <==> BeginsTurn(e)
    ensures MayCutAt(e) <==> Cuttable(e)
  {
  }

  /** The list holds the messages of the entries, in order: `places` says which entry each comes from, and no other entry
      stands for a message. */
  ghost predicate ReadOff(entries: seq<Entry>, messages: seq<Message>, places: seq<nat>) {
    && |places| == |messages|
    && (forall k :: 0 <= k < |places| ==> places[k] < |entries| && Says(entries[places[k]], messages[k]))
    && (forall j, k :: 0 <= j < k < |places| ==> places[j] < places[k])
    && (forall i: nat :: i < |entries| && !SaysNothing(entries[i]) ==> i in places)
  }

  lemma ReadOffMore(rest: seq<Entry>, messages: seq<Message>, places: seq<nat>, e: Entry)
    requires ReadOff(rest, messages, places)
    ensures if SaysNothing(e) then OneMessage(e) == [] && ReadOff(rest + [e], messages, places)
            else ReadOff(rest + [e], messages + OneMessage(e), places + [|rest|])
  {
    hide Says, SaysNothing, EntryMessage;
    EntryReads(e);
    var all := rest + [e];
    forall k | 0 <= k < |places| ensures all[places[k]] == rest[places[k]] {
    }
    assert all[|rest|] == e;
    if !SaysNothing(e) {
      forall i: nat | i < |all| && !SaysNothing(all[i]) ensures i in places + [|rest|] {
        if i < |rest| {
          assert all[i] == rest[i];
        } else {
          assert (places + [|rest|])[|places|] == i;
        }
      }
    }
  }

  lemma {:induction false} MessagesAreReadOff(entries: seq<Entry>) returns (places: seq<nat>)
    ensures ReadOff(entries, MessagesOf(entries), places)
  {
    hide SaysNothing, OneMessage, ReadOff;
    if entries == [] {
      places := [];
      assert ReadOff([], [], []) by { NothingReadOff(); }
    } else {
      var rest, e := entries[..|entries| - 1], entries[|entries| - 1];
      var before := MessagesAreReadOff(rest);
      ReadOffMore(rest, MessagesOf(rest), before, e);
      assert rest + [e] == entries;
      assert SaysNothing(e) ==> MessagesOf(entries) == MessagesOf(rest);
      places := if SaysNothing(e) then before else before + [|entries| - 1];
    }
  }

  lemma NothingReadOff()
    ensures ReadOff([], [], [])
  {
  }

  // ---------------------------------------------------------------- tokens

  /** Four characters a token, begun ones counted whole; a picture counts as 4800 characters. */
  lemma TokensRoundUp(m: Message)
    ensures var chars := |m.content| + |m.thinking| + 4800 * m.images + CallChars(m.toolCalls);
      chars <= 4 * Tokens(m) < chars + 4
  {
    hide CallChars;
  }

  lemma {:induction false} CallCharsAdd(a: seq<ToolCall>, b: seq<ToolCall>)
    ensures CallChars(a + b) == CallChars(a) + CallChars(b)
    ensures forall c: ToolCall :: CallChars([c]) == |c.name| + |c.arguments|
  {
    forall c: ToolCall ensures CallChars([c]) == |c.name| + |c.arguments| {
      assert [c][..0] == [];
    }
    if b == [] {
      assert a + b == a;
    } else {
      CallCharsAdd(a, b[..|b| - 1]);
      assert (a + b)[..|a + b| - 1] == a + b[..|b| - 1];
    }
  }

  // ---------------------------------------------------------------- the boundary

  /** What is not summarised yet starts at the first entry under the identifier the last compaction named, and at the
      beginning without such an entry or such a compaction. */
  lemma BoundaryIs(b: seq<Entry>)
    ensures (forall i :: 0 <= i < |b| ==> !b[i].body.Compaction?) ==> Boundary(b) == 0 && PreviousSummary(b) == NoSummary
    ensures forall i :: 0 <= i < |b| && b[i].body.Compaction? && (forall j :: i < j < |b| ==> !b[j].body.Compaction?) ==>
              && PreviousSummary(b) == b[i].body.summary
              && Boundary(b) < |b|
              && (if exists k :: 0 <= k < |b| && b[k].id == b[i].body.firstKept
                  then b[Boundary(b)].id == b[i].body.firstKept && forall k :: 0 <= k < Boundary(b) ==> b[k].id != b[i].body.firstKept
                  else Boundary(b) == 0)
  {
    hide LastCompaction, IndexOf;
    var last := LastCompaction(b);
    if last.Some? {
      var first := IndexOf(b, b[last.value].body.firstKept);
    }
  }

  // ---------------------------------------------------------------- the cut

  /** From this message on at least the wanted number of tokens is kept, and from no later one. */
  predicate ReachesAt(b: seq<Entry>, boundary: nat, keepRecent: int, i: nat) {
    && boundary <= i < |b| && !SaysNothing(b[i]) && Weight(b[i..]) >= keepRecent
    && forall j :: i < j < |b| && !SaysNothing(b[j]) ==> Weight(b[j..]) < keepRecent
  }

  predicate FirstCuttable(b: seq<Entry>, from: nat, r: nat) {
    from <= r < |b| && Cuttable(b[r]) && forall j :: from <= j < r ==> !Cuttable(b[j])
  }

  predicate SomeCuttable(b: seq<Entry>, from: nat) {
    exists r :: from <= r < |b| && Cuttable(b[r])
  }

  /** `r` is where the branch may first be cut without keeping more than is wanted, or where it may be cut at all. */
  ghost predicate Wanted(b: seq<Entry>, boundary: nat, keepRecent: int, r: nat) {
    || (exists i :: ReachesAt(b, boundary, keepRecent, i) && FirstCuttable(b, i, r))
    || (FirstCuttable(b, boundary, r) && forall i :: ReachesAt(b, boundary, keepRecent, i) ==> !SomeCuttable(b, i))
  }

  /** The cut is moved back from there over everything but messages and compactions. */
  predicate BackedOff(b: seq<Entry>, boundary: nat, cut: nat, r: nat) {
    && boundary <= cut <= r < |b|
    && (forall j :: cut <= j < r ==> !b[j].body.MessageEntry? && !b[j].body.Compaction?)
    && (cut == boundary || b[cut - 1].body.MessageEntry? || b[cut - 1].body.Compaction?)
  }

  lemma {:induction false} BackOffIs(b: seq<Entry>, boundary: nat, r: nat)
    requires boundary <= r < |b|
    ensures BackedOff(b, boundary, BackOff(b, boundary, r), r)
    decreases r
  {
    if r > boundary && !b[r - 1].body.MessageEntry? && !b[r - 1].body.Compaction? {
      BackOffIs(b, boundary, r - 1);
    }
  }

  lemma {:induction false} CrossingIs(b: seq<Entry>, boundary: nat, hi: nat, keepRecent: int)
    requires boundary <= hi <= |b|
    requires forall j :: hi <= j < |b| && !SaysNothing(b[j]) ==> Weight(b[j..]) < keepRecent
    ensures match Crossing(b, boundary, hi, Weight(b[hi..]), keepRecent)
      case None => forall i :: !ReachesAt(b, boundary, keepRecent, i)
      case Some(i) => ReachesAt(b, boundary, keepRecent, i)
    decreases hi
  {
    hide Tokens, EntryMessage, Weight, SaysNothing;
    if boundary < hi {
      EntryReads(b[hi - 1]);
      WeightStep(b, hi - 1);
      if EntryMessage(b[hi - 1]).None? || Weight(b[hi - 1..]) < keepRecent {
        CrossingIs(b, boundary, hi - 1, keepRecent);
      }
    }
  }

  lemma FirstCutIs(b: seq<Entry>, from: nat)
    ensures match FirstCut(b, from)
      case None => !SomeCuttable(b, from)
      case Some(r) => FirstCuttable(b, from, r) && SomeCuttable(b, from)
  {
    hide MayCutAt, Cuttable;
    forall i | 0 <= i < |b| ensures MayCutAt(b[i]) <==> Cuttable(b[i]) {
      EntryReads(b[i]);
    }
  }

  lemma ReachesOnce(b: seq<Entry>, boundary: nat, keepRecent: int, i: nat, j: nat)
    requires ReachesAt(b, boundary, keepRecent, i) && ReachesAt(b, boundary, keepRecent, j)
    ensures i == j
  {
  }

  /** A branch can be cut exactly when some entry from the boundary on can be cut at; the cut is the wanted one, moved back. */
  lemma CutIs(b: seq<Entry>, keepRecent: int)
    ensures CutIndex(b, keepRecent).Some? <==> SomeCuttable(b, Boundary(b))
    ensures CutIndex(b, keepRecent).Some? ==>
              exists r :: Wanted(b, Boundary(b), keepRecent, r) && BackedOff(b, Boundary(b), CutIndex(b, keepRecent).value, r)
  {
    hide Boundary, Crossing, FirstCut, BackOff, BackedOff, FirstCuttable, SomeCuttable, ReachesAt, Weight;
    var boundary := Boundary(b);
    FirstCutIs(b, boundary);
    if FirstCut(b, boundary).Some? {
      var reached := Crossing(b, boundary, |b|, 0, keepRecent);
      assert b[|b|..] == [] && Weight([]) == 0 by { NothingWeighs(b); }
      CrossingIs(b, boundary, |b|, keepRecent);
      var r := FirstCut(b, boundary).value;
      if reached.Some? {
        FirstCutIs(b, reached.value);
        r := FirstCut(b, reached.value).GetOr(r);
        forall i | ReachesAt(b, boundary, keepRecent, i) ensures i == reached.value {
          ReachesOnce(b, boundary, keepRecent, i, reached.value);
        }
      }
      BackOffIs(b, boundary, r);
      assert Wanted(b, boundary, keepRecent, r);
    }
  }

  lemma NothingWeighs(b: seq<Entry>)
    ensures b[|b|..] == [] && Weight([]) == 0
  {
  }

  // ---------------------------------------------------------------- the turn

  /** The last entry that begins a turn, up to and including the cut. */
  predicate TurnBegins(b: seq<Entry>, boundary: nat, cut: nat, s: nat)
    requires cut < |b|
  {
    boundary <= s <= cut && BeginsTurn(b[s]) && forall j :: s < j <= cut ==> !BeginsTurn(b[j])
  }

  predicate SomeTurnBegins(b: seq<Entry>, boundary: nat, cut: nat)
    requires cut < |b|
  {
    exists s :: boundary <= s <= cut && BeginsTurn(b[s])
  }

  /** The history ends, and the split turn begins, at entry `s`. */
  predicate SplitAt(b: seq<Entry>, p: Preparation, boundary: nat, cut: nat, s: nat)
    requires boundary <= cut < |b|
  {
    TurnBegins(b, boundary, cut, s) && p.messages == MessagesOf(b[boundary..s]) && p.turnPrefix == MessagesOf(b[s..cut])
  }

  lemma {:induction false} LastTurnStartIs(b: seq<Entry>, boundary: nat, hi: nat)
    requires hi <= |b|
    ensures match LastTurnStart(b, boundary, hi)
      case None => forall j :: boundary <= j < hi ==> !BeginsTurn(b[j])
      case Some(s) => boundary <= s < hi && BeginsTurn(b[s]) && forall j :: s < j < hi ==> !BeginsTurn(b[j])
    decreases hi
  {
    hide BeginsTurn, OpensTurn;
    if boundary < hi {
      EntryReads(b[hi - 1]);
      LastTurnStartIs(b, boundary, hi - 1);
    }
  }

  /** Where the parts of a preparation begin and end. A turn is split exactly when one began at or before the cut, after the
      last compaction's boundary, and the cut is not itself a message of the user; its part before the cut then starts at the
      last entry that begins a turn, and the history to summarise ends there. Otherwise all before the cut is history. */
  lemma PartsOf(b: seq<Entry>, keepRecent: int)
    requires Prepare(b, keepRecent).Some?
    ensures CutIndex(b, keepRecent).Some? && Boundary(b) <= CutIndex(b, keepRecent).value < |b|
    ensures var p, boundary, cut := Prepare(b, keepRecent).value, Boundary(b), CutIndex(b, keepRecent).value;
      && p.firstKept == b[cut].id && p.tail == MessagesOf(b[cut..]) && p.previous == PreviousSummary(b)
      && (p.splitTurn <==> !SaidByUser(b[cut]) && SomeTurnBegins(b, boundary, cut))
      && (p.splitTurn ==> exists s: nat :: SplitAt(b, p, boundary, cut, s))
      && (!p.splitTurn ==> p.messages == MessagesOf(b[boundary..cut]) && p.turnPrefix == [])
  {
    hide Boundary, CutIndex, MessagesOf, PreviousSummary, LastTurnStart, BeginsTurn, SaidByUser, HasRole;
    var boundary, cut := Boundary(b), CutIndex(b, keepRecent).value;
    EntryReads(b[cut]);
    LastTurnStartIs(b, boundary, cut + 1);
    var start := TurnStart(b, boundary, cut);
    if start.Some? {
      assert TurnBegins(b, boundary, cut, start.value);
      assert SplitAt(b, Prepare(b, keepRecent).value, boundary, cut, start.value);
    } else {
      assert b[cut..cut] == [] && MessagesOf([]) == [] by { NothingSaid(b, cut); }
    }
  }

  lemma NothingSaid(b: seq<Entry>, i: nat)
    requires i <= |b|
    ensures b[i..i] == [] && MessagesOf([]) == []
  {
  }

  lemma {:induction false} SaysSomethingIff(entries: seq<Entry>)
    ensures MessagesOf(entries) == [] <==> forall i :: 0 <= i < |entries| ==> SaysNothing(entries[i])
  {
    var places := MessagesAreReadOff(entries);
    if MessagesOf(entries) != [] {
      assert !SaysNothing(entries[places[0]]);
    }
  }

  /** Some entry of the stretch stands for a message. */
  predicate SaysSomething(b: seq<Entry>, i: nat, j: nat)
    requires j <= |b|
  {
    exists k :: i <= k < j && !SaysNothing(b[k])
  }

  lemma StretchSaysIff(b: seq<Entry>, i: nat, j: nat)
    requires i <= j <= |b|
    ensures MessagesOf(b[i..j]) != [] <==> SaysSomething(b, i, j)
  {
    hide MessagesOf, SaysNothing;
    SaysSomethingIff(b[i..j]);
    if k :| i <= k < j && !SaysNothing(b[k]) {
      assert b[k] == b[i..j][k - i];
    }
    if k :| 0 <= k < j - i && !SaysNothing(b[i..j][k]) {
      assert b[i..j][k] == b[k + i];
    }
  }

  /** A compaction is prepared exactly for a branch that does not end in a compaction, has a place to cut whose entry has an
      identifier, and has a message to summarise before it. */
  lemma PreparedWhen(b: seq<Entry>, keepRecent: int)
    ensures Prepare(b, keepRecent).Some? <==>
      && b != [] && !b[|b| - 1].body.Compaction? && CutIndex(b, keepRecent).Some?
      && b[CutIndex(b, keepRecent).value].id != ""
      && SaysSomething(b, Boundary(b), CutIndex(b, keepRecent).value)
  {
    hide Boundary, CutIndex, MessagesOf, PreviousSummary, TurnStart, SaysSomething;
    if b != [] && !b[|b| - 1].body.Compaction? && CutIndex(b, keepRecent).Some? {
      var boundary, cut := Boundary(b), CutIndex(b, keepRecent).value;
      MessagesInThree(b, boundary, TurnStart(b, boundary, cut).GetOr(cut), cut);
      StretchSaysIff(b, boundary, cut);
    }
  }

  // ---------------------------------------------------------------- what is shown

  /** An entry adds to the conversation the message it stands for, or the summary of the branch it was made on. */
  lemma EntryShows(e: Entry)
    ensures forall m :: Says(e, m) ==> AllShown([e]) == [Said(m)]
    ensures forall s :: e.body == BranchSummary(s) && s != NoSummary ==> AllShown([e]) == [Abandoned(s)]
    ensures SaysNothing(e) && (forall s :: e.body == BranchSummary(s) ==> s == NoSummary) ==> AllShown([e]) == []
  {
    hide Says, SaysNothing;
    EntryReads(e);
    assert [e][..0] == [];
    assert AllShown([e]) == ShownOf(e);
  }

  /** Without a compaction the conversation is that of all entries; it is put together entry by entry. */
  lemma ConversationGrows(a: seq<Entry>, b: seq<Entry>)
    ensures AllShown(a + b) == AllShown(a) + AllShown(b)
    ensures (forall i :: 0 <= i < |a| ==> !a[i].body.Compaction?) ==> Replay(a) == AllShown(a)
  {
    hide AllShown;
    ShownSplit(a, b);
  }
}
