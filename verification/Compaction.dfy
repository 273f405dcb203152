/**
 Compaction of one branch: where the branch is cut, what of it goes to the
 summariser, what is kept, and how the conversation is rebuilt afterwards.
 */
module Compaction {
  import opened SessionTree
  import opened Wrappers

  const IMAGE_CHARS: nat := 4800

  // ---------------------------------------------------------------- messages of entries

  function EntryMessage(e: Entry): Option<Message> {
    match e.body
    case CustomMessage(Some(content)) => Some(Message(User, content, "", 0, [], NONE, e.timestamp))
    case MessageEntry(Some(message)) => if message.role == NoRole then None else Some(message)
    case _ => None
  }

  function OneMessage(e: Entry): seq<Message> {
    match EntryMessage(e)
    case Some(message) => [message]
    case None => []
  }

  function MessagesOf(entries: seq<Entry>): seq<Message> {
    if entries == [] then [] else MessagesOf(entries[..|entries| - 1]) + OneMessage(entries[|entries| - 1])
  }

  function CallChars(calls: seq<ToolCall>): nat {
    if calls == [] then 0
    else CallChars(calls[..|calls| - 1]) + |calls[|calls| - 1].name| + |calls[|calls| - 1].arguments|
  }

  function Tokens(m: Message): nat {
    (|m.content| + |m.thinking| + m.images * IMAGE_CHARS + CallChars(m.toolCalls) + 3) / 4
  }

  // ---------------------------------------------------------------- where to cut

  function LastCompaction(b: seq<Entry>): (i: Option<nat>)
    ensures i.Some? ==> i.value < |b| && b[i.value].body.Compaction?
    ensures i.Some? ==> forall j :: i.value < j < |b| ==> !b[j].body.Compaction?
    ensures i.None? ==> forall j :: 0 <= j < |b| ==> !b[j].body.Compaction?
  {
    if b == [] then None
    else if b[|b| - 1].body.Compaction? then Some(|b| - 1)
    else LastCompaction(b[..|b| - 1])
  }

  /** The first entry under an identifier. */
  function IndexOf(b: seq<Entry>, id: Id): (i: Option<nat>)
    ensures i.Some? ==> i.value < |b| && b[i.value].id == id && forall j :: 0 <= j < i.value ==> b[j].id != id
    ensures i.None? ==> forall j :: 0 <= j < |b| ==> b[j].id != id
  {
    if b == [] then None
    else
      var before := IndexOf(b[..|b| - 1], id);
      if before.Some? then before else if b[|b| - 1].id == id then Some(|b| - 1) else None
  }

  /** The first entry that is not summarised yet. */
  function Boundary(b: seq<Entry>): (i: nat)
    ensures b != [] ==> i < |b|
    ensures b == [] ==> i == 0
  {
    match LastCompaction(b)
    case None => 0
    case Some(i) => IndexOf(b, b[i].body.firstKept).GetOr(0)
  }

  function PreviousSummary(b: seq<Entry>): Summary {
    match LastCompaction(b)
    case None => NoSummary
    case Some(i) => b[i].body.summary
  }

  predicate HasRole(e: Entry, role: Role) {
    EntryMessage(e).Some? && EntryMessage(e).value.role == role
  }

  predicate MayCutAt(e: Entry) {
    e.body.BranchSummary? || e.body.CustomMessage? || HasRole(e, User) || HasRole(e, Assistant)
  }

  predicate OpensTurn(e: Entry) {
    e.body.BranchSummary? || e.body.CustomMessage? || HasRole(e, User)
  }

  function FirstCut(b: seq<Entry>, from: nat): (cut: Option<nat>)
    ensures cut.Some? ==> from <= cut.value < |b| && MayCutAt(b[cut.value])
    ensures cut.Some? ==> forall j :: from <= j < cut.value ==> !MayCutAt(b[j])
    ensures cut.None? ==> forall j :: from <= j < |b| ==> !MayCutAt(b[j])
    decreases |b| - from
  {
    if from >= |b| then None else if MayCutAt(b[from]) then Some(from) else FirstCut(b, from + 1)
  }

  /** Counting back from `hi`, the message at which the kept tokens reach the wanted number. */
  function Crossing(b: seq<Entry>, boundary: nat, hi: nat, kept: nat, keepRecent: int): (i: Option<nat>)
    requires hi <= |b|
    ensures i.Some? ==> boundary <= i.value < hi
    decreases hi
  {
    if hi <= boundary then None
    else
      match EntryMessage(b[hi - 1])
      case None => Crossing(b, boundary, hi - 1, kept, keepRecent)
      case Some(m) =>
        if kept + Tokens(m) >= keepRecent then Some(hi - 1)
        else Crossing(b, boundary, hi - 1, kept + Tokens(m), keepRecent)
  }

  /** Entries that are neither messages nor compactions stay with what follows them. */
  function BackOff(b: seq<Entry>, boundary: nat, cut: nat): (c: nat)
    requires boundary <= cut < |b|
    ensures boundary <= c <= cut
    ensures forall j :: c <= j < cut ==> !b[j].body.MessageEntry? && !b[j].body.Compaction?
    decreases cut
  {
    if cut > boundary && !b[cut - 1].body.MessageEntry? && !b[cut - 1].body.Compaction?
    then BackOff(b, boundary, cut - 1) else cut
  }

  function CutIndex(b: seq<Entry>, keepRecent: int): (cut: Option<nat>)
    ensures cut.Some? ==> Boundary(b) <= cut.value < |b|
  {
    var boundary := Boundary(b);
    match FirstCut(b, boundary)
    case None => None
    case Some(first) =>
      var reached := Crossing(b, boundary, |b|, 0, keepRecent);
      var raw := if reached.Some? then FirstCut(b, reached.value).GetOr(first) else first;
      Some(BackOff(b, boundary, raw))
  }

  function LastTurnStart(b: seq<Entry>, boundary: nat, hi: nat): (i: Option<nat>)
    requires hi <= |b|
    ensures i.Some? ==> boundary <= i.value < hi && OpensTurn(b[i.value])
    decreases hi
  {
    if hi <= boundary then None else if OpensTurn(b[hi - 1]) then Some(hi - 1) else LastTurnStart(b, boundary, hi - 1)
  }

  /** When the cut falls inside a turn, where that turn began. */
  function TurnStart(b: seq<Entry>, boundary: nat, cut: nat): (i: Option<nat>)
    requires cut < |b|
    ensures i.Some? ==> boundary <= i.value <= cut
  {
    if HasRole(b[cut], User) then None else LastTurnStart(b, boundary, cut + 1)
  }

  datatype Preparation = Preparation(firstKept: Id, messages: seq<Message>, turnPrefix: seq<Message>,
                                     tail: seq<Message>, splitTurn: bool, previous: Summary)

  function Prepared(b: seq<Entry>, cut: nat): Preparation
    requires Boundary(b) <= cut < |b|
  {
    var boundary := Boundary(b);
    var turnStart := TurnStart(b, boundary, cut);
    var historyEnd := turnStart.GetOr(cut);
    Preparation(b[cut].id, MessagesOf(b[boundary..historyEnd]), MessagesOf(b[historyEnd..cut]), MessagesOf(b[cut..]),
                turnStart.Some?, PreviousSummary(b))
  }

  function Prepare(b: seq<Entry>, keepRecent: int): Option<Preparation> {
    if b == [] || b[|b| - 1].body.Compaction? then None
    else
      match CutIndex(b, keepRecent)
      case None => None
      case Some(cut) =>
        var p := Prepared(b, cut);
        if p.firstKept == NONE || (p.messages == [] && p.turnPrefix == []) then None else Some(p)
  }

  // ---------------------------------------------------------------- the same, step by step

  method MessageTokens(m: Message) returns (tokens: nat)
    ensures tokens == Tokens(m)
  {
    var chars := |m.content| + |m.thinking| + m.images * IMAGE_CHARS;
    for k := 0 to |m.toolCalls|
      invariant chars == |m.content| + |m.thinking| + m.images * IMAGE_CHARS + CallChars(m.toolCalls[..k])
    {
      assert m.toolCalls[..k + 1][..k] == m.toolCalls[..k];
      chars := chars + |m.toolCalls[k].name| + |m.toolCalls[k].arguments|;
    }
    assert m.toolCalls[..|m.toolCalls|] == m.toolCalls;
    tokens := (chars + 3) / 4;
  }

  method FindEntry(b: seq<Entry>, id: Id) returns (found: Option<nat>)
    ensures found == IndexOf(b, id)
  {
    for j := 0 to |b|
      invariant forall k :: 0 <= k < j ==> b[k].id != id
    {
      if b[j].id == id {
        return Some(j);
      }
    }
    return None;
  }

  method FindBoundary(b: seq<Entry>) returns (boundary: nat, previous: Summary)
    ensures boundary == Boundary(b) && previous == PreviousSummary(b)
  {
    var i := |b|;
    while i > 0
      invariant 0 <= i <= |b|
      invariant forall j :: i <= j < |b| ==> !b[j].body.Compaction?
    {
      i := i - 1;
      if b[i].body.Compaction? {
        var found := FindEntry(b, b[i].body.firstKept);
        assert LastCompaction(b) == Some(i);
        return found.GetOr(0), b[i].body.summary;
      }
    }
    assert LastCompaction(b) == None;
    return 0, NoSummary;
  }

  method CollectMessages(b: seq<Entry>, from: nat, to: nat) returns (messages: seq<Message>)
    requires from <= to <= |b|
    ensures messages == MessagesOf(b[from..to])
  {
    messages := [];
    for i := from to to
      invariant messages == MessagesOf(b[from..i])
    {
      assert b[from..i + 1][..i - from] == b[from..i];
      var message := EntryMessage(b[i]);
      if message.Some? {
        messages := messages + [message.value];
      }
    }
  }

  method CollectCuts(b: seq<Entry>, boundary: nat) returns (cuts: seq<nat>)
    requires boundary <= |b|
    ensures forall k :: 0 <= k < |cuts| ==> boundary <= cuts[k] < |b| && MayCutAt(b[cuts[k]])
    ensures forall j, k :: 0 <= j < k < |cuts| ==> cuts[j] < cuts[k]
    ensures forall j :: boundary <= j < |b| && MayCutAt(b[j]) ==> j in cuts
  {
    cuts := [];
    for i := boundary to |b|
      invariant forall k :: 0 <= k < |cuts| ==> boundary <= cuts[k] < i && MayCutAt(b[cuts[k]])
      invariant forall j, k :: 0 <= j < k < |cuts| ==> cuts[j] < cuts[k]
      invariant forall j :: boundary <= j < i && MayCutAt(b[j]) ==> j in cuts
    {
      if MayCutAt(b[i]) {
        cuts := cuts + [i];
      }
    }
  }

  /** The first listed cut from an index on. */
  method NextCut(b: seq<Entry>, boundary: nat, cuts: seq<nat>, from: nat) returns (cut: Option<nat>)
    requires boundary <= from <= |b|
    requires forall k :: 0 <= k < |cuts| ==> boundary <= cuts[k] < |b| && MayCutAt(b[cuts[k]])
    requires forall j, k :: 0 <= j < k < |cuts| ==> cuts[j] < cuts[k]
    requires forall j :: boundary <= j < |b| && MayCutAt(b[j]) ==> j in cuts
    ensures cut == FirstCut(b, from)
  {
    for k := 0 to |cuts|
      invariant forall j :: 0 <= j < k ==> cuts[j] < from
    {
      if cuts[k] >= from {
        return Some(cuts[k]);
      }
    }
    return None;
  }

  method FindCrossing(b: seq<Entry>, boundary: nat, keepRecent: int) returns (reached: Option<nat>)
    requires boundary <= |b|
    ensures reached == Crossing(b, boundary, |b|, 0, keepRecent)
  {
    var kept: nat := 0;
    var i := |b|;
    while i > boundary
      invariant boundary <= i <= |b|
      invariant Crossing(b, boundary, |b|, 0, keepRecent) == Crossing(b, boundary, i, kept, keepRecent)
    {
      var message := EntryMessage(b[i - 1]);
      if message.Some? {
        var tokens := MessageTokens(message.value);
        if kept + tokens >= keepRecent {
          return Some(i - 1);
        }
        kept := kept + tokens;
      }
      i := i - 1;
    }
    return None;
  }

  method KeepBookkeeping(b: seq<Entry>, boundary: nat, raw: nat) returns (cut: nat)
    requires boundary <= raw < |b|
    ensures cut == BackOff(b, boundary, raw)
  {
    cut := raw;
    while cut > boundary && !b[cut - 1].body.MessageEntry? && !b[cut - 1].body.Compaction?
      invariant boundary <= cut < |b|
      invariant BackOff(b, boundary, raw) == BackOff(b, boundary, cut)
    {
      cut := cut - 1;
    }
  }

  method FindCut(b: seq<Entry>, boundary: nat, keepRecent: int) returns (cut: Option<nat>)
    requires boundary == Boundary(b) <= |b|
    ensures cut == CutIndex(b, keepRecent)
  {
    hide Boundary, Crossing, BackOff, FirstCut;
    var cuts := CollectCuts(b, boundary);
    var first := NextCut(b, boundary, cuts, boundary);
    if first.None? {
      return None;
    }
    var raw := first.value;
    var reached := FindCrossing(b, boundary, keepRecent);
    if reached.Some? {
      var candidate := NextCut(b, boundary, cuts, reached.value);
      raw := candidate.GetOr(raw);
    }
    var at := KeepBookkeeping(b, boundary, raw);
    return Some(at);
  }

  method FindTurnStart(b: seq<Entry>, boundary: nat, cut: nat) returns (start: Option<nat>)
    requires boundary <= cut < |b|
    ensures start == TurnStart(b, boundary, cut)
  {
    if HasRole(b[cut], User) {
      return None;
    }
    var i := cut + 1;
    while i > boundary
      invariant boundary <= i <= cut + 1
      invariant LastTurnStart(b, boundary, cut + 1) == LastTurnStart(b, boundary, i)
    {
      i := i - 1;
      if OpensTurn(b[i]) {
        return Some(i);
      }
    }
    return None;
  }

  method PrepareCompaction(b: seq<Entry>, keepRecent: int) returns (p: Option<Preparation>)
    ensures p == Prepare(b, keepRecent)
  {
    hide Boundary, CutIndex, TurnStart, PreviousSummary;
    if |b| == 0 || b[|b| - 1].body.Compaction? {
      return None;
    }
    var boundary, previous := FindBoundary(b);
    var cut := FindCut(b, boundary, keepRecent);
    if cut.None? {
      return None;
    }
    var turnStart := FindTurnStart(b, boundary, cut.value);
    var historyEnd := turnStart.GetOr(cut.value);
    if b[cut.value].id == NONE {
      return None;
    }
    var messages := CollectMessages(b, boundary, historyEnd);
    var turnPrefix: seq<Message> := [];
    if turnStart.Some? {
      turnPrefix := CollectMessages(b, turnStart.value, cut.value);
    }
    assert turnPrefix == MessagesOf(b[historyEnd..cut.value]);
    var tail := CollectMessages(b, cut.value, |b|);
    assert b[cut.value..|b|] == b[cut.value..];
    if |messages| == 0 && |turnPrefix| == 0 {
      return None;
    }
    return Some(Preparation(b[cut.value].id, messages, turnPrefix, tail, turnStart.Some?, previous));
  }

  // ---------------------------------------------------------------- the summary

  /** What the summary of a compaction is written from. */
  function SummaryOf(p: Preparation): Summary {
    if p.splitTurn && p.turnPrefix != [] then
      SplitTurn(if p.messages != [] then History(p.messages, p.previous) else NoSummary, p.turnPrefix)
    else History(p.messages, p.previous)
  }

  /** Every message a summary goes back to, through the summaries it was given. */
  function Lineage(s: Summary): seq<Message> {
    match s
    case NoSummary => []
    case History(messages, previous) => Lineage(previous) + messages
    case SplitTurn(history, prefix) => Lineage(history) + prefix
  }

  function CompactionEntry(id: Id, parent: Id, timestamp: int, p: Preparation): Entry {
    Entry(id, parent, timestamp, Body.Compaction(SummaryOf(p), p.firstKept, p.tail))
  }

  // ---------------------------------------------------------------- rebuilding the conversation

  datatype Shown = Said(message: Message) | Summarised(summary: Summary) | Abandoned(summary: Summary)

  function ShownOf(e: Entry): seq<Shown> {
    if e.body.BranchSummary? then (if e.body.abandoned == NoSummary then [] else [Abandoned(e.body.abandoned)])
    else match EntryMessage(e)
      case Some(message) => [Said(message)]
      case None => []
  }

  function AllShown(entries: seq<Entry>): seq<Shown> {
    if entries == [] then [] else AllShown(entries[..|entries| - 1]) + ShownOf(entries[|entries| - 1])
  }

  function AllSaid(messages: seq<Message>): (s: seq<Shown>)
    ensures |s| == |messages| && forall k :: 0 <= k < |s| ==> s[k] == Said(messages[k])
  {
    seq(|messages|, k requires 0 <= k < |messages| => Said(messages[k]))
  }

  function SummaryShown(s: Summary): seq<Shown> {
    if s == NoSummary then [] else [Summarised(s)]
  }

  /** The conversation by its definition: the last summary, then everything from the first kept entry on. */
  function ReplayFromFirstKept(b: seq<Entry>): seq<Shown> {
    match LastCompaction(b)
    case None => AllShown(b)
    case Some(i) => SummaryShown(b[i].body.summary) + AllShown(b[IndexOf(b, b[i].body.firstKept).GetOr(0)..])
  }

  /** The conversation as the engine rebuilds it, from the cached tail when there is one. */
  function Replay(b: seq<Entry>): seq<Shown> {
    match LastCompaction(b)
    case None => AllShown(b)
    case Some(i) =>
      if b[i].body.tail == [] then ReplayFromFirstKept(b)
      else SummaryShown(b[i].body.summary) + AllSaid(b[i].body.tail) + AllShown(b[i + 1..])
  }

  lemma CompactionShowsNothing(e: Entry)
    ensures e.body.Compaction? ==> ShownOf(e) == []
  {
  }

  method CollectShown(b: seq<Entry>, from: nat) returns (out: seq<Shown>)
    requires from <= |b|
    ensures out == AllShown(b[from..])
  {
    hide ShownOf;
    out := [];
    for k := from to |b|
      invariant out == AllShown(b[from..k])
    {
      assert b[from..k + 1][..k - from] == b[from..k];
      CompactionShowsNothing(b[k]);
      if !b[k].body.Compaction? {
        out := out + ShownOf(b[k]);
      }
    }
    assert b[from..|b|] == b[from..];
  }

  /** The conversation from the last compaction on: its summary, then its cached tail or what it kept, then the rest. */
  method RebuildFrom(b: seq<Entry>, i: nat) returns (out: seq<Shown>)
    requires LastCompaction(b) == Some(i)
    ensures out == Replay(b)
  {
    hide AllShown, LastCompaction, IndexOf, ShownOf, AllSaid;
    out := [];
    if b[i].body.summary != NoSummary {
      out := out + [Summarised(b[i].body.summary)];
    }
    assert out == SummaryShown(b[i].body.summary);
    if |b[i].body.tail| > 0 {
      var rest := CollectShown(b, i + 1);
      return out + AllSaid(b[i].body.tail) + rest;
    }
    var found := FindEntry(b, b[i].body.firstKept);
    var rest := CollectShown(b, found.GetOr(0));
    return out + rest;
  }

  method MessagesFromEntries(b: seq<Entry>) returns (out: seq<Shown>)
    ensures out == Replay(b)
  {
    hide AllShown, LastCompaction, IndexOf, ShownOf;
    var i := |b|;
    while i > 0
      invariant 0 <= i <= |b|
      invariant forall j :: i <= j < |b| ==> !b[j].body.Compaction?
    {
      i := i - 1;
      if b[i].body.Compaction? {
        LastIs(b, i);
        out := RebuildFrom(b, i);
        return;
      }
    }
    NoneIsLast(b);
    assert b[0..] == b;
    out := CollectShown(b, 0);
  }

  lemma LastIs(b: seq<Entry>, i: nat)
    requires i < |b| && b[i].body.Compaction? && forall j :: i < j < |b| ==> !b[j].body.Compaction?
    ensures LastCompaction(b) == Some(i)
  {
  }

  lemma NoneIsLast(b: seq<Entry>)
    requires forall j :: 0 <= j < |b| ==> !b[j].body.Compaction?
    ensures LastCompaction(b) == None
  {
  }
}
