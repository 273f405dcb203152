/**
 What compaction keeps over whole runs: no message is skipped or summarised
 twice, and the rebuilt conversation is the summary followed by what was kept.
 */
module CompactionTheorems {
  import opened Compaction
  import opened SessionTree
  import opened Wrappers

  // ---------------------------------------------------------------- splitting

  lemma {:induction false} MessagesSplit(a: seq<Entry>, b: seq<Entry>)
    ensures MessagesOf(a + b) == MessagesOf(a) + MessagesOf(b)
  {
    hide OneMessage;
    if b == [] {
      assert a + b == a;
    } else {
      MessagesSplit(a, b[..|b| - 1]);
      assert (a + b)[..|a + b| - 1] == a + b[..|b| - 1];
    }
  }

  lemma {:induction false} ShownSplit(a: seq<Entry>, b: seq<Entry>)
    ensures AllShown(a + b) == AllShown(a) + AllShown(b)
  {
    hide ShownOf;
    if b == [] {
      assert a + b == a;
    } else {
      ShownSplit(a, b[..|b| - 1]);
      assert (a + b)[..|a + b| - 1] == a + b[..|b| - 1];
    }
  }

  // ---------------------------------------------------------------- one compaction

  /** What is summarised and what is kept are together exactly what the last compaction had kept, in order. */
  lemma PreparationPartitions(b: seq<Entry>, keepRecent: int)
    requires Prepare(b, keepRecent).Some?
    ensures var p := Prepare(b, keepRecent).value;
      && p.messages + p.turnPrefix + p.tail == MessagesOf(b[Boundary(b)..])
      && |p.tail| < |MessagesOf(b[Boundary(b)..])|
  {
    hide Boundary, CutIndex, TurnStart, MessagesOf;
    var boundary, cut := Boundary(b), CutIndex(b, keepRecent).value;
    MessagesInThree(b, boundary, TurnStart(b, boundary, cut).GetOr(cut), cut);
  }

  lemma MessagesInThree(b: seq<Entry>, i: nat, j: nat, k: nat)
    requires i <= j <= k <= |b|
    ensures MessagesOf(b[i..j]) + MessagesOf(b[j..k]) == MessagesOf(b[i..k])
    ensures MessagesOf(b[i..j]) + MessagesOf(b[j..k]) + MessagesOf(b[k..]) == MessagesOf(b[i..])
  {
    hide MessagesOf;
    assert b[i..k] == b[i..j] + b[j..k];
    assert b[i..] == b[i..k] + b[k..];
    MessagesSplit(b[i..j], b[j..k]);
    MessagesSplit(b[i..k], b[k..]);
  }

  function Weight(entries: seq<Entry>): nat {
    if entries == [] then 0
    else (match EntryMessage(entries[0]) case Some(m) => Tokens(m) case None => 0) + Weight(entries[1..])
  }

  lemma WeightStep(b: seq<Entry>, i: nat)
    requires i < |b|
    ensures Weight(b[i..]) == Weight(b[i + 1..]) + (if EntryMessage(b[i]).Some? then Tokens(EntryMessage(b[i]).value) else 0)
  {
    hide Tokens, EntryMessage;
    assert b[i..][1..] == b[i + 1..];
  }

  lemma {:induction false} CrossingFrom(b: seq<Entry>, boundary: nat, hi: nat, keepRecent: int)
    requires boundary <= hi <= |b| && Weight(b[hi..]) < keepRecent
    ensures match Crossing(b, boundary, hi, Weight(b[hi..]), keepRecent)
      case None => Weight(b[boundary..]) < keepRecent
      case Some(i) => Weight(b[i + 1..]) < keepRecent <= Weight(b[i..])
    decreases hi
  {
    hide Tokens, EntryMessage;
    if boundary < hi {
      assert b[hi - 1..][1..] == b[hi..];
      if Weight(b[hi - 1..]) < keepRecent {
        CrossingFrom(b, boundary, hi - 1, keepRecent);
      }
    }
  }

  /** The crossing point is the last message from which on at least the wanted number of tokens is kept; without one,
      everything not summarised yet is less. */
  lemma CrossingReaches(b: seq<Entry>, boundary: nat, keepRecent: int)
    requires boundary <= |b| && keepRecent > 0
    ensures match Crossing(b, boundary, |b|, 0, keepRecent)
      case None => Weight(b[boundary..]) < keepRecent
      case Some(i) => Weight(b[i + 1..]) < keepRecent <= Weight(b[i..])
  {
    hide Crossing;
    assert b[|b|..] == [];
    CrossingFrom(b, boundary, |b|, keepRecent);
  }

  /** What a compaction keeps, bookkeeping aside, is less than was asked for or begins at the crossing point, unless there
      is no place to cut from the crossing point on. */
  lemma KeptIsRecent(b: seq<Entry>, keepRecent: int)
    requires keepRecent > 0 && Prepare(b, keepRecent).Some?
    ensures CutIndex(b, keepRecent).Some?
    ensures var reached := Crossing(b, Boundary(b), |b|, 0, keepRecent);
      reached.Some? && FirstCut(b, reached.value).Some? ==>
        var raw := FirstCut(b, reached.value).value;
        && CutIndex(b, keepRecent).value == BackOff(b, Boundary(b), raw)
        && (raw == reached.value || Weight(b[raw..]) < keepRecent)
  {
    hide Crossing, BackOff, FirstCut, Boundary, Prepared, Weight;
    var reached := Crossing(b, Boundary(b), |b|, 0, keepRecent);
    CrossingReaches(b, Boundary(b), keepRecent);
    if reached.Some? && FirstCut(b, reached.value).Some? && FirstCut(b, reached.value).value > reached.value {
      LighterLater(b, reached.value + 1, FirstCut(b, reached.value).value);
    }
  }

  lemma {:induction false} LighterLater(b: seq<Entry>, i: nat, j: nat)
    requires i <= j <= |b|
    ensures Weight(b[j..]) <= Weight(b[i..])
    decreases j - i
  {
    hide Tokens, EntryMessage;
    if i < j {
      assert b[i..][1..] == b[i + 1..];
      LighterLater(b, i + 1, j);
    }
  }

  // ---------------------------------------------------------------- runs on one branch

  datatype BranchStep =
    | Write(entry: Entry)
    | Compact(keepRecent: int, late: seq<Entry>, id: Id, parent: Id, timestamp: int)

  /** Compacting takes time: the entries in `late` are written after it is prepared and before it is appended. */
  function Do(b: seq<Entry>, step: BranchStep): seq<Entry> {
    match step
    case Write(entry) => b + [entry]
    case Compact(keepRecent, late, id, parent, timestamp) =>
      match Prepare(b, keepRecent)
      case None => b
      case Some(p) => b + late + [CompactionEntry(id, parent, timestamp, p)]
  }

  /** The messages a step hands to the summariser. */
  function Given(b: seq<Entry>, step: BranchStep): seq<Message> {
    if step.Compact? && Prepare(b, step.keepRecent).Some? then
      Prepare(b, step.keepRecent).value.messages + Prepare(b, step.keepRecent).value.turnPrefix
    else []
  }

  /** Identifiers are real and new, and only a compaction writes a compaction entry. */
  predicate MayWrite(b: seq<Entry>, entry: Entry) {
    entry.id != NONE && !Known(b, entry.id) && !entry.body.Compaction?
  }

  predicate MayWriteAll(b: seq<Entry>, entries: seq<Entry>) {
    entries == [] ||
    (MayWriteAll(b, entries[..|entries| - 1]) && MayWrite(b + entries[..|entries| - 1], entries[|entries| - 1]))
  }

  predicate Allowed(b: seq<Entry>, step: BranchStep) {
    match step
    case Write(entry) => MayWrite(b, entry)
    case Compact(_, late, id, _, _) => MayWriteAll(b, late) && id != NONE && !Known(b + late, id)
  }

  function Run(steps: seq<BranchStep>): seq<Entry> {
    if steps == [] then [] else Do(Run(steps[..|steps| - 1]), steps[|steps| - 1])
  }

  function GivenBy(steps: seq<BranchStep>): seq<Message> {
    if steps == [] then []
    else GivenBy(steps[..|steps| - 1]) + Given(Run(steps[..|steps| - 1]), steps[|steps| - 1])
  }

  predicate AllowedRun(steps: seq<BranchStep>) {
    steps == [] ||
    (AllowedRun(steps[..|steps| - 1]) && Allowed(Run(steps[..|steps| - 1]), steps[|steps| - 1]))
  }

  ghost predicate Distinct(b: seq<Entry>) {
    && (forall i :: 0 <= i < |b| ==> b[i].id != NONE)
    && (forall i, j :: 0 <= i < |b| && 0 <= j < |b| && b[i].id == b[j].id ==> i == j)
  }

  /** The last compaction names an entry of the branch. */
  ghost predicate Anchored(b: seq<Entry>) {
    && Distinct(b)
    && (LastCompaction(b).Some? ==> IndexOf(b, b[LastCompaction(b).value].body.firstKept).Some?)
  }

  lemma WriteMovesNothing(b: seq<Entry>, e: Entry)
    requires Anchored(b) && MayWrite(b, e)
    ensures Anchored(b + [e]) && LastCompaction(b + [e]) == LastCompaction(b)
    ensures Boundary(b + [e]) == Boundary(b) && PreviousSummary(b + [e]) == PreviousSummary(b)
  {
    var next := b + [e];
    assert next[..|next| - 1] == b;
  }

  lemma {:induction false} LateMovesNothing(b: seq<Entry>, late: seq<Entry>)
    requires Anchored(b) && MayWriteAll(b, late)
    ensures Anchored(b + late)
  {
    hide Anchored, MayWrite;
    if late == [] {
      assert b + late == b;
    } else {
      var before, e := late[..|late| - 1], late[|late| - 1];
      LateMovesNothing(b, before);
      WriteMovesNothing(b + before, e);
      assert b + late == b + before + [e];
    }
  }

  /** Wherever the entries written meanwhile went, the next boundary is the entry this compaction kept first. */
  lemma CompactionMovesTheBoundary(b: seq<Entry>, keepRecent: int, late: seq<Entry>, c: Entry)
    requires Anchored(b) && Prepare(b, keepRecent).Some? && MayWriteAll(b, late) && c.id != NONE && !Known(b + late, c.id)
    requires c == CompactionEntry(c.id, c.parent, c.timestamp, Prepare(b, keepRecent).value)
    ensures var next := b + late + [c];
      && Anchored(next) && Boundary(next) == CutIndex(b, keepRecent).value
      && PreviousSummary(next) == SummaryOf(Prepare(b, keepRecent).value)
  {
    hide CutIndex, SummaryOf, TurnStart, MessagesOf, MayWriteAll;
    LateMovesNothing(b, late);
    var next, cut := b + late + [c], CutIndex(b, keepRecent).value;
    assert LastCompaction(next) == Some(|b| + |late|);
    assert next[cut].id == c.body.firstKept;
    assert IndexOf(next, c.body.firstKept) == Some(cut);
  }

  /** Over any run of writes and compactions of a branch, the lists given to the summariser, followed by the
      messages still kept, are the branch's whole history in order. */
  lemma {:induction false} NothingSkippedOrRepeated(steps: seq<BranchStep>)
    requires AllowedRun(steps)
    ensures var b := Run(steps);
      && Anchored(b)
      && GivenBy(steps) == MessagesOf(b[..Boundary(b)])
      && GivenBy(steps) + MessagesOf(b[Boundary(b)..]) == MessagesOf(b)
  {
    hide Prepare, Boundary, MessagesOf;
    var b := Run(steps);
    if steps == [] {
      assert b[..Boundary(b)] == [] == b;
    } else {
      var before, step := steps[..|steps| - 1], steps[|steps| - 1];
      NothingSkippedOrRepeated(before);
      StepKeepsHistory(Run(before), step, GivenBy(before));
    }
    assert b == b[..Boundary(b)] + b[Boundary(b)..];
    MessagesSplit(b[..Boundary(b)], b[Boundary(b)..]);
  }

  lemma StepKeepsHistory(b: seq<Entry>, step: BranchStep, given: seq<Message>)
    requires Anchored(b) && Allowed(b, step) && given == MessagesOf(b[..Boundary(b)])
    ensures var next := Do(b, step);
      && Anchored(next)
      && given + Given(b, step) == MessagesOf(next[..Boundary(next)])
  {
    hide Prepare, Boundary, MessagesOf, Anchored;
    match step
    case Write(entry) =>
      WriteMovesNothing(b, entry);
      if b == [] {
        assert Do(b, step)[..Boundary(Do(b, step))] == b[..Boundary(b)];
      }
      assert Do(b, step)[..Boundary(b)] == b[..Boundary(b)];
    case Compact(keepRecent, late, id, parent, timestamp) =>
      if Prepare(b, keepRecent).Some? {
        GivenReachesTheCut(b, keepRecent);
        var c := CompactionEntry(id, parent, timestamp, Prepare(b, keepRecent).value);
        CompactionMovesTheBoundary(b, keepRecent, late, c);
        assert (b + late + [c])[..CutIndex(b, keepRecent).value] == b[..CutIndex(b, keepRecent).value];
      }
  }

  lemma GivenReachesTheCut(b: seq<Entry>, keepRecent: int)
    requires Prepare(b, keepRecent).Some?
    ensures var p := Prepare(b, keepRecent).value;
      CutIndex(b, keepRecent).Some?
      && MessagesOf(b[..Boundary(b)]) + (p.messages + p.turnPrefix) == MessagesOf(b[..CutIndex(b, keepRecent).value])
  {
    hide Boundary, CutIndex, TurnStart, MessagesOf;
    var boundary, cut := Boundary(b), CutIndex(b, keepRecent).value;
    MessagesInThree(b, boundary, TurnStart(b, boundary, cut).GetOr(cut), cut);
    assert b[..cut] == b[..boundary] + b[boundary..cut];
    MessagesSplit(b[..boundary], b[boundary..cut]);
  }

  // ---------------------------------------------------------------- what the summary still covers

  /** The branch of the engine that summarises only the start of a turn and writes "No prior history." before it. */
  predicate DropsPrevious(b: seq<Entry>, step: BranchStep) {
    step.Compact? && Prepare(b, step.keepRecent).Some? &&
    (var p := Prepare(b, step.keepRecent).value;
     p.splitTurn && p.turnPrefix != [] && p.messages == [] && p.previous != NoSummary)
  }

  predicate NeverDrops(steps: seq<BranchStep>) {
    steps == [] ||
    (NeverDrops(steps[..|steps| - 1]) && !DropsPrevious(Run(steps[..|steps| - 1]), steps[|steps| - 1]))
  }

  lemma StepLineage(b: seq<Entry>, step: BranchStep)
    requires Anchored(b) && Allowed(b, step)
    ensures Lineage(PreviousSummary(Do(b, step))) ==
            (if DropsPrevious(b, step) then [] else Lineage(PreviousSummary(b))) + Given(b, step)
    ensures PreviousSummary(Do(b, step)) == NoSummary ==> PreviousSummary(b) == NoSummary
    ensures PreviousSummary(Do(b, step)) != PreviousSummary(b) ==> Given(b, step) != []
    ensures DropsPrevious(b, step) ==> PreviousSummary(b) != NoSummary
  {
    hide Boundary, CutIndex, TurnStart, MessagesOf, Anchored, PreviousSummary, LastCompaction;
    match step
    case Write(entry) => WriteMovesNothing(b, entry);
    case Compact(keepRecent, late, id, parent, timestamp) =>
      if Prepare(b, keepRecent).Some? {
        var p := Prepare(b, keepRecent).value;
        UnsplitHasNoPrefix(b, keepRecent);
        CompactionMovesTheBoundary(b, keepRecent, late, CompactionEntry(id, parent, timestamp, p));
      }
  }

  lemma UnsplitHasNoPrefix(b: seq<Entry>, keepRecent: int)
    requires Prepare(b, keepRecent).Some?
    ensures var p := Prepare(b, keepRecent).value;
      (!p.splitTurn ==> p.turnPrefix == []) && p.previous == PreviousSummary(b)
  {
    hide Boundary, CutIndex, TurnStart, PreviousSummary;
  }

  lemma {:induction false} LineageOfRun(steps: seq<BranchStep>)
    requires AllowedRun(steps)
    ensures var s := PreviousSummary(Run(steps));
      && |Lineage(s)| <= |GivenBy(steps)|
      && (Lineage(s) == GivenBy(steps) <==> |Lineage(s)| == |GivenBy(steps)|)
      && (|Lineage(s)| == |GivenBy(steps)| <==> NeverDrops(steps))
      && (s != NoSummary ==> Lineage(s) != [])
  {
    hide Do, Given, DropsPrevious, PreviousSummary, Allowed, Lineage;
    if steps == [] {
      assert PreviousSummary([]) == NoSummary && Lineage(NoSummary) == [] by { EmptyHasNoSummary(); }
    } else {
      var before, step := steps[..|steps| - 1], steps[|steps| - 1];
      LineageOfRun(before);
      NothingSkippedOrRepeated(before);
      StepLineage(Run(before), step);
    }
  }

  lemma EmptyHasNoSummary()
    ensures PreviousSummary([]) == NoSummary && Lineage(NoSummary) == []
  {
  }

  /** The last summary goes back to every message no longer kept, unless some compaction dropped the previous one. */
  lemma SummaryCoversHistoryIff(steps: seq<BranchStep>)
    requires AllowedRun(steps)
    ensures Lineage(PreviousSummary(Run(steps))) == MessagesOf(Run(steps)[..Boundary(Run(steps))]) <==> NeverDrops(steps)
  {
    NothingSkippedOrRepeated(steps);
    LineageOfRun(steps);
  }

  // ---------------------------------------------------------------- rebuilding

  predicate ShowsNothing(entries: seq<Entry>) {
    forall e :: e in entries ==> ShownOf(e) == []
  }

  predicate KeepsBranchSummary(entries: seq<Entry>) {
    exists e :: e in entries && e.body.BranchSummary? && e.body.abandoned != NoSummary
  }

  lemma {:induction false} ShownOrSaid(s: seq<Entry>)
    ensures if KeepsBranchSummary(s) then |AllShown(s)| > |MessagesOf(s)| else AllShown(s) == AllSaid(MessagesOf(s))
  {
    if s != [] {
      hide ShownOf, OneMessage;
      var rest, e := s[..|s| - 1], s[|s| - 1];
      ShownOrSaid(rest);
      EntryShownOrSaid(e);
      assert s == rest + [e];
    }
  }

  lemma EntryShownOrSaid(e: Entry)
    ensures if e.body.BranchSummary? && e.body.abandoned != NoSummary then |ShownOf(e)| > |OneMessage(e)|
            else ShownOf(e) == AllSaid(OneMessage(e))
  {
  }

  lemma {:induction false} ShowsNothingIff(s: seq<Entry>)
    ensures ShowsNothing(s) <==> AllShown(s) == []
  {
    hide ShownOf;
    if s != [] {
      ShowsNothingIff(s[..|s| - 1]);
      assert s == s[..|s| - 1] + [s[|s| - 1]];
    }
  }

  /** A compaction was prepared from `b`, entries `late` were written meanwhile, then the compaction, then `later`. */
  ghost predicate Compacted(b: seq<Entry>, keepRecent: int, late: seq<Entry>, c: Entry, later: seq<Entry>) {
    && Distinct(b) && Prepare(b, keepRecent).Some?
    && c == CompactionEntry(c.id, c.parent, c.timestamp, Prepare(b, keepRecent).value)
    && (forall e :: e in late || e in later ==> !e.body.Compaction?)
  }

  lemma CompactedAt(b: seq<Entry>, keepRecent: int, late: seq<Entry>, c: Entry, later: seq<Entry>)
    requires Compacted(b, keepRecent, late, c, later)
    ensures var all, p := b + late + [c] + later, Prepare(b, keepRecent).value;
      && CutIndex(b, keepRecent).Some?
      && LastCompaction(all) == Some(|b| + |late|)
      && IndexOf(all, p.firstKept) == Some(CutIndex(b, keepRecent).value)
      && p.tail == MessagesOf(b[CutIndex(b, keepRecent).value..])
  {
    hide Boundary, CutIndex, TurnStart, MessagesOf, SummaryOf;
    var all, p, cut := b + late + [c] + later, Prepare(b, keepRecent).value, CutIndex(b, keepRecent).value;
    assert all[|b| + |late|] == c;
    forall j | |b| + |late| < j < |all| ensures !all[j].body.Compaction? {
      assert all[j] == later[j - |b| - |late| - 1];
    }
    assert all[cut] == b[cut];
  }

  /** What follows the summary when the conversation is rebuilt: what was kept, what was written meanwhile, what came later. */
  lemma FirstKeptReplay(b: seq<Entry>, keepRecent: int, late: seq<Entry>, c: Entry, later: seq<Entry>)
    requires Compacted(b, keepRecent, late, c, later)
    ensures CutIndex(b, keepRecent).Some?
    ensures ReplayFromFirstKept(b + late + [c] + later) ==
            [Summarised(SummaryOf(Prepare(b, keepRecent).value))] +
            (AllShown(b[CutIndex(b, keepRecent).value..]) + AllShown(late)) + AllShown(later)
  {
    hide Prepare, CutIndex, MessagesOf, AllShown, Distinct, LastCompaction, IndexOf;
    CompactedAt(b, keepRecent, late, c, later);
    ShownAround(b, CutIndex(b, keepRecent).value, late, c, later);
  }

  /** The conversation rebuilt after a compaction is its summary, then what was kept, then what came later. */
  lemma ReplayAfterCompaction(b: seq<Entry>, keepRecent: int, late: seq<Entry>, c: Entry, later: seq<Entry>)
    requires Compacted(b, keepRecent, late, c, later)
    ensures CutIndex(b, keepRecent).Some?
    ensures var p, cut := Prepare(b, keepRecent).value, CutIndex(b, keepRecent).value;
      Replay(b + late + [c] + later) ==
        [Summarised(SummaryOf(p))] +
        (if p.tail == [] then AllShown(b[cut..]) + AllShown(late) else AllSaid(p.tail)) + AllShown(later)
  {
    hide Prepare, CutIndex, MessagesOf, AllShown, Distinct, LastCompaction, IndexOf, ReplayFromFirstKept, SummaryOf;
    FirstKeptReplay(b, keepRecent, late, c, later);
    CompactedAt(b, keepRecent, late, c, later);
    CompactionAt(b, late, c, later);
    SummaryIsShown(Prepare(b, keepRecent).value);
  }

  lemma SummaryIsShown(p: Preparation)
    ensures SummaryShown(SummaryOf(p)) == [Summarised(SummaryOf(p))]
  {
  }

  lemma CompactionAt(b: seq<Entry>, late: seq<Entry>, c: Entry, later: seq<Entry>)
    ensures var all := b + late + [c] + later; all[|b| + |late|] == c && all[|b| + |late| + 1..] == later
  {
  }

  lemma ShownAround(b: seq<Entry>, cut: nat, late: seq<Entry>, c: Entry, later: seq<Entry>)
    requires cut <= |b| && c.body.Compaction?
    ensures var all := b + late + [c] + later;
      && all[|b| + |late|] == c && all[|b| + |late| + 1..] == later
      && AllShown(all[cut..]) == AllShown(b[cut..]) + AllShown(late) + AllShown(later)
  {
    hide AllShown;
    var all := b + late + [c] + later;
    assert all[cut..] == b[cut..] + late + [c] + later;
    ShownSplit(b[cut..], late);
    ShownSplit(b[cut..] + late, [c]);
    ShownSplit(b[cut..] + late + [c], later);
    ShownAlone(c);
  }

  lemma ShownAlone(c: Entry)
    requires c.body.Compaction?
    ensures AllShown([c]) == []
  {
    assert [c][..0] == [];
  }

  /** The cached tail rebuilds the same conversation as the first kept entry exactly when no branch summary was kept
      and nothing shown was written between preparing the compaction and appending it. */
  lemma RetainedTailAgreesIff(b: seq<Entry>, keepRecent: int, late: seq<Entry>, c: Entry, later: seq<Entry>)
    requires Compacted(b, keepRecent, late, c, later)
    ensures CutIndex(b, keepRecent).Some?
    ensures Replay(b + late + [c] + later) == ReplayFromFirstKept(b + late + [c] + later) <==>
            c.body.tail == [] || (!KeepsBranchSummary(b[CutIndex(b, keepRecent).value..]) && ShowsNothing(late))
  {
    hide Prepare, Boundary, CutIndex, MessagesOf, AllShown, Distinct, LastCompaction, IndexOf, Replay, ReplayFromFirstKept,
         KeepsBranchSummary, ShowsNothing, SummaryOf;
    CompactedAt(b, keepRecent, late, c, later);
    FirstKeptReplay(b, keepRecent, late, c, later);
    ReplayAfterCompaction(b, keepRecent, late, c, later);
    var kept := b[CutIndex(b, keepRecent).value..];
    ShownOrSaid(kept);
    ShowsNothingIff(late);
    if c.body.tail != [] {
      SameMiddle([Summarised(SummaryOf(Prepare(b, keepRecent).value))], AllShown(kept) + AllShown(late), AllSaid(c.body.tail), AllShown(later));
    }
  }

  lemma SameMiddle<T>(a: seq<T>, x: seq<T>, y: seq<T>, z: seq<T>)
    ensures a + x + z == a + y + z <==> x == y
  {
    if a + x + z == a + y + z {
      assert |x| == |y|;
      assert x == (a + x + z)[|a|..|a| + |x|] == (a + y + z)[|a|..|a| + |x|] == y;
    }
  }
}
