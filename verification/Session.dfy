/**
 One execution's session: the entries written so far and the leaf it stands at,
 changed by appending, compacting and moving to another branch.
 */
module Session {
  import opened Compaction
  import opened CompactionTheorems
  import opened SessionTree

  const DEFAULT_KEEP_RECENT: int := 20000

  datatype Tree = Tree(log: seq<Entry>, leaf: Id)

  function Branching(t: Tree): seq<Entry> {
    Branch(t.log, t.leaf)
  }

  /** There is a leaf, known or not, unless there is no entry at all. */
  ghost predicate Standing(t: Tree) {
    WellFormed(t.log) && (t.leaf == NONE ==> t.log == [])
  }

  /** A completion that fails, or one that is answered. */
  datatype Reply = Failed | Answered

  /** An entry as its writer gives it; its parent is the leaf it is written at. */
  datatype Written = Written(id: Id, timestamp: int, body: Body)

  /** The entries in `late` are written by others while the summariser is at work. */
  datatype Move =
    | Append(entry: Written)
    | CompactBranch(keepRecent: int, late: seq<Written>, reply: Reply, id: Id, timestamp: int)
    | Navigate(target: Id)
    | Leave(target: Id, late: seq<Written>, reply: Reply, id: Id, timestamp: int)

  function Appended(t: Tree, w: Written): Tree {
    Tree(t.log + [Entry(w.id, t.leaf, w.timestamp, w.body)], w.id)
  }

  function AppendedAll(t: Tree, late: seq<Written>): (next: Tree)
    ensures t.log <= next.log
  {
    if late == [] then t else Appended(AppendedAll(t, late[..|late| - 1]), late[|late| - 1])
  }

  function KeepRecent(wanted: int): int {
    if wanted <= 0 then DEFAULT_KEEP_RECENT else wanted
  }

  /** One past the last entry whose identifier the other branch has too. */
  function SharedUpTo(current: seq<Entry>, other: seq<Entry>): (k: nat)
    ensures k <= |current|
  {
    if current == [] then 0
    else if current[|current| - 1].id != NONE && Known(other, current[|current| - 1].id) then |current|
    else SharedUpTo(current[..|current| - 1], other)
  }

  /** The messages of the current branch that are not on the way to the target. */
  function LeftBehind(t: Tree, target: Id): seq<Message> {
    MessagesOf(Branching(t)[SharedUpTo(Branching(t), Branch(t.log, target))..])
  }

  function Moved(t: Tree, move: Move): Tree {
    match move
    case Append(entry) => Appended(t, entry)
    case CompactBranch(keepRecent, late, reply, id, timestamp) =>
      (match Prepare(Branching(t), KeepRecent(keepRecent))
       case None => t
       case Some(p) =>
         if reply.Failed? then AppendedAll(t, late)
         else Appended(AppendedAll(t, late), Written(id, timestamp, Compacting(p))))
    case Navigate(target) => t.(leaf := target)
    case Leave(target, late, reply, id, timestamp) =>
      var messages := LeftBehind(t, target);
      if messages == [] then t.(leaf := target)
      else if reply.Failed? then AppendedAll(t, late)
      else Appended(AppendedAll(t, late).(leaf := target), Written(id, timestamp, BranchSummary(History(messages, NoSummary))))
  }

  function Compacting(p: Preparation): Body {
    Body.Compaction(SummaryOf(p), p.firstKept, p.tail)
  }

  /** A new identifier is one that nothing names yet, the leaf included. */
  predicate IsFreshIn(t: Tree, id: Id) {
    IsFresh(t.log, id) && id != t.leaf
  }

  predicate IsNew(t: Tree, w: Written) {
    IsFreshIn(t, w.id) && !w.body.Compaction?
  }

  predicate AreNew(t: Tree, late: seq<Written>) {
    late == [] || (AreNew(t, late[..|late| - 1]) && IsNew(AppendedAll(t, late[..|late| - 1]), late[|late| - 1]))
  }

  /** New identifiers are new, targets are named but need not exist, and only a compaction writes a compaction entry. */
  predicate MayMove(t: Tree, move: Move) {
    match move
    case Append(entry) => IsNew(t, entry)
    case CompactBranch(_, late, _, id, _) => AreNew(t, late) && IsFreshIn(AppendedAll(t, late), id)
    case Navigate(target) => target != NONE
    case Leave(target, late, _, id, _) =>
      && target != NONE && AreNew(t, late) && IsFreshIn(AppendedAll(t, late), id) && id != target
      && forall k :: 0 <= k < |late| ==> late[k].id != target
  }

  class Execution {
    var entries: seq<Entry>
    var leafID: Id

    function State(): Tree
      reads this
    {
      Tree(entries, leafID)
    }

    constructor (session: seq<Entry>, leaf: Id)
      ensures State() == Tree(session, leaf)
    {
      entries, leafID := session, leaf;
    }

    method AppendEntry(w: Written)
      modifies this
      ensures State() == Appended(old(State()), w)
    {
      var parent := NONE;
      if leafID != NONE {
        parent := leafID;
      }
      entries := entries + [Entry(w.id, parent, w.timestamp, w.body)];
      leafID := w.id;
    }

    /** The poller and the extensions write on while a completion is awaited. */
    method AppendLate(late: seq<Written>)
      modifies this
      ensures State() == AppendedAll(old(State()), late)
    {
      for k := 0 to |late|
        invariant State() == AppendedAll(old(State()), late[..k])
      {
        assert late[..k + 1][..k] == late[..k];
        AppendEntry(late[k]);
      }
      assert late[..|late|] == late;
    }

    method Compact(keepRecent: int, late: seq<Written>, reply: Reply, id: Id, timestamp: int) returns (compacted: bool)
      modifies this
      ensures State() == Moved(old(State()), CompactBranch(keepRecent, late, reply, id, timestamp))
      ensures compacted <==> Prepare(Branching(old(State())), KeepRecent(keepRecent)).Some? && reply.Answered?
    {
      hide Prepare, SummaryOf, Branch, AppendedAll;
      var keep := keepRecent;
      if keep <= 0 {
        keep := DEFAULT_KEEP_RECENT;
      }
      var branch := BranchEntries(entries, leafID);
      var preparation := PrepareCompaction(branch, keep);
      if preparation.None? {
        return false;
      }
      AppendLate(late);
      if reply.Failed? {
        return false;
      }
      var p := preparation.value;
      AppendEntry(Written(id, timestamp, Body.Compaction(SummaryOf(p), p.firstKept, p.tail)));
      return true;
    }

    method SummarizeAbandonedBranch(target: Id, late: seq<Written>, reply: Reply, id: Id, timestamp: int) returns (ok: bool)
      modifies this
      ensures State() == Moved(old(State()), Leave(target, late, reply, id, timestamp))
      ensures ok <==> LeftBehind(old(State()), target) == [] || reply.Answered?
    {
      hide Branch, MessagesOf, SharedUpTo, Known, AppendedAll;
      var current := BranchEntries(entries, leafID);
      var targetBranch := BranchEntries(entries, target);
      var start := FirstLeft(current, targetBranch);
      var messages := CollectMessages(current, start, |current|);
      assert current[start..|current|] == current[start..];
      if |messages| == 0 {
        leafID := target;
        return true;
      }
      AppendLate(late);
      if reply.Failed? {
        return false;
      }
      leafID := target;
      AppendEntry(Written(id, timestamp, BranchSummary(History(messages, NoSummary))));
      return true;
    }
  }

  /** One past the last entry of the current branch that is also on the target's. */
  method FirstLeft(current: seq<Entry>, targetBranch: seq<Entry>) returns (start: nat)
    ensures start == SharedUpTo(current, targetBranch)
  {
    var targetIDs: set<Id> := {};
    for k := 0 to |targetBranch|
      invariant forall id :: id in targetIDs <==> id != NONE && exists j :: 0 <= j < k && targetBranch[j].id == id
    {
      if targetBranch[k].id != NONE {
        targetIDs := targetIDs + {targetBranch[k].id};
      }
    }
    var i := |current|;
    assert current[..|current|] == current;
    while i > 0
      invariant 0 <= i <= |current|
      invariant SharedUpTo(current, targetBranch) == SharedUpTo(current[..i], targetBranch)
    {
      assert current[..i][..i - 1] == current[..i - 1];
      if current[i - 1].id in targetIDs {
        return i;
      }
      i := i - 1;
    }
    return 0;
  }

  lemma {:induction false} PathInLog(log: seq<Entry>, i: nat)
    requires WellFormed(log) && i < |log|
    ensures forall e :: e in Path(log, i) ==> e in log
    decreases i
  {
    if HasParent(log, i) {
      ParentIsEarlier(log, i);
      PathInLog(log, At(log, log[i].parent));
    }
  }

  lemma BranchInLog(t: Tree)
    requires Standing(t)
    ensures forall e :: e in Branching(t) ==> e in t.log
  {
    if t.leaf != NONE && !Known(t.log, t.leaf) {
      UnknownHasNoBranch(t.log, t.leaf);
    } else if t.leaf != NONE {
      BranchIsPath(t.log, t.leaf);
      PathInLog(t.log, At(t.log, t.leaf));
    }
  }

  lemma NotEmptyIsKnown(t: Tree)
    requires Standing(t) && Branching(t) != []
    ensures t.leaf != NONE && Known(t.log, t.leaf)
  {
    if t.leaf != NONE && !Known(t.log, t.leaf) {
      UnknownHasNoBranch(t.log, t.leaf);
    }
  }

  lemma SharedByIdentifier(log: seq<Entry>, leaf: Id, target: Id, x: nat)
    requires Standing(Tree(log, leaf)) && target != NONE && x < |Branch(log, leaf)|
    ensures var current, other := Branch(log, leaf), Branch(log, target);
      (exists j :: 0 <= j < |other| && other[j].id == current[x].id) <==> x < CommonLength(current, other)
  {
    hide Branch, CommonLength;
    var current, other := Branch(log, leaf), Branch(log, target);
    BranchInLog(Tree(log, leaf));
    BranchInLog(Tree(log, target));
    NotEmptyIsKnown(Tree(log, leaf));
    if !Known(log, target) {
      UnknownHasNoBranch(log, target);
      return;
    }
    BranchesSharePrefix(log, leaf, target, x);
    if j :| 0 <= j < |other| && other[j].id == current[x].id {
      assert other[j] in log && current[x] in log;
    }
  }

  lemma {:induction false} SharedIsPrefix(current: seq<Entry>, other: seq<Entry>, k: nat, n: nat)
    requires k <= n <= |current|
    requires forall x :: 0 <= x < |current| ==> current[x].id != NONE && (Known(other, current[x].id) <==> x < k)
    ensures SharedUpTo(current[..n], other) == k
  {
    hide Known;
    if n > 0 {
      assert current[..n][..n - 1] == current[..n - 1];
      assert current[..n][n - 1] == current[n - 1];
      if n > k {
        SharedIsPrefix(current, other, k, n - 1);
      }
    }
  }

  /** Between branches of a well-formed log, what is shared by identifier is their common prefix. */
  lemma SharedIsCommon(t: Tree, target: Id)
    requires Standing(t) && target != NONE
    ensures SharedUpTo(Branching(t), Branch(t.log, target)) == CommonLength(Branching(t), Branch(t.log, target))
  {
    hide Branch, CommonLength, SharedUpTo, WellFormed;
    var current, other := Branching(t), Branch(t.log, target);
    forall x | 0 <= x < |current|
      ensures current[x].id != NONE && (Known(other, current[x].id) <==> x < CommonLength(current, other))
    {
      SharedByIdentifier(t.log, t.leaf, target, x);
      BranchInLog(t);
      InLogIsReal(t.log, current[x]);
    }
    SharedIsPrefix(current, other, CommonLength(current, other), |current|);
    assert current[..|current|] == current;
  }

  lemma InLogIsReal(log: seq<Entry>, e: Entry)
    requires WellFormed(log) && e in log
    ensures e.id != NONE
  {
  }

  // ---------------------------------------------------------------- what is left behind

  /** The entries of a branch that are not on another one, in order. */
  function OffPath(current: seq<Entry>, other: seq<Entry>): seq<Entry> {
    if current == [] then []
    else OffPath(current[..|current| - 1], other) +
         (if current[|current| - 1] in other then [] else [current[|current| - 1]])
  }

  lemma {:induction false} OffPathIsSuffix(current: seq<Entry>, other: seq<Entry>, k: nat, n: nat)
    requires k <= |current| && n <= |current|
    requires forall x :: 0 <= x < |current| ==> (current[x] in other <==> x < k)
    ensures OffPath(current[..n], other) == if n <= k then [] else current[k..n]
  {
    if n > 0 {
      OffPathIsSuffix(current, other, k, n - 1);
      assert current[..n][..n - 1] == current[..n - 1];
      assert current[..n][n - 1] == current[n - 1];
      if n > k {
        assert current[k..n] == current[k..n - 1] + [current[n - 1]];
      }
    }
  }

  /** Leaving a branch summarises exactly the messages of its entries that are not on the target's path. */
  lemma LeftBehindIsOffPath(t: Tree, target: Id)
    requires Standing(t) && target != NONE
    ensures LeftBehind(t, target) == MessagesOf(OffPath(Branching(t), Branch(t.log, target)))
  {
    hide Branch, MessagesOf, CommonLength, OffPath, SharedUpTo;
    var current, other := Branching(t), Branch(t.log, target);
    var k := CommonLength(current, other);
    SharedIsCommon(t, target);
    forall x | 0 <= x < |current| ensures current[x] in other <==> x < k {
      NotEmptyIsKnown(t);
      if Known(t.log, target) {
        BranchesSharePrefix(t.log, t.leaf, target, x);
      } else {
        UnknownHasNoBranch(t.log, target);
      }
    }
    OffPathIsSuffix(current, other, k, |current|);
    assert current[..|current|] == current && current[k..|current|] == current[k..];
  }

  // ---------------------------------------------------------------- whole sessions

  function After(moves: seq<Move>): Tree {
    if moves == [] then Tree([], NONE) else Moved(After(moves[..|moves| - 1]), moves[|moves| - 1])
  }

  ghost predicate AllowedMoves(moves: seq<Move>) {
    moves == [] || (AllowedMoves(moves[..|moves| - 1]) && MayMove(After(moves[..|moves| - 1]), moves[|moves| - 1]))
  }

  /** A branch that writing and compacting alone could have produced. */
  ghost predicate IsRun(b: seq<Entry>) {
    exists steps :: AllowedRun(steps) && Run(steps) == b
  }

  ghost predicate BranchesAreRuns(log: seq<Entry>) {
    forall id :: Known(log, id) ==> IsRun(Branch(log, id))
  }

  lemma RunGrows(b: seq<Entry>, step: BranchStep)
    requires IsRun(b) && Allowed(b, step)
    ensures IsRun(Do(b, step))
  {
    hide Do, Allowed;
    var steps :| AllowedRun(steps) && Run(steps) == b;
    var more := steps + [step];
    assert more[..|more| - 1] == steps;
    assert AllowedRun(more) && Run(more) == Do(b, step);
  }

  /** The log grows at its leaf by an entry that ends a run. */
  lemma LogGrows(t: Tree, w: Written)
    requires Standing(t) && BranchesAreRuns(t.log) && IsFreshIn(t, w.id)
    requires IsRun(Branching(t) + [Entry(w.id, t.leaf, w.timestamp, w.body)])
    ensures Standing(Appended(t, w)) && BranchesAreRuns(Appended(t, w).log)
    ensures Branching(Appended(t, w)) == Branching(t) + [Entry(w.id, t.leaf, w.timestamp, w.body)]
  {
    hide Branch, WellFormed, IsRun;
    var e := Entry(w.id, t.leaf, w.timestamp, w.body);
    var next := t.log + [e];
    AppendExtendsBranch(t.log, e, NONE);
    assert next[|t.log|] == e;
    if t.leaf == NONE {
      EmptyIsRun();
    }
    forall id | Known(next, id) ensures IsRun(Branch(next, id)) {
      if id != e.id {
        var i :| 0 <= i < |next| && next[i].id == id;
        assert t.log[i].id == id;
        InLogIsReal(t.log, t.log[i]);
        AppendExtendsBranch(t.log, e, id);
      }
    }
  }

  lemma EmptyIsRun()
    ensures IsRun([]) && Branch([], NONE) == []
  {
    assert AllowedRun([]) && Run([]) == [];
  }

  lemma HereIsRun(t: Tree)
    requires Standing(t) && BranchesAreRuns(t.log)
    ensures IsRun(Branching(t))
  {
    hide Branch, WellFormed, IsRun;
    EmptyIsRun();
    if t.leaf != NONE && !Known(t.log, t.leaf) {
      UnknownHasNoBranch(t.log, t.leaf);
    }
  }

  lemma FreshOnBranch(t: Tree, id: Id)
    requires Standing(t) && IsFresh(t.log, id)
    ensures !Known(Branching(t), id)
  {
    hide Branch, WellFormed;
    BranchInLog(t);
    forall i | 0 <= i < |Branching(t)| ensures Branching(t)[i].id != id {
      assert Branching(t)[i] in t.log;
    }
  }

  lemma WriteKeepsRuns(t: Tree, w: Written)
    requires Standing(t) && BranchesAreRuns(t.log) && IsNew(t, w)
    ensures Standing(Appended(t, w)) && BranchesAreRuns(Appended(t, w).log)
    ensures MayWrite(Branching(t), Entry(w.id, t.leaf, w.timestamp, w.body))
    ensures Branching(Appended(t, w)) == Branching(t) + [Entry(w.id, t.leaf, w.timestamp, w.body)]
  {
    hide Branch, WellFormed, IsRun, BranchesAreRuns;
    FreshOnBranch(t, w.id);
    HereIsRun(t);
    RunGrows(Branching(t), Write(Entry(w.id, t.leaf, w.timestamp, w.body)));
    LogGrows(t, w);
  }

  lemma ParentIsNotRead(e: Entry, parent: Id)
    ensures OneMessage(e.(parent := parent)) == OneMessage(e)
  {
  }

  /** What is written meanwhile goes to the end of the branch. */
  lemma {:induction false} LateKeepsRuns(t: Tree, late: seq<Written>) returns (entries: seq<Entry>)
    requires Standing(t) && BranchesAreRuns(t.log) && AreNew(t, late)
    ensures var next := AppendedAll(t, late);
      && Standing(next) && BranchesAreRuns(next.log)
      && Branching(next) == Branching(t) + entries && MayWriteAll(Branching(t), entries)
      && MessagesOf(entries) == LateMessages(late)
  {
    hide Branch, WellFormed, BranchesAreRuns, IsNew, MayWrite, OneMessage;
    entries := [];
    if late == [] {
      assert Branching(t) + [] == Branching(t);
    } else {
      var w, before := late[|late| - 1], AppendedAll(t, late[..|late| - 1]);
      var start := LateKeepsRuns(t, late[..|late| - 1]);
      WriteKeepsRuns(before, w);
      var e := Entry(w.id, before.leaf, w.timestamp, w.body);
      entries := start + [e];
      ParentIsNotRead(e, NONE);
      assert entries[..|entries| - 1] == start;
      assert Branching(t) + entries == Branching(t) + start + [e];
    }
  }

  function LateMessages(late: seq<Written>): seq<Message> {
    if late == [] then []
    else
      var w := late[|late| - 1];
      LateMessages(late[..|late| - 1]) + OneMessage(Entry(w.id, NONE, w.timestamp, w.body))
  }

  lemma CompactKeepsRuns(t: Tree, move: Move)
    requires move.CompactBranch? && Standing(t) && BranchesAreRuns(t.log) && MayMove(t, move)
    ensures Standing(Moved(t, move)) && BranchesAreRuns(Moved(t, move).log)
  {
    hide Branch, WellFormed, IsRun, BranchesAreRuns, Prepare, SummaryOf, Known, AppendedAll, AreNew, MayWriteAll;
    var b, keep := Branching(t), KeepRecent(move.keepRecent);
    var entries := LateKeepsRuns(t, move.late);
    if move.reply.Answered? && Prepare(b, keep).Some? {
      var next := AppendedAll(t, move.late);
      FreshOnBranch(next, move.id);
      HereIsRun(t);
      RunGrows(b, Compact(keep, entries, move.id, next.leaf, move.timestamp));
      LogGrows(next, Written(move.id, move.timestamp, Compacting(Prepare(b, keep).value)));
    }
  }

  lemma LeaveKeepsRuns(t: Tree, move: Move)
    requires move.Leave? && Standing(t) && BranchesAreRuns(t.log) && MayMove(t, move)
    ensures Standing(Moved(t, move)) && BranchesAreRuns(Moved(t, move).log)
  {
    hide Branch, WellFormed, IsRun, BranchesAreRuns, LeftBehind, AppendedAll, AreNew;
    var entries := LateKeepsRuns(t, move.late);
    var messages, next := LeftBehind(t, move.target), AppendedAll(t, move.late);
    if move.reply.Answered? && messages != [] {
      WriteKeepsRuns(next.(leaf := move.target), Written(move.id, move.timestamp, BranchSummary(History(messages, NoSummary))));
    }
  }

  lemma MoveKeepsRuns(t: Tree, move: Move)
    requires Standing(t) && BranchesAreRuns(t.log) && MayMove(t, move)
    ensures Standing(Moved(t, move)) && BranchesAreRuns(Moved(t, move).log)
  {
    hide Branch, WellFormed, BranchesAreRuns, Prepare, LeftBehind, Known, AppendedAll, AreNew, IsNew;
    match move
    case Append(entry) => WriteKeepsRuns(t, entry);
    case CompactBranch(_, _, _, _, _) => CompactKeepsRuns(t, move);
    case Navigate(target) =>
    case Leave(_, _, _, _, _) => LeaveKeepsRuns(t, move);
  }

  /** Whatever a session appended, compacted and abandoned, it stays well formed and every branch of it, taken alone,
      is a run of writes and compactions: what is proved of runs holds of each of them. */
  lemma {:induction false} EveryBranchIsARun(moves: seq<Move>)
    requires AllowedMoves(moves)
    ensures Standing(After(moves)) && BranchesAreRuns(After(moves).log)
  {
    hide Moved, MayMove, BranchesAreRuns;
    if moves == [] {
      EmptyLogHasNoBranch();
    } else {
      EveryBranchIsARun(moves[..|moves| - 1]);
      MoveKeepsRuns(After(moves[..|moves| - 1]), moves[|moves| - 1]);
    }
  }

  lemma EmptyLogHasNoBranch()
    ensures BranchesAreRuns([])
  {
  }

  /** On every branch of every session, what the summariser was given along it and what is kept make up its history. */
  lemma NoBranchSkipsOrRepeats(moves: seq<Move>, leaf: Id) returns (steps: seq<BranchStep>)
    requires AllowedMoves(moves) && Known(After(moves).log, leaf)
    ensures var b := Branch(After(moves).log, leaf);
      && AllowedRun(steps) && Run(steps) == b
      && GivenBy(steps) + MessagesOf(b[Boundary(b)..]) == MessagesOf(b)
      && (Lineage(PreviousSummary(b)) == MessagesOf(b[..Boundary(b)]) <==> NeverDrops(steps))
  {
    hide Branch, After, AllowedMoves, Known, Boundary, MessagesOf, PreviousSummary, Lineage;
    EveryBranchIsARun(moves);
    assert IsRun(Branch(After(moves).log, leaf));
    steps :| AllowedRun(steps) && Run(steps) == Branch(After(moves).log, leaf);
    NothingSkippedOrRepeated(steps);
    SummaryCoversHistoryIff(steps);
  }

  // ---------------------------------------------------------------- what leaving a branch forgets

  lemma LeftBehindGrows(t: Tree, target: Id, w: Written)
    requires Standing(t) && BranchesAreRuns(t.log) && IsNew(t, w) && target != NONE && target != w.id
    ensures LeftBehind(Appended(t, w), target) == LeftBehind(t, target) + OneMessage(Entry(w.id, NONE, w.timestamp, w.body))
  {
    hide Branch, WellFormed, BranchesAreRuns, Known, OneMessage;
    var e := Entry(w.id, t.leaf, w.timestamp, w.body);
    var b, other := Branching(t), Branch(t.log, target);
    WriteKeepsRuns(t, w);
    FreshOnBranch(t.(leaf := target), w.id);
    AppendExtendsBranch(t.log, e, target);
    assert Branching(Appended(t, w)) == b + [e] && Branch(Appended(t, w).log, target) == other;
    assert (b + [e])[..|b|] == b;
    var k := SharedUpTo(b, other);
    assert SharedUpTo(b + [e], other) == k;
    assert (b + [e])[k..] == b[k..] + [e];
    assert (b[k..] + [e])[..|b[k..]|] == b[k..];
    ParentIsNotRead(e, NONE);
  }

  /** Whatever is written to a branch while its summary is, is left behind with it. */
  lemma {:induction false} LateIsLeftBehind(t: Tree, target: Id, late: seq<Written>)
    requires Standing(t) && BranchesAreRuns(t.log) && AreNew(t, late) && target != NONE
    requires forall k :: 0 <= k < |late| ==> late[k].id != target
    ensures LeftBehind(AppendedAll(t, late), target) == LeftBehind(t, target) + LateMessages(late)
  {
    hide Branch, WellFormed, BranchesAreRuns, Known, OneMessage, LeftBehind, IsNew;
    if late != [] {
      var before := AppendedAll(t, late[..|late| - 1]);
      LateIsLeftBehind(t, target, late[..|late| - 1]);
      var entries := LateKeepsRuns(t, late[..|late| - 1]);
      LeftBehindGrows(before, target, late[|late| - 1]);
    }
  }

  /** The summary of an abandoned branch goes back to every message left on it exactly when none was written meanwhile. */
  lemma LeavingCoversIff(moves: seq<Move>, leave: Move)
    requires AllowedMoves(moves) && leave.Leave? && MayMove(After(moves), leave)
    requires LeftBehind(After(moves), leave.target) != [] && leave.reply.Answered?
    ensures var next := After(moves + [leave]); var left := AppendedAll(After(moves), leave.late);
      && next.log == left.log + [next.log[|next.log| - 1]] && next.log[|next.log| - 1].body.BranchSummary?
      && (Lineage(next.log[|next.log| - 1].body.abandoned) == LeftBehind(left, leave.target) <==> LateMessages(leave.late) == [])
  {
    hide LeftBehind, AppendedAll, AreNew, After, AllowedMoves, BranchesAreRuns, Standing, IsFreshIn, LateMessages;
    var t := After(moves);
    EveryBranchIsARun(moves);
    LateIsLeftBehind(t, leave.target, leave.late);
    MovedOn(moves, leave);
    var messages := LeftBehind(t, leave.target);
    assert [] + messages == messages;
  }

  lemma MovedOn(moves: seq<Move>, move: Move)
    ensures After(moves + [move]) == Moved(After(moves), move)
  {
    hide Moved;
    assert (moves + [move])[..|moves|] == moves;
  }

  // ---------------------------------------------------------------- what a move leaves

  /** The entry stands last on its branch, after all that was on the branch before it. */
  ghost predicate EndsWith(t: Tree, before: seq<Entry>, body: Body) {
    exists e :: Branching(t) == before + [e] && e.body == body && e.id == t.leaf
  }

  /** Of a branch that is left for another the summary is written at the other's end, and says only what was left; nothing is
      written when nothing was left; and when no summary comes the session stays on its branch. What others wrote meanwhile is
      on the branch that was left. */
  lemma LeavingIs(moves: seq<Move>, leave: Move)
    requires AllowedMoves(moves) && leave.Leave? && MayMove(After(moves), leave)
    ensures var t, next := After(moves), After(moves + [leave]);
      var left := OffPath(Branching(t), Branch(t.log, leave.target));
      && (MessagesOf(left) == [] ==> next == Tree(t.log, leave.target))
      && (MessagesOf(left) != [] && leave.reply.Failed? ==>
            exists late :: Branching(next) == Branching(t) + late && MessagesOf(late) == LateMessages(leave.late))
      && (MessagesOf(left) != [] && leave.reply.Answered? ==>
            EndsWith(next, Branch(t.log, leave.target), BranchSummary(History(MessagesOf(left), NoSummary))))
  {
    hide LeftBehind, AreNew, After, AllowedMoves, BranchesAreRuns, IsFresh, LateMessages, OffPath, MessagesOf, Branch, WellFormed;
    var t, target := After(moves), leave.target;
    EveryBranchIsARun(moves);
    MovedOn(moves, leave);
    LeftBehindIsOffPath(t, target);
    var late := LateKeepsRuns(t, leave.late);
    if LeftBehind(t, target) != [] && leave.reply.Answered? {
      var there := AppendedAll(t, leave.late).(leaf := target);
      var w := Written(leave.id, leave.timestamp, BranchSummary(History(LeftBehind(t, target), NoSummary)));
      OtherBranchStays(t, leave.late, target);
      LogGrowsAt(there, w);
      assert Branching(Appended(there, w)) == Branching(there) + [Entry(w.id, target, w.timestamp, w.body)];
    }
  }

  lemma LogGrowsAt(t: Tree, w: Written)
    requires Standing(t) && IsFreshIn(t, w.id)
    ensures Branching(Appended(t, w)) == Branching(t) + [Entry(w.id, t.leaf, w.timestamp, w.body)]
  {
    hide Branch, WellFormed;
    if t.leaf == NONE {
      EmptyIsRun();
    }
    AppendExtendsBranch(t.log, Entry(w.id, t.leaf, w.timestamp, w.body), NONE);
  }

  /** What is written elsewhere does not change a branch. */
  lemma {:induction false} OtherBranchStays(t: Tree, late: seq<Written>, target: Id)
    requires Standing(t) && AreNew(t, late) && target != NONE
    requires forall k :: 0 <= k < |late| ==> late[k].id != target
    ensures WellFormed(AppendedAll(t, late).log)
    ensures AppendedAll(t, late).leaf == NONE ==> AppendedAll(t, late).log == []
    ensures Branch(AppendedAll(t, late).log, target) == Branch(t.log, target)
  {
    hide Branch, WellFormed;
    if late != [] {
      var before, w := AppendedAll(t, late[..|late| - 1]), late[|late| - 1];
      OtherBranchStays(t, late[..|late| - 1], target);
      AppendExtendsBranch(before.log, Entry(w.id, before.leaf, w.timestamp, w.body), target);
    }
  }

  /** A compaction is written at the end of the branch as it is by then, with what was prepared from it before; without a wish
      twenty thousand tokens are kept. Nothing but what others write happens when there is nothing to compact or no summary
      comes. */
  lemma CompactingIs(moves: seq<Move>, compact: Move)
    requires AllowedMoves(moves) && compact.CompactBranch? && MayMove(After(moves), compact)
    ensures var t, next := After(moves), After(moves + [compact]);
      var keep := if compact.keepRecent > 0 then compact.keepRecent else 20000;
      && (Prepare(Branching(t), keep).None? ==> next == t)
      && (Prepare(Branching(t), keep).Some? ==>
            exists late ::
              && MessagesOf(late) == LateMessages(compact.late)
              && (compact.reply.Failed? ==> Branching(next) == Branching(t) + late)
              && (compact.reply.Answered? ==>
                    var p := Prepare(Branching(t), keep).value;
                    EndsWith(next, Branching(t) + late, Body.Compaction(SummaryOf(p), p.firstKept, p.tail))))
  {
    hide AreNew, After, AllowedMoves, BranchesAreRuns, IsFreshIn, LateMessages, MessagesOf, Branch, WellFormed, Prepare, SummaryOf;
    var t := After(moves);
    EveryBranchIsARun(moves);
    MovedOn(moves, compact);
    var late := LateKeepsRuns(t, compact.late);
    var keep := KeepRecent(compact.keepRecent);
    if Prepare(Branching(t), keep).Some? && compact.reply.Answered? {
      var there := AppendedAll(t, compact.late);
      var w := Written(compact.id, compact.timestamp, Compacting(Prepare(Branching(t), keep).value));
      LogGrowsAt(there, w);
      assert Branching(Appended(there, w)) == Branching(there) + [Entry(w.id, there.leaf, w.timestamp, w.body)];
    }
  }

  /** Appending adds one entry to the end of the branch; moving to an entry continues its branch and writes nothing. */
  lemma AppendingIs(moves: seq<Move>, move: Move)
    requires AllowedMoves(moves) && MayMove(After(moves), move)
    ensures var t, next := After(moves), After(moves + [move]);
      && (move.Navigate? ==> next == Tree(t.log, move.target) && Branching(next) == Branch(t.log, move.target))
      && (move.Append? ==> EndsWith(next, Branching(t), move.entry.body))
  {
    hide After, AllowedMoves, BranchesAreRuns, Branch, WellFormed;
    EveryBranchIsARun(moves);
    MovedOn(moves, move);
    if move.Append? {
      LogGrowsAt(After(moves), move.entry);
      var t, w := After(moves), move.entry;
      assert Branching(Appended(t, w)) == Branching(t) + [Entry(w.id, t.leaf, w.timestamp, w.body)];
    }
  }
}
