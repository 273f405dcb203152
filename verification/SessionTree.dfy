/**
 The session log: an append-only list of entries, each naming its parent, read as
 a tree whose branches are the conversations. The empty identifier stands for no
 entry.
 */
module SessionTree {
  import opened Wrappers

  type Id = string
  const NONE: Id := ""

  datatype Role = NoRole | User | Assistant | Tool | OtherRole
  datatype ToolCall = ToolCall(id: Id, name: string, arguments: seq<Byte>)
  datatype Message = Message(role: Role, content: string, thinking: string, images: nat,
                             toolCalls: seq<ToolCall>, toolCallId: Id, timestamp: int)

  /** A summary, as what the summariser was given to write it from. */
  datatype Summary =
    | NoSummary
    | History(messages: seq<Message>, previous: Summary)
    | SplitTurn(history: Summary, prefix: seq<Message>)

  /** An entry that is not a message carries what the engine reads from it; `MessageEntry(None)` is a
      message entry whose payload does not decode. */
  datatype Body =
    | MessageEntry(message: Option<Message>)
    | CustomMessage(content: Option<string>)
    | BranchSummary(abandoned: Summary)
    | Compaction(summary: Summary, firstKept: Id, tail: seq<Message>)
    | Bookkeeping(kind: string)

  datatype Entry = Entry(id: Id, parent: Id, timestamp: int, body: Body)

  // ---------------------------------------------------------------- any parent map

  /** The entry under each identifier; of two under the same identifier the later one counts. */
  function ById(log: seq<Entry>): (m: map<Id, Entry>)
    ensures forall id :: id in m ==> m[id] in log && m[id].id == id
    ensures forall e :: e in log ==> e.id in m
  {
    if log == [] then map[] else ById(log[..|log| - 1])[log[|log| - 1].id := log[|log| - 1]]
  }

  /** From a leaf towards its root, until there is no parent, an unknown one, or one seen before. */
  function Walk(byId: map<Id, Entry>, leaf: Id, seen: set<Id>): seq<Entry>
    decreases byId.Keys - seen
  {
    if leaf == NONE || leaf in seen || leaf !in byId then []
    else [byId[leaf]] + Walk(byId, byId[leaf].parent, seen + {leaf})
  }

  function Reversed(s: seq<Entry>): (r: seq<Entry>)
    ensures |r| == |s|
  {
    if s == [] then [] else Reversed(s[1..]) + [s[0]]
  }

  lemma {:induction false} ReversedAppend(s: seq<Entry>, e: Entry)
    ensures Reversed(s + [e]) == [e] + Reversed(s)
    decreases |s|
  {
    if s == [] {
      assert s + [e] == [e];
    } else {
      ReversedAppend(s[1..], e);
      assert (s + [e])[1..] == s[1..] + [e];
    }
  }

  function Branch(log: seq<Entry>, leaf: Id): seq<Entry> {
    if leaf == NONE then log else Reversed(Walk(ById(log), leaf, {}))
  }

  method IndexEntries(log: seq<Entry>) returns (byId: map<Id, Entry>)
    ensures byId == ById(log)
  {
    byId := map[];
    for i := 0 to |log|
      invariant byId == ById(log[..i])
    {
      assert log[..i + 1][..i] == log[..i];
      byId := byId[log[i].id := log[i]];
    }
    assert log[..|log|] == log;
  }

  method Reverse(s: seq<Entry>) returns (r: seq<Entry>)
    ensures r == Reversed(s)
  {
    r := [];
    for i := 0 to |s|
      invariant r == Reversed(s[..i])
    {
      assert s[..i + 1] == s[..i] + [s[i]];
      ReversedAppend(s[..i], s[i]);
      r := [s[i]] + r;
    }
    assert s[..|s|] == s;
  }

  lemma WalkStep(byId: map<Id, Entry>, at: Id, seen: set<Id>, above: seq<Entry>)
    requires at != NONE && at !in seen && at in byId
    ensures above + Walk(byId, at, seen) == (above + [byId[at]]) + Walk(byId, byId[at].parent, seen + {at})
  {
  }

  lemma WalkEnds(byId: map<Id, Entry>, at: Id, seen: set<Id>, above: seq<Entry>)
    requires at == NONE || at in seen || at !in byId
    ensures above + Walk(byId, at, seen) == above
  {
  }

  /** Terminates on every parent map, cyclic ones included. */
  method BranchEntries(log: seq<Entry>, leaf: Id) returns (branch: seq<Entry>)
    ensures branch == Branch(log, leaf)
  {
    if leaf == NONE {
      return log;
    }
    hide Walk, ById;
    var byId := IndexEntries(log);
    var reversed: seq<Entry> := [];
    var seen: set<Id> := {};
    var at := leaf;
    while at != NONE && at !in seen && at in byId
      invariant Walk(byId, leaf, {}) == reversed + Walk(byId, at, seen)
      decreases byId.Keys - seen
    {
      var entry := byId[at];
      WalkStep(byId, at, seen, reversed);
      reversed := reversed + [entry];
      seen := seen + {at};
      at := entry.parent;
    }
    WalkEnds(byId, at, seen, reversed);
    branch := Reverse(reversed);
  }

  /** Of several entries under one identifier the last written is found. */
  lemma {:induction false} LastWrittenIsFound(log: seq<Entry>, i: nat)
    requires i < |log| && forall j :: i < j < |log| ==> log[j].id != log[i].id
    ensures log[i].id in ById(log) && ById(log)[log[i].id] == log[i]
  {
    if i < |log| - 1 {
      LastWrittenIsFound(log[..|log| - 1], i);
    }
  }

  /** Each entry is followed by its parent. */
  ghost predicate Climbs(byId: map<Id, Entry>, walk: seq<Entry>) {
    && (forall k :: 0 <= k < |walk| ==> walk[k].id in byId && byId[walk[k].id] == walk[k])
    && (forall k :: 0 < k < |walk| ==> walk[k].id == walk[k - 1].parent)
    && (forall j, k :: 0 <= j < k < |walk| ==> walk[j].id != walk[k].id)
  }

  /** There is nowhere to climb on to: no parent, one that is not an entry, or one that was passed. */
  ghost predicate Tops(byId: map<Id, Entry>, walk: seq<Entry>, seen: set<Id>) {
    walk != [] ==>
      var up := walk[|walk| - 1].parent;
      up == NONE || up !in byId || up in seen || exists k :: 0 <= k < |walk| && walk[k].id == up
  }

  lemma {:induction false} WalkClimbs(byId: map<Id, Entry>, leaf: Id, seen: set<Id>)
    requires forall id :: id in byId ==> byId[id].id == id
    ensures var walk := Walk(byId, leaf, seen);
      && Climbs(byId, walk) && Tops(byId, walk, seen)
      && (walk == [] <==> leaf == NONE || leaf in seen || leaf !in byId) && (walk != [] ==> walk[0].id == leaf)
      && (forall k :: 0 <= k < |walk| ==> walk[k].id !in seen)
    decreases byId.Keys - seen
  {
    if leaf != NONE && leaf !in seen && leaf in byId {
      var e := byId[leaf];
      WalkClimbs(byId, e.parent, seen + {leaf});
      var rest := Walk(byId, e.parent, seen + {leaf});
      assert Walk(byId, leaf, seen) == [e] + rest;
      ClimbOneMore(byId, e, rest, seen);
    }
  }

  lemma ClimbOneMore(byId: map<Id, Entry>, e: Entry, rest: seq<Entry>, seen: set<Id>)
    requires e.id in byId && byId[e.id] == e && Climbs(byId, rest) && Tops(byId, rest, seen + {e.id})
    requires rest == [] <==> e.parent == NONE || e.parent in seen + {e.id} || e.parent !in byId
    requires rest != [] ==> rest[0].id == e.parent
    requires forall k :: 0 <= k < |rest| ==> rest[k].id !in seen + {e.id}
    ensures Climbs(byId, [e] + rest) && Tops(byId, [e] + rest, seen)
  {
    var walk := [e] + rest;
    assert forall k :: 1 <= k < |walk| ==> walk[k] == rest[k - 1];
    assert walk[0] == e;
    if rest != [] {
      var up := rest[|rest| - 1].parent;
      assert walk[|walk| - 1] == rest[|rest| - 1];
      if k :| 0 <= k < |rest| && rest[k].id == up {
        assert walk[k + 1].id == up;
      }
    }
  }

  lemma {:induction false} ReversedAt(s: seq<Entry>, k: nat)
    requires k < |s|
    ensures Reversed(s)[k] == s[|s| - 1 - k]
  {
    if k < |s| - 1 {
      ReversedAt(s[1..], k);
    }
  }

  predicate IsReverse(branch: seq<Entry>, walk: seq<Entry>) {
    |branch| == |walk| && forall k :: 0 <= k < |branch| ==> branch[k] == walk[|walk| - 1 - k]
  }

  /** Whatever the parents are, cycles included, a branch is the climb from its leaf, root first: each entry after its parent,
      none twice, up to one without a parent to go on to. Without a leaf it is the whole log. */
  lemma BranchIsClimb(log: seq<Entry>, leaf: Id)
    ensures leaf == NONE ==> Branch(log, leaf) == log
    ensures leaf != NONE ==>
      exists walk: seq<Entry> ::
        && IsReverse(Branch(log, leaf), walk)
        && Climbs(ById(log), walk) && Tops(ById(log), walk, {})
        && (walk == [] <==> leaf !in ById(log)) && (walk != [] ==> walk[0].id == leaf)
  {
    if leaf != NONE {
      hide Climbs, Tops, ById;
      WalkClimbs(ById(log), leaf, {});
      var walk := Walk(ById(log), leaf, {});
      forall k | 0 <= k < |walk| ensures Branch(log, leaf)[k] == walk[|walk| - 1 - k] {
        ReversedAt(walk, k);
      }
      assert IsReverse(Branch(log, leaf), walk);
    }
  }

  // ---------------------------------------------------------------- well-formed logs

  predicate Known(log: seq<Entry>, id: Id) {
    exists i :: 0 <= i < |log| && log[i].id == id
  }

  /** Identifiers are real and unique, and every parent that is an entry at all is an earlier one. */
  ghost predicate WellFormed(log: seq<Entry>) {
    && (forall i :: 0 <= i < |log| ==> log[i].id != NONE)
    && (forall i, j :: 0 <= i < |log| && 0 <= j < |log| && log[i].id == log[j].id ==> i == j)
    && (forall i, j :: 0 <= i < |log| && 0 <= j < |log| && log[j].id == log[i].parent ==> j < i)
  }

  /** The entry has a parent in the log. */
  predicate HasParent(log: seq<Entry>, i: nat)
    requires i < |log|
  {
    log[i].parent != NONE && Known(log, log[i].parent)
  }

  /** The position of an entry. */
  ghost function At(log: seq<Entry>, id: Id): (i: nat)
    requires Known(log, id)
    ensures i < |log| && log[i].id == id
  {
    var i :| 0 <= i < |log| && log[i].id == id;
    i
  }

  lemma ParentIsEarlier(log: seq<Entry>, i: nat)
    requires WellFormed(log) && i < |log| && HasParent(log, i)
    ensures Known(log, log[i].parent) && At(log, log[i].parent) < i
  {
  }

  /** The entries on the path to an entry, from the root or from an entry whose parent is unknown. */
  ghost function Path(log: seq<Entry>, i: nat): (path: seq<Entry>)
    requires WellFormed(log) && i < |log|
    ensures path != [] && path[|path| - 1] == log[i]
    decreases i
  {
    if !HasParent(log, i) then [log[i]]
    else
      ParentIsEarlier(log, i);
      Path(log, At(log, log[i].parent)) + [log[i]]
  }

  lemma IndexOfWellFormed(log: seq<Entry>, i: nat)
    requires WellFormed(log) && i < |log|
    ensures log[i].id in ById(log) && ById(log)[log[i].id] == log[i] && log[i].id != NONE
  {
    assert log[i] in log;
    var e := ById(log)[log[i].id];
    var j :| 0 <= j < |log| && log[j] == e;
  }

  lemma UnknownIsNotIndexed(log: seq<Entry>, id: Id)
    requires !Known(log, id)
    ensures id !in ById(log)
  {
  }

  lemma StillUnseen(log: seq<Entry>, i: nat, j: nat, seen: set<Id>)
    requires WellFormed(log) && j < i < |log|
    requires forall k :: 0 <= k <= i ==> log[k].id !in seen
    ensures log[i].id != NONE
    ensures forall k :: 0 <= k <= j ==> log[k].id !in seen + {log[i].id}
  {
  }

  /** In a well-formed log the walk never meets an entry twice: it is the path, leaf first. */
  lemma {:induction false} WalkIsPath(log: seq<Entry>, i: nat, seen: set<Id>)
    requires WellFormed(log) && i < |log|
    requires forall j :: 0 <= j <= i ==> log[j].id !in seen
    ensures Reversed(Walk(ById(log), log[i].id, seen)) == Path(log, i)
    decreases i
  {
    hide WellFormed, ById, Known;
    IndexOfWellFormed(log, i);
    if HasParent(log, i) {
      ParentIsEarlier(log, i);
      var j := At(log, log[i].parent);
      StillUnseen(log, i, j, seen);
      WalkIsPath(log, j, seen + {log[i].id});
    } else if log[i].parent != NONE {
      UnknownIsNotIndexed(log, log[i].parent);
    }
    assert Walk(ById(log), log[i].id, seen)[1..] == Walk(ById(log), log[i].parent, seen + {log[i].id});
  }

  lemma UnknownHasNoBranch(log: seq<Entry>, leaf: Id)
    requires leaf != NONE && !Known(log, leaf)
    ensures Branch(log, leaf) == []
  {
    UnknownIsNotIndexed(log, leaf);
  }

  lemma BranchIsPath(log: seq<Entry>, leaf: Id)
    requires WellFormed(log) && Known(log, leaf)
    ensures Branch(log, leaf) == Path(log, At(log, leaf))
  {
    var i := At(log, leaf);
    WalkIsPath(log, i, {});
  }

  // ---------------------------------------------------------------- appending

  /** An identifier nobody has named before. */
  predicate IsFresh(log: seq<Entry>, id: Id) {
    id != NONE && forall i :: 0 <= i < |log| ==> log[i].id != id && log[i].parent != id
  }

  /** The parent need not be an entry. */
  predicate CanAppend(log: seq<Entry>, e: Entry) {
    IsFresh(log, e.id) && e.parent != e.id
  }

  lemma AppendKeepsWellFormed(log: seq<Entry>, e: Entry)
    requires WellFormed(log) && CanAppend(log, e)
    ensures WellFormed(log + [e])
  {
  }

  lemma AtIsUnique(log: seq<Entry>, i: nat)
    requires WellFormed(log) && i < |log|
    ensures Known(log, log[i].id) && At(log, log[i].id) == i
  {
  }

  lemma NoNewParents(log: seq<Entry>, next: seq<Entry>, i: nat)
    requires WellFormed(next) && log <= next && i < |log|
    ensures next[i] == log[i] && (HasParent(next, i) <==> HasParent(log, i))
  {
    assert forall j :: 0 <= j < |log| ==> next[j] == log[j];
    if HasParent(next, i) {
      var j :| 0 <= j < |next| && next[j].id == next[i].parent;
      assert log[j].id == log[i].parent;
    }
    if HasParent(log, i) {
      var j :| 0 <= j < |log| && log[j].id == log[i].parent;
      assert next[j].id == next[i].parent;
    }
  }

  /** What is written later never changes an existing path. */
  lemma {:induction false} PathIsStable(log: seq<Entry>, next: seq<Entry>, i: nat)
    requires WellFormed(log) && WellFormed(next) && log <= next && i < |log|
    ensures Path(next, i) == Path(log, i)
    decreases i
  {
    NoNewParents(log, next, i);
    if HasParent(log, i) {
      ParentIsEarlier(log, i);
      var j := At(log, log[i].parent);
      AtIsUnique(next, j);
      PathIsStable(log, next, j);
    }
  }

  lemma StillKnown(log: seq<Entry>, next: seq<Entry>, id: Id)
    requires log <= next && Known(log, id)
    ensures Known(next, id)
  {
    var i :| 0 <= i < |log| && log[i].id == id;
    assert next[i] == log[i];
  }

  lemma OtherBranchIsStable(log: seq<Entry>, e: Entry, other: Id)
    requires WellFormed(log) && CanAppend(log, e) && Known(log, other)
    ensures Branch(log + [e], other) == Branch(log, other)
  {
    hide Branch, CanAppend, WellFormed, Path;
    var next := log + [e];
    AppendKeepsWellFormed(log, e);
    StillKnown(log, next, other);
    var j := At(log, other);
    assert next[j] == log[j];
    AtIsUnique(next, j);
    BranchIsPath(log, other);
    BranchIsPath(next, other);
    PathIsStable(log, next, j);
  }

  lemma NewBranch(log: seq<Entry>, e: Entry)
    requires WellFormed(log) && CanAppend(log, e)
    ensures Branch(log + [e], e.id) == (if e.parent == NONE then [] else Branch(log, e.parent)) + [e]
  {
    hide Branch, WellFormed;
    var next := log + [e];
    AppendKeepsWellFormed(log, e);
    assert next[|log|] == e;
    AtIsUnique(next, |log|);
    BranchIsPath(next, e.id);
    if e.parent != NONE && Known(log, e.parent) {
      OtherBranchIsStable(log, e, e.parent);
      StillKnown(log, next, e.parent);
      ParentIsEarlier(next, |log|);
      BranchIsPath(next, e.parent);
    } else if e.parent != NONE {
      UnknownHasNoBranch(log, e.parent);
      StillUnknown(log, e, e.parent);
    }
  }

  lemma StillUnknown(log: seq<Entry>, e: Entry, id: Id)
    requires !Known(log, id) && e.id != id
    ensures !Known(log + [e], id)
  {
  }

  /** Appending at a leaf, known or not, extends that leaf's branch by exactly the new entry and leaves every other branch
      alone. */
  lemma AppendExtendsBranch(log: seq<Entry>, e: Entry, other: Id)
    requires WellFormed(log) && CanAppend(log, e)
    ensures WellFormed(log + [e])
    ensures Branch(log + [e], e.id) == (if e.parent == NONE then [] else Branch(log, e.parent)) + [e]
    ensures other != NONE && other != e.id ==> Branch(log + [e], other) == Branch(log, other)
  {
    hide Branch, WellFormed, CanAppend;
    AppendKeepsWellFormed(log, e);
    NewBranch(log, e);
    if Known(log, other) {
      OtherBranchIsStable(log, e, other);
    } else if other != NONE && other != e.id {
      StillUnknown(log, e, other);
      UnknownHasNoBranch(log, other);
      UnknownHasNoBranch(log + [e], other);
    }
  }

  // ---------------------------------------------------------------- two branches

  /** Any entry of a path heads the path that leads to it. */
  lemma {:induction false} PathPrefix(log: seq<Entry>, i: nat, k: nat)
    requires WellFormed(log) && i < |log| && k < |Path(log, i)|
    ensures Known(log, Path(log, i)[k].id)
    ensures Path(log, At(log, Path(log, i)[k].id)) == Path(log, i)[..k + 1]
    decreases i
  {
    var path := Path(log, i);
    AtIsUnique(log, i);
    if k == |path| - 1 {
      assert path[..k + 1] == path;
    } else {
      ParentIsEarlier(log, i);
      var j := At(log, log[i].parent);
      PathPrefix(log, j, k);
      assert path[..k + 1] == Path(log, j)[..k + 1];
    }
  }

  function CommonLength(a: seq<Entry>, b: seq<Entry>): (k: nat)
    ensures k <= |a| && k <= |b| && a[..k] == b[..k]
    ensures k < |a| && k < |b| ==> a[k] != b[k]
  {
    if a == [] || b == [] || a[0] != b[0] then 0 else 1 + CommonLength(a[1..], b[1..])
  }

  lemma {:induction false} CommonIsLongest(a: seq<Entry>, b: seq<Entry>, n: nat)
    requires n <= |a| && n <= |b| && a[..n] == b[..n]
    ensures n <= CommonLength(a, b)
  {
    if n > 0 {
      assert a[0] == a[..n][0] == b[..n][0];
      assert a[1..][..n - 1] == a[..n][1..] == b[1..][..n - 1];
      CommonIsLongest(a[1..], b[1..], n - 1);
    }
  }

  lemma SharedEntrySharedPath(log: seq<Entry>, i: nat, j: nat, x: nat, y: nat)
    requires WellFormed(log) && i < |log| && j < |log| && x < |Path(log, i)| && y < |Path(log, j)|
    requires Path(log, i)[x] == Path(log, j)[y]
    ensures x == y && Path(log, i)[..x + 1] == Path(log, j)[..x + 1]
  {
    hide WellFormed, Path, Known;
    PathPrefix(log, i, x);
    PathPrefix(log, j, y);
    assert |Path(log, i)[..x + 1]| == x + 1 && |Path(log, j)[..y + 1]| == y + 1;
  }

  /** Two branches share exactly a common prefix: an entry is on both only before they part. */
  lemma BranchesSharePrefix(log: seq<Entry>, a: Id, b: Id, x: nat)
    requires WellFormed(log) && Known(log, a) && Known(log, b) && x < |Branch(log, a)|
    ensures Branch(log, a)[x] in Branch(log, b) <==> x < CommonLength(Branch(log, a), Branch(log, b))
  {
    hide Branch, WellFormed, Path, Known, CommonLength;
    BranchIsPath(log, a);
    BranchIsPath(log, b);
    var i, j := At(log, a), At(log, b);
    var left, right := Path(log, i), Path(log, j);
    var k := CommonLength(left, right);
    if x < k {
      assert left[x] == left[..k][x] == right[..k][x];
    }
    if left[x] in right {
      var y :| 0 <= y < |right| && right[y] == left[x];
      SharedEntrySharedPath(log, i, j, x, y);
      CommonIsLongest(left, right, x + 1);
    }
  }
}
