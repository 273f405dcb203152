/**
 Forking a stored session at an entry: the rows of the path to that entry are
 copied, root first, under a new session, once per idempotency key, while
 snapshots of running sessions replace the rows of any of them.
 */
module Fork {
  import opened SessionTree
  import opened Wrappers

  type Tenant = string
  type Key = string

  /** A session is named by its creator, or its name is derived, without collisions, from the tenant and the key. */
  datatype SessionId = Named(text: string) | Derived(tenant: Tenant, key: Key)

  datatype SessionRow = SessionRow(tenant: Tenant, source: Option<SessionId>, name: Option<string>, leaf: Id,
                                   entries: seq<Entry>)
  datatype KeyRow = KeyRow(source: SessionId, session: SessionId)
  datatype Store = Store(sessions: map<SessionId, SessionRow>, keys: map<(Tenant, Key), KeyRow>)

  datatype Request = Request(tenant: Tenant, source: SessionId, target: Id, before: bool, requested: Option<SessionId>, key: Key)

  /** A request hangs that follows parents round a cycle. */
  datatype Outcome = Forked(session: SessionId) | NotFound | Conflict | DatabaseError | Hangs

  // ---------------------------------------------------------------- rows of one session

  /** The unique key of the rows of a session. */
  ghost predicate Distinct(log: seq<Entry>) {
    && (forall i :: 0 <= i < |log| ==> log[i].id != NONE)
    && (forall i, j :: 0 <= i < |log| && 0 <= j < |log| && log[i].id == log[j].id ==> i == j)
  }

  function IdsOf(log: seq<Entry>): set<Id> {
    set i | 0 <= i < |log| :: log[i].id
  }

  /** What comes of following the parents of an entry. */
  datatype Ancestors = Found(path: seq<Entry>) | Missing | Endless

  /** The entries from the root to an entry, unless some parent on the way has no row, or comes round again. */
  ghost function Ancestry(log: seq<Entry>, id: Id, seen: set<Id>): (found: Ancestors)
    ensures found.Found? ==> Known(log, id) && found.path != [] && found.path[|found.path| - 1].id == id
    decreases IdsOf(log) - seen
  {
    if !Known(log, id) then Missing
    else if id in seen then Endless
    else
      var entry := log[At(log, id)];
      assert id in IdsOf(log);
      if entry.parent == NONE then Found([entry])
      else
        match Ancestry(log, entry.parent, seen + {id})
        case Found(path) => Found(path + [entry])
        case other => other
  }

  // ---------------------------------------------------------------- the transaction

  function NewId(q: Request): SessionId {
    q.requested.GetOr(Derived(q.tenant, q.key))
  }

  /** Where the fork ends: at the target, or at its parent. */
  ghost function ForkPoint(row: SessionRow, q: Request): (point: Result<Id, Outcome>)
    ensures point.Failure? ==> point.error == NotFound || point.error == Conflict
  {
    var at := if q.target == NONE then row.leaf else q.target;
    if at == NONE || !Known(row.entries, at) then Failure(NotFound)
    else if !q.before then Success(at)
    else
      var parent := row.entries[At(row.entries, at)].parent;
      if parent == NONE then Failure(Conflict) else Success(parent)
  }

  ghost predicate Sound(store: Store) {
    && (forall id :: id in store.sessions ==> Distinct(store.sessions[id].entries))
    && (forall k :: k in store.keys ==> store.keys[k].session in store.sessions && store.keys[k].source in store.sessions)
  }

  /** The transaction itself, after the first look for the key. */
  ghost function Transact(store: Store, q: Request): (Store, Outcome) {
    if q.source !in store.sessions || store.sessions[q.source].tenant != q.tenant then (store, NotFound)
    else
      var row := store.sessions[q.source];
      match ForkPoint(row, q)
      case Failure(why) => (store, why)
      case Success(leaf) =>
        match Ancestry(row.entries, leaf, {})
        case Missing => (store, NotFound)
        case Endless => (store, Hangs)
        case Found(path) =>
          var key := (q.tenant, q.key);
          if NewId(q) in store.sessions then
            (store, if key in store.keys && store.keys[key].source == q.source then Forked(store.keys[key].session) else Conflict)
          else if key in store.keys then (store, DatabaseError)
          else
            (Store(store.sessions[NewId(q) := SessionRow(q.tenant, Some(q.source), row.name, leaf, path)],
                   store.keys[key := KeyRow(q.source, NewId(q))]),
             Forked(NewId(q)))
  }

  ghost function ForkOf(store: Store, q: Request): (Store, Outcome) {
    var key := (q.tenant, q.key);
    if key in store.keys then
      (store, if store.keys[key].source == q.source then Forked(store.keys[key].session) else Conflict)
    else Transact(store, q)
  }

  class Sessions {
    var sessions: map<SessionId, SessionRow>
    var keys: map<(Tenant, Key), KeyRow>

    ghost function Tables(): Store
      reads this
    {
      Store(sessions, keys)
    }

    /** The row under an identifier in one session. */
    method SelectEntry(session: SessionId, id: Id) returns (entry: Option<Entry>)
      requires session in sessions && Distinct(sessions[session].entries)
      ensures entry == if Known(sessions[session].entries, id)
                       then Some(sessions[session].entries[At(sessions[session].entries, id)]) else None
    {
      var log := sessions[session].entries;
      for i := 0 to |log|
        invariant forall j :: 0 <= j < i ==> log[j].id != id
      {
        if log[i].id == id {
          return Some(log[i]);
        }
      }
      return None;
    }

    /** The entries on the way from a row to its root, nearest first. Where it gives back `Endless` the program it models
        goes round for ever; it does not keep the set of what it has seen. */
    method SelectPath(session: SessionId, leaf: Id) returns (path: Ancestors)
      requires session in sessions && Distinct(sessions[session].entries) && leaf != NONE
      ensures var whole := Ancestry(sessions[session].entries, leaf, {});
        if whole.Found? then path.Found? && Reversed(path.path) == whole.path else path == whole
    {
      hide Distinct, Known;
      ghost var log := sessions[session].entries;
      var found: seq<Entry> := [];
      var seen: set<Id> := {};
      var current := leaf;
      while current != NONE
        invariant current != NONE ==> Onward(Ancestry(log, leaf, {}), Ancestry(log, current, seen), found)
        invariant current == NONE ==> Ancestry(log, leaf, {}) == Found(Reversed(found))
        decreases IdsOf(log) - seen, current != NONE
      {
        var entry := SelectEntry(session, current);
        if entry.None? {
          return Missing;
        }
        if current in seen {
          return Endless;
        }
        AncestryStep(log, current, seen);
        ReversedAppend(found, entry.value);
        found := found + [entry.value];
        seen := seen + {current};
        current := entry.value.parent;
      }
      return Found(found);
    }

    method ForkTransaction(q: Request) returns (outcome: Outcome)
      requires Sound(Tables())
      modifies this
      ensures (Tables(), outcome) == Transact(old(Tables()), q)
    {
      hide Distinct, Ancestry, Known;
      if q.source !in sessions || sessions[q.source].tenant != q.tenant {
        return NotFound;
      }
      var leaf := q.target;
      if leaf == NONE {
        leaf := sessions[q.source].leaf;
      }
      if leaf == NONE {
        return NotFound;
      }
      var entry := SelectEntry(q.source, leaf);
      if entry.None? {
        return NotFound;
      }
      if q.before {
        if entry.value.parent == NONE {
          return Conflict;
        }
        leaf := entry.value.parent;
      }
      var path := SelectPath(q.source, leaf);
      if path.Missing? {
        return NotFound;
      }
      if path.Endless? {
        return Hangs;
      }
      var session, key := NewId(q), (q.tenant, q.key);
      if session in sessions {
        if key in keys && keys[key].source == q.source {
          return Forked(keys[key].session);
        }
        return Conflict;
      }
      var rows: seq<Entry> := [];
      var index := |path.path|;
      while index > 0
        invariant 0 <= index <= |path.path|
        invariant rows == Reversed(path.path[index..])
      {
        index := index - 1;
        assert path.path[index..][1..] == path.path[index + 1..];
        rows := rows + [path.path[index]];
      }
      assert path.path[0..] == path.path;
      if key in keys {
        return DatabaseError;
      }
      sessions := sessions[session := SessionRow(q.tenant, Some(q.source), sessions[q.source].name, leaf, rows)];
      keys := keys[key := KeyRow(q.source, session)];
      return Forked(session);
    }

    method ForkSession(q: Request) returns (outcome: Outcome)
      requires Sound(Tables())
      modifies this
      ensures (Tables(), outcome) == ForkOf(old(Tables()), q)
    {
      hide Transact;
      var key := (q.tenant, q.key);
      if key in keys {
        if keys[key].source != q.source {
          return Conflict;
        }
        return Forked(keys[key].session);
      }
      outcome := ForkTransaction(q);
    }
  }

  /** What is still to be found above a row, followed by what was found below it, is the whole path. */
  ghost predicate Onward(whole: Ancestors, rest: Ancestors, found: seq<Entry>) {
    if rest.Found? then whole == Found(rest.path + Reversed(found)) else whole == rest
  }

  lemma AncestryStep(log: seq<Entry>, id: Id, seen: set<Id>)
    requires Known(log, id) && id !in seen
    ensures id in IdsOf(log)
    ensures var entry := log[At(log, id)];
      Ancestry(log, id, seen) ==
      if entry.parent == NONE then Found([entry])
      else match Ancestry(log, entry.parent, seen + {id})
        case Found(path) => Found(path + [entry])
        case other => other
  {
    assert log[At(log, id)].id in IdsOf(log);
  }

  // ---------------------------------------------------------------- what a fork holds

  lemma {:induction false} AncestryIsReversedWalk(log: seq<Entry>, id: Id, seen: set<Id>)
    requires Distinct(log) && Ancestry(log, id, seen).Found?
    ensures Reversed(Walk(ById(log), id, seen)) == Ancestry(log, id, seen).path
    decreases IdsOf(log) - seen
  {
    hide ById, Distinct;
    var i := At(log, id);
    AncestryStep(log, id, seen);
    IndexOfDistinct(log, i);
    if log[i].parent != NONE {
      AncestryIsReversedWalk(log, log[i].parent, seen + {id});
    }
    assert Walk(ById(log), id, seen)[1..] == Walk(ById(log), log[i].parent, seen + {id});
  }

  lemma IndexOfDistinct(log: seq<Entry>, i: nat)
    requires Distinct(log) && i < |log|
    ensures log[i].id in ById(log) && ById(log)[log[i].id] == log[i] && log[i].id != NONE
  {
    assert log[i] in log;
    var e := ById(log)[log[i].id];
    var j :| 0 <= j < |log| && log[j] == e;
  }

  lemma AncestryIsBranch(log: seq<Entry>, id: Id)
    requires Distinct(log) && Ancestry(log, id, {}).Found?
    ensures Branch(log, id) == Ancestry(log, id, {}).path
  {
    hide Ancestry, Distinct;
    IndexOfDistinct(log, At(log, id));
    AncestryIsReversedWalk(log, id, {});
  }

  /** Every parent that is named has a row. */
  ghost predicate IsRooted(log: seq<Entry>) {
    forall i :: 0 <= i < |log| && log[i].parent != NONE ==> Known(log, log[i].parent)
  }

  /** Each entry names the one before it as its parent, and the first names none. */
  ghost predicate Chain(path: seq<Entry>) {
    && (forall k :: 0 <= k < |path| ==> path[k].id != NONE)
    && (path != [] ==> path[0].parent == NONE)
    && (forall k :: 0 < k < |path| ==> path[k].parent == path[k - 1].id)
  }

  lemma {:induction false} AncestryIsChain(log: seq<Entry>, id: Id, seen: set<Id>)
    requires Distinct(log) && Ancestry(log, id, seen).Found?
    ensures var path := Ancestry(log, id, seen).path;
      && Chain(path)
      && (forall k :: 0 <= k < |path| ==> path[k].id !in seen)
      && (forall j, k :: 0 <= j < k < |path| ==> path[j].id != path[k].id)
    decreases IdsOf(log) - seen
  {
    var entry := log[At(log, id)];
    AncestryStep(log, id, seen);
    if entry.parent != NONE {
      AncestryIsChain(log, entry.parent, seen + {id});
    }
  }

  lemma ChainIsWellFormed(path: seq<Entry>)
    requires Chain(path) && forall j, k :: 0 <= j < k < |path| ==> path[j].id != path[k].id
    ensures WellFormed(path) && IsRooted(path) && Distinct(path)
  {
    forall i | 0 <= i < |path| && path[i].parent != NONE ensures Known(path, path[i].parent) {
      assert path[i - 1].id == path[i].parent;
    }
    forall i, j | 0 <= i < |path| && 0 <= j < |path| && path[j].id == path[i].parent ensures j < i {
      assert path[i - 1].id == path[i].parent;
    }
  }

  lemma {:induction false} ChainIsItsPath(path: seq<Entry>, k: nat)
    requires Chain(path) && WellFormed(path) && k < |path|
    ensures Path(path, k) == path[..k + 1]
  {
    AtIsUnique(path, k);
    if k == 0 {
      assert path[..1] == [path[0]];
    } else {
      AtIsUnique(path, k - 1);
      ChainIsItsPath(path, k - 1);
      assert path[..k + 1] == path[..k] + [path[k]];
    }
  }

  lemma FoundIsABranch(log: seq<Entry>, leaf: Id)
    requires Distinct(log) && Ancestry(log, leaf, {}).Found?
    ensures var path := Ancestry(log, leaf, {}).path;
      && path == Branch(log, leaf) && WellFormed(path) && IsRooted(path) && Distinct(path) && Known(path, leaf)
      && Branch(path, leaf) == path
  {
    hide Ancestry, Distinct, WellFormed, IsRooted, Branch, Path;
    var path := Ancestry(log, leaf, {}).path;
    AncestryIsBranch(log, leaf);
    AncestryIsChain(log, leaf, {});
    ChainIsWellFormed(path);
    ChainIsItsPath(path, |path| - 1);
    assert path[..|path| - 1 + 1] == path;
    AtIsUnique(path, |path| - 1);
    BranchIsPath(path, leaf);
  }

  /** A fork holds exactly the branch it was taken from, root first, is well formed, and is its own active branch. */
  lemma ForkHoldsTheBranch(store: Store, q: Request)
    requires Sound(store) && (q.tenant, q.key) !in store.keys && ForkOf(store, q).1.Forked?
    ensures var (next, outcome) := ForkOf(store, q);
      && q.source in store.sessions && ForkPoint(store.sessions[q.source], q).Success?
      && outcome.session == NewId(q) && NewId(q) !in store.sessions
      && (var leaf := ForkPoint(store.sessions[q.source], q).value;
          var fork := next.sessions[NewId(q)];
          && fork.leaf == leaf && fork.source == Some(q.source) && fork.tenant == q.tenant
          && fork.entries == Branch(store.sessions[q.source].entries, leaf)
          && WellFormed(fork.entries) && IsRooted(fork.entries) && Known(fork.entries, leaf)
          && Branch(fork.entries, leaf) == fork.entries)
      && (forall id :: id in store.sessions ==> id in next.sessions && next.sessions[id] == store.sessions[id])
      && Sound(next)
  {
    hide Ancestry, Known, Distinct, WellFormed, IsRooted, Branch;
    var row := store.sessions[q.source];
    FoundIsABranch(row.entries, ForkPoint(row, q).value);
  }

  lemma {:induction false} WellFormedHasAncestry(log: seq<Entry>, i: nat, seen: set<Id>)
    requires WellFormed(log) && IsRooted(log) && i < |log| && forall j :: 0 <= j <= i ==> log[j].id !in seen
    ensures Ancestry(log, log[i].id, seen).Found?
    decreases i
  {
    hide Ancestry;
    AtIsUnique(log, i);
    AncestryStep(log, log[i].id, seen);
    if log[i].parent != NONE {
      ParentIsEarlier(log, i);
      var j := At(log, log[i].parent);
      StillUnseen(log, i, j, seen);
      WellFormedHasAncestry(log, j, seen + {log[i].id});
    }
  }

  /** On a well-formed session a new request succeeds exactly when its tenant owns the session, the target exists, has
      a parent if the fork is to end before it, and the new name is free. */
  lemma ForkSucceedsIff(store: Store, q: Request)
    requires Sound(store) && (q.tenant, q.key) !in store.keys
    requires q.source in store.sessions ==> WellFormed(store.sessions[q.source].entries) && IsRooted(store.sessions[q.source].entries)
    ensures ForkOf(store, q).1.Forked? <==>
      q.source in store.sessions && store.sessions[q.source].tenant == q.tenant && NewId(q) !in store.sessions &&
      (var row := store.sessions[q.source];
       var at := if q.target == NONE then row.leaf else q.target;
       Known(row.entries, at) && (q.before ==> row.entries[At(row.entries, at)].parent != NONE))
  {
    hide Ancestry, Distinct;
    if q.source in store.sessions {
      var log := store.sessions[q.source].entries;
      var at := if q.target == NONE then store.sessions[q.source].leaf else q.target;
      if Known(log, at) {
        var i := At(log, at);
        WellFormedHasAncestry(log, i, {});
        if log[i].parent != NONE {
          ParentIsEarlier(log, i);
          WellFormedHasAncestry(log, At(log, log[i].parent), {});
        }
      }
    }
  }

  // ---------------------------------------------------------------- snapshots

  /** What else happens to sessions: a run creates one, and a snapshot replaces all its rows by those of the running engine. */
  datatype Change =
    | Fork(request: Request)
    | Create(session: SessionId, tenant: Tenant)
    | Snapshot(session: SessionId, entries: seq<Entry>, leaf: Id, name: Option<string>)

  /** Entries without an identifier are not stored. */
  function Kept(entries: seq<Entry>): (kept: seq<Entry>)
    ensures forall e :: e in kept ==> e.id != NONE
  {
    if entries == [] then []
    else
      var last := entries[|entries| - 1];
      Kept(entries[..|entries| - 1]) + if last.id == NONE then [] else [last]
  }

  /** Two entries under one identifier violate the key, and nothing is stored. */
  ghost function Changed(store: Store, c: Change): Store {
    match c
    case Fork(q) => ForkOf(store, q).0
    case Create(session, tenant) =>
      if session in store.sessions then store
      else store.(sessions := store.sessions[session := SessionRow(tenant, None, None, NONE, [])])
    case Snapshot(session, entries, leaf, name) =>
      if session !in store.sessions || !Distinct(Kept(entries)) then store
      else
        var row := store.sessions[session];
        var renamed := if name.Some? then name else row.name;
        store.(sessions := store.sessions[session := row.(entries := Kept(entries), leaf := leaf, name := renamed)])
  }

  ghost function Changes(store: Store, changes: seq<Change>): Store
    decreases |changes|
  {
    if changes == [] then store else Changes(Changed(store, changes[0]), changes[1..])
  }

  /** Sessions and keys are never taken back, and neither is whose they are. */
  ghost predicate Extends(next: Store, store: Store) {
    && (forall id :: id in store.sessions ==> id in next.sessions && next.sessions[id].tenant == store.sessions[id].tenant)
    && (forall k :: k in store.keys ==> k in next.keys && next.keys[k] == store.keys[k])
  }

  lemma ForkOrNothing(store: Store, q: Request)
    ensures var (next, outcome) := ForkOf(store, q); var key := (q.tenant, q.key);
      if key !in store.keys && outcome.Forked? then next.keys == store.keys[key := KeyRow(q.source, NewId(q))] else next == store
  {
    hide Ancestry, Known, ForkPoint;
  }

  lemma ForkKeepsRows(store: Store, q: Request)
    requires Sound(store)
    ensures var next := ForkOf(store, q).0;
      && Sound(next) && Extends(next, store)
      && (forall id :: id in store.sessions ==> id in next.sessions && next.sessions[id] == store.sessions[id])
  {
    hide ForkOf, Sound, Known, ForkPoint, WellFormed, Branch;
    ForkOrNothing(store, q);
    if (q.tenant, q.key) !in store.keys && ForkOf(store, q).1.Forked? {
      ForkHoldsTheBranch(store, q);
    }
  }

  lemma ChangeExtends(store: Store, c: Change)
    requires Sound(store)
    ensures Sound(Changed(store, c)) && Extends(Changed(store, c), store)
  {
    hide ForkOf, Distinct;
    match c
    case Fork(q) => ForkKeepsRows(store, q);
    case Create(session, tenant) => NothingIsDistinct();
    case Snapshot(_, _, _, _) =>
  }

  lemma NothingIsDistinct()
    ensures Distinct([])
  {
  }

  lemma {:induction false} ChangesExtend(store: Store, changes: seq<Change>)
    requires Sound(store)
    ensures Sound(Changes(store, changes)) && Extends(Changes(store, changes), store)
    decreases |changes|
  {
    hide Changed, Sound;
    if changes != [] {
      ChangeExtends(store, changes[0]);
      ChangesExtend(Changed(store, changes[0]), changes[1..]);
    }
  }

  // ---------------------------------------------------------------- once per key

  /** After a fork, whatever else is forked, created or replaced since, its key gives the same session again and changes
      nothing, and gives a conflict for any other source. */
  lemma ForkedOncePerKey(store: Store, q: Request, since: seq<Change>, again: Request)
    requires Sound(store) && ForkOf(store, q).1.Forked?
    requires again.tenant == q.tenant && again.key == q.key
    ensures var later := Changes(ForkOf(store, q).0, since);
      ForkOf(later, again) == (later, if again.source == q.source then ForkOf(store, q).1 else Conflict)
  {
    hide Transact, Sound, Changes;
    ForkKeepsRows(store, q);
    ForkRecordsKey(store, q);
    ChangesExtend(ForkOf(store, q).0, since);
  }

  lemma ForkRecordsKey(store: Store, q: Request)
    requires Sound(store) && ForkOf(store, q).1.Forked?
    ensures var (next, outcome) := ForkOf(store, q);
      (q.tenant, q.key) in next.keys && next.keys[(q.tenant, q.key)] == KeyRow(q.source, outcome.session)
  {
    hide Ancestry, Distinct, Known, ForkPoint;
  }

  /** The rows of the source still lead from where the fork is to end up to a root. */
  ghost predicate StillLeads(store: Store, q: Request) {
    && q.source in store.sessions && ForkPoint(store.sessions[q.source], q).Success?
    && Ancestry(store.sessions[q.source].entries, ForkPoint(store.sessions[q.source], q).value, {}).Found?
  }

  /** Two workers that both looked for the key before either had forked: the second transaction never makes a second
      fork of the key. It returns the first one's session exactly when the name it asks for is taken, as it is if both asked
      for the same, and no snapshot since has taken away the rows from the target up to a root. */
  lemma RacingForks(store: Store, q: Request, since: seq<Change>, twin: Request)
    requires Sound(store) && (q.tenant, q.key) !in store.keys && ForkOf(store, q).1.Forked?
    requires twin.tenant == q.tenant && twin.key == q.key && twin.source == q.source
    ensures var later := Changes(ForkOf(store, q).0, since);
      && Transact(later, twin).0 == later
      && (Transact(later, twin).1.Forked? ==> Transact(later, twin).1 == ForkOf(store, q).1)
      && (Transact(later, twin).1.Forked? <==> StillLeads(later, twin) && NewId(twin) in later.sessions)
      && (NewId(twin) == NewId(q) ==> NewId(twin) in later.sessions)
  {
    hide Ancestry, Distinct, Known, ForkPoint, Transact, Sound, Changes;
    ForkKeepsRows(store, q);
    ForkRecordsKey(store, q);
    FirstForkFacts(store, q);
    var first := ForkOf(store, q).0;
    ChangesExtend(first, since);
    SecondTransaction(Changes(first, since), twin, NewId(q));
  }

  lemma FirstForkFacts(store: Store, q: Request)
    requires Sound(store) && (q.tenant, q.key) !in store.keys && ForkOf(store, q).1.Forked?
    ensures var (next, outcome) := ForkOf(store, q);
      && outcome == Forked(NewId(q)) && NewId(q) in next.sessions
      && q.source in next.sessions && next.sessions[q.source].tenant == q.tenant
  {
    hide Ancestry, Distinct, Known, ForkPoint;
  }

  lemma SecondTransaction(later: Store, twin: Request, session: SessionId)
    requires twin.source in later.sessions && later.sessions[twin.source].tenant == twin.tenant
    requires (twin.tenant, twin.key) in later.keys && later.keys[(twin.tenant, twin.key)] == KeyRow(twin.source, session)
    ensures Transact(later, twin).0 == later
    ensures Transact(later, twin).1.Forked? ==> Transact(later, twin).1 == Forked(session)
    ensures Transact(later, twin).1.Forked? <==> StillLeads(later, twin) && NewId(twin) in later.sessions
  {
    hide Ancestry, Distinct, Known, ForkPoint;
  }

  // ---------------------------------------------------------------- a request that its own twin overtakes

  const ROOT := Entry("a", NONE, 0, Bookkeeping("custom"))
  const SOURCE := SessionRow("t", None, None, "a", [ROOT])
  const BEFORE := Store(map[Named("s") := SOURCE], map[])
  const REQUEST := Request("t", Named("s"), "a", false, None, "k")
  const CLEARED := Snapshot(Named("s"), [], NONE, None)

  lemma RootIsFound()
    ensures Ancestry([ROOT], "a", {}) == Found([ROOT]) && ForkPoint(SOURCE, REQUEST) == Success("a") && Distinct([ROOT])
  {
    assert [ROOT][0].id == "a";
  }

  lemma NothingIsFound(row: SessionRow)
    requires row.entries == []
    ensures ForkPoint(row, REQUEST) == Failure(NotFound)
  {
  }

  lemma OneChange(store: Store, c: Change)
    ensures Changes(store, [c]) == Changed(store, c)
  {
    hide Changed;
    assert [c][1..] == [];
  }

  /** The same request twice at a time: the one that is looked up later is not found, because a snapshot came between. */
  lemma TwinNotFound()
    ensures Sound(BEFORE) && ForkOf(BEFORE, REQUEST).1 == Forked(Derived("t", "k"))
    ensures Transact(Changes(ForkOf(BEFORE, REQUEST).0, [CLEARED]), REQUEST).1 == NotFound
  {
    hide Ancestry, ForkPoint, Known, Distinct;
    RootIsFound();
    NothingIsDistinct();
    assert Sound(BEFORE);
    ForkKeepsRows(BEFORE, REQUEST);
    var first := ForkOf(BEFORE, REQUEST).0;
    assert Named("s") in BEFORE.sessions && first.sessions[Named("s")] == SOURCE;
    OneChange(first, CLEARED);
    assert Kept([]) == [];
    var later := Changed(first, CLEARED);
    NothingIsFound(later.sessions[Named("s")]);
  }

  // ---------------------------------------------------------------- what a request comes to

  /** Following parents from an entry on: each identifier names an entry whose parent is the next one, and none comes twice. */
  ghost predicate Climb(log: seq<Entry>, ids: seq<Id>) {
    && ids != []
    && (forall k :: 0 <= k < |ids| - 1 ==> LeadsTo(log, ids[k], ids[k + 1]))
    && (forall j, k :: 0 <= j < k < |ids| - 1 ==> ids[j] != ids[k])
  }

  predicate LeadsTo(log: seq<Entry>, id: Id, parent: Id) {
    parent != NONE && exists i :: 0 <= i < |log| && log[i].id == id && log[i].parent == parent
  }

  /** The way up ends at an entry without a parent, at a parent that is no entry, or where it has been before. */
  ghost predicate EndsAtRoot(log: seq<Entry>, ids: seq<Id>)
    requires ids != []
  {
    && (exists i :: 0 <= i < |log| && log[i].id == ids[|ids| - 1] && log[i].parent == NONE)
    && (forall k :: 0 <= k < |ids| - 1 ==> ids[k] != ids[|ids| - 1])
  }

  ghost predicate EndsNowhere(log: seq<Entry>, ids: seq<Id>)
    requires ids != []
  {
    !Known(log, ids[|ids| - 1])
  }

  ghost predicate ComesRound(ids: seq<Id>) {
    exists k :: 0 <= k < |ids| - 1 && ids[k] == ids[|ids| - 1]
  }

  /** How a way up ends, among the rows and what was seen on the way before it. */
  ghost predicate EndsAs(log: seq<Entry>, ids: seq<Id>, seen: set<Id>, ended: Ancestors)
    requires ids != []
  {
    match ended
    case Found(path) =>
      && EndsAtRoot(log, ids) && ids[|ids| - 1] !in seen && |path| == |ids|
      && forall k :: 0 <= k < |path| ==> path[k] in log && path[k].id == ids[|ids| - 1 - k]
    case Missing => EndsNowhere(log, ids)
    case Endless => Known(log, ids[|ids| - 1]) && (ids[|ids| - 1] in seen || ComesRound(ids))
  }

  lemma ClimbFrom(log: seq<Entry>, id: Id, rest: seq<Id>, seen: set<Id>)
    requires Climb(log, rest) && LeadsTo(log, id, rest[0]) && id !in seen
    requires forall k :: 0 <= k < |rest| - 1 ==> rest[k] !in seen + {id}
    ensures Climb(log, [id] + rest) && forall k :: 0 <= k < |rest| ==> ([id] + rest)[k] !in seen
  {
    hide LeadsTo;
    var ids := [id] + rest;
    assert forall k :: 1 <= k < |ids| ==> ids[k] == rest[k - 1];
  }

  lemma EndsAlike(log: seq<Entry>, e: Entry, rest: seq<Id>, seen: set<Id>, ended: Ancestors)
    requires rest != [] && e in log && EndsAs(log, rest, seen + {e.id}, ended)
    ensures EndsAs(log, [e.id] + rest, seen, match ended case Found(path) => Found(path + [e]) case other => other)
  {
    hide Known;
    var ids := [e.id] + rest;
    assert forall k :: 1 <= k < |ids| ==> ids[k] == rest[k - 1];
    match ended
    case Found(path) =>
      assert forall k :: 0 <= k < |path| ==> (path + [e])[k] == path[k];
    case Missing =>
    case Endless =>
      if ids[|ids| - 1] !in seen {
        if rest[|rest| - 1] == e.id {
          assert ids[0] == ids[|ids| - 1];
        } else {
          var k :| 0 <= k < |rest| - 1 && rest[k] == rest[|rest| - 1];
          assert ids[k + 1] == ids[|ids| - 1];
        }
      }
  }

  /** What comes of following parents: the entries passed, root first, when the way up ends at a root; that one is missing, or
      that one comes round again, otherwise. */
  lemma {:induction false} AncestryMeans(log: seq<Entry>, id: Id, seen: set<Id>) returns (ids: seq<Id>)
    requires Distinct(log)
    ensures Climb(log, ids) && ids[0] == id && EndsAs(log, ids, seen, Ancestry(log, id, seen))
    ensures forall k :: 0 <= k < |ids| - 1 ==> ids[k] !in seen
    decreases IdsOf(log) - seen
  {
    if !Known(log, id) || id in seen {
      ids := [id];
    } else {
      AncestryStep(log, id, seen);
      var i := At(log, id);
      if log[i].parent == NONE {
        ids := [id];
      } else {
        hide Distinct, Climb, EndsAs, Known, Ancestry;
        var rest := AncestryMeans(log, log[i].parent, seen + {id});
        ids := [id] + rest;
        assert LeadsTo(log, id, rest[0]);
        assert log[i] in log;
        ClimbFrom(log, id, rest, seen);
        EndsAlike(log, log[i], rest, seen, Ancestry(log, log[i].parent, seen + {id}));
      }
    }
  }

  /** The row of the session that is forked, and where the fork is to end: at the target, which is the leaf when none is named,
      or at its parent. */
  ghost predicate EndsFork(row: SessionRow, q: Request, e: Entry, end: Id) {
    && e in row.entries && e.id == (if q.target == "" then row.leaf else q.target) && e.id != ""
    && (if q.before then e.parent != "" && end == e.parent else end == e.id)
  }

  /** A new request: refused as not found when its tenant has no such session, the target is no entry of it, or some entry up
      to the root is missing; refused as a conflict before the first entry or for a name that is taken; hanging on a cycle. What
      it makes otherwise holds, under the name asked for or the one derived from the key, the entries up to where it ends, and
      bears the name of its source. */
  lemma ForkComesTo(store: Store, q: Request, e: Entry, end: Id)
    requires Sound(store) && (q.tenant, q.key) !in store.keys
    ensures var (next, outcome) := ForkOf(store, q);
      var own := q.source in store.sessions && store.sessions[q.source].tenant == q.tenant;
      && (!own ==> outcome == NotFound)
      && (outcome.Forked? || next == store)
      && (own && EndsFork(store.sessions[q.source], q, e, end) ==>
            var row, name := store.sessions[q.source], if q.requested.Some? then q.requested.value else Derived(q.tenant, q.key);
            match Ancestry(row.entries, end, {})
            case Missing => outcome == NotFound
            case Endless => outcome == Hangs
            case Found(path) =>
              if name in store.sessions then outcome == Conflict
              else
                && outcome == Forked(name)
                && next.sessions == store.sessions[name := SessionRow(q.tenant, Some(q.source), row.name, end, path)]
                && next.keys == store.keys[(q.tenant, q.key) := KeyRow(q.source, name)])
  {
    hide Ancestry;
    if q.source in store.sessions && EndsFork(store.sessions[q.source], q, e, end) {
      TargetIs(store.sessions[q.source].entries, e);
    }
  }

  lemma TargetIs(log: seq<Entry>, e: Entry)
    requires Distinct(log) && e in log
    ensures Known(log, e.id) && log[At(log, e.id)] == e
  {
  }

  /** Without a place to end there is no fork: before an entry that has no parent it is a conflict, at no entry it is not found. */
  lemma NowhereToEnd(store: Store, q: Request)
    requires Sound(store) && (q.tenant, q.key) !in store.keys
    requires q.source in store.sessions && store.sessions[q.source].tenant == q.tenant
    ensures var row, outcome := store.sessions[q.source], ForkOf(store, q).1;
      var target := if q.target == "" then row.leaf else q.target;
      && (target == "" || (forall e :: e in row.entries ==> e.id != target) ==> outcome == NotFound)
      && (forall e :: e in row.entries && target != "" && e.id == target && q.before && e.parent == "" ==> outcome == Conflict)
  {
    hide Ancestry;
    var row := store.sessions[q.source];
    forall e | e in row.entries ensures Known(row.entries, e.id) && row.entries[At(row.entries, e.id)] == e {
      TargetIs(row.entries, e);
    }
  }

  /** A snapshot stores the entries that have an identifier, in order, under the session it names; two under one identifier are
      refused. It renames the session only when it says so. */
  lemma SnapshotStores(store: Store, session: SessionId, entries: seq<Entry>, leaf: Id, name: Option<string>)
    ensures var next := Changed(store, Snapshot(session, entries, leaf, name));
      && (forall id :: id in store.sessions && id != session ==> id in next.sessions && next.sessions[id] == store.sessions[id])
      && next.keys == store.keys
      && (session !in store.sessions || !Distinct(Kept(entries)) ==> next == store)
      && (session in store.sessions && Distinct(Kept(entries)) ==>
            next.sessions.Keys == store.sessions.Keys
            && next.sessions[session] == store.sessions[session].(
                 entries := Kept(entries), leaf := leaf, name := if name.Some? then name else store.sessions[session].name))
    ensures forall e :: e in Kept(entries) <==> e in entries && e.id != ""
  {
    hide Distinct;
    KeptHas(entries);
  }

  /** Creating a session again changes nothing; a new one is empty, without a name, a source or a leaf. */
  lemma CreateStores(store: Store, session: SessionId, tenant: Tenant)
    ensures Changed(store, Create(session, tenant)) ==
      if session in store.sessions then store
      else Store(store.sessions[session := SessionRow(tenant, None, None, "", [])], store.keys)
  {
  }

  lemma {:induction false} KeptHas(entries: seq<Entry>)
    ensures forall e :: e in Kept(entries) <==> e in entries && e.id != ""
  {
    if entries != [] {
      KeptHas(entries[..|entries| - 1]);
      assert entries == entries[..|entries| - 1] + [entries[|entries| - 1]];
    }
  }
}
