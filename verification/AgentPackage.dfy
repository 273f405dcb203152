/**
 Packaging an agent with everything it may delegate to, and the independent check
 a package must pass before it is installed.
 */
module AgentPackage {
  import opened Names
  import opened Wrappers

  datatype Role = Main | Sub | Meta | OtherRole

  datatype Agent = Agent(name: string, role: Role, tools: seq<string>, optionalTools: seq<string>,
                         delegates: seq<string>, promptInPackage: bool)

  const SUBAGENT: string := "subagent"
  const ANY: string := "*"

  predicate CanDelegateAgent(caller: Role, target: Role) {
    match caller
    case Main => target == Sub || target == Meta
    case Sub => target == Meta
    case _ => false
  }

  predicate CanDelegateTo(caller: Agent, target: Agent) {
    CanDelegateAgent(caller.role, target.role) &&
    exists k :: 0 <= k < |caller.delegates| && (caller.delegates[k] == ANY || caller.delegates[k] == target.name)
  }

  /** Falls along every delegation. */
  function Rank(role: Role): nat {
    match role
    case Main => 2
    case Sub => 1
    case _ => 0
  }

  predicate IsAlphanumeric(c: char) {
    'a' <= c <= 'z' || 'A' <= c <= 'Z' || '0' <= c <= '9'
  }

  predicate ValidName(name: string) {
    name != "" && IsAlphanumeric(name[0]) &&
    forall k :: 0 < k < |name| ==> IsAlphanumeric(name[k]) || name[k] == '.' || name[k] == '_' || name[k] == '-'
  }

  // ---------------------------------------------------------------- the agents at hand

  /** The agents by name; of two with one name the later one counts. */
  function Available(definitions: seq<Agent>): (m: map<string, Agent>)
    ensures forall name :: name in m ==> m[name].name == name
  {
    if definitions == [] then map[]
    else
      var last := definitions[|definitions| - 1];
      Available(definitions[..|definitions| - 1])[last.name := last]
  }

  /** The agents a role may delegate to, in the order they were found. */
  function Compatible(definitions: seq<Agent>, role: Role): seq<string> {
    if definitions == [] then []
    else
      var last := definitions[|definitions| - 1];
      Compatible(definitions[..|definitions| - 1], role) + if CanDelegateAgent(role, last.role) then [last.name] else []
  }

  /** Whom an agent delegates to: nobody without the tool for it, everyone it may when it says so. */
  function Targets(definitions: seq<Agent>, a: Agent): seq<string> {
    if SUBAGENT !in a.tools then []
    else if ANY in a.delegates then Compatible(definitions, a.role)
    else a.delegates
  }

  /** The profile as it is packaged: its delegates spelled out, sorted and each once. */
  function Frozen(definitions: seq<Agent>, a: Agent): Agent {
    if SUBAGENT !in a.tools then a else a.(delegates := Unique(Sort(Targets(definitions, a))))
  }

  // ---------------------------------------------------------------- what should be collected

  ghost predicate Walk(definitions: seq<Agent>, path: seq<string>) {
    && path != []
    && forall i :: 0 <= i < |path| - 1 ==>
         path[i] in Available(definitions) && path[i + 1] in Targets(definitions, Available(definitions)[path[i]])
  }

  /** There is a chain of delegations. */
  ghost predicate Reaches(definitions: seq<Agent>, from: string, to: string) {
    exists path :: Walk(definitions, path) && path[0] == from && path[|path| - 1] == to
  }

  /** The agent exists under a name fit for a file, and so do its delegates, in roles it may delegate to. */
  ghost predicate Good(definitions: seq<Agent>, name: string) {
    var available := Available(definitions);
    && name in available && ValidName(name)
    && forall t :: t in Targets(definitions, available[name]) ==>
         t in available && CanDelegateAgent(available[name].role, available[t].role)
  }

  lemma ReachesItself(definitions: seq<Agent>, name: string)
    ensures Reaches(definitions, name, name)
  {
    assert Walk(definitions, [name]);
  }

  lemma ReachesThrough(definitions: seq<Agent>, from: string, next: string, to: string)
    requires from in Available(definitions) && next in Targets(definitions, Available(definitions)[from])
    requires Reaches(definitions, next, to)
    ensures Reaches(definitions, from, to)
  {
    hide Targets, Available;
    var path :| Walk(definitions, path) && path[0] == next && path[|path| - 1] == to;
    var longer := [from] + path;
    assert forall i :: 1 <= i < |longer| ==> longer[i] == path[i - 1];
    assert Walk(definitions, longer);
  }

  // ---------------------------------------------------------------- collecting

  datatype BuildError =
    | InvalidEntry
    | DelegateCycle(agent: string)
    | NotAvailable(agent: string)
    | InvalidFileName(agent: string)
    | MissingDependency(agent: string, target: string)
    | IncompatibleRole(agent: string, target: string)

  /** What an error says of an agent reached from the name it is reported for. */
  ghost predicate Explains(definitions: seq<Agent>, name: string, e: BuildError) {
    var available := Available(definitions);
    match e
    case InvalidEntry => false
    case DelegateCycle(_) => false
    case NotAvailable(n) => Reaches(definitions, name, n) && n !in available
    case InvalidFileName(n) => Reaches(definitions, name, n) && n in available && !ValidName(n)
    case MissingDependency(n, t) =>
      Reaches(definitions, name, n) && n in available && t in Targets(definitions, available[n]) && t !in available
    case IncompatibleRole(n, t) =>
      && Reaches(definitions, name, n) && n in available && t in Targets(definitions, available[n]) && t in available
      && !CanDelegateAgent(available[n].role, available[t].role)
  }

  lemma ExplainsThrough(definitions: seq<Agent>, from: string, next: string, e: BuildError)
    requires from in Available(definitions) && next in Targets(definitions, Available(definitions)[from])
    requires Explains(definitions, next, e)
    ensures Explains(definitions, from, e)
  {
    hide Available, Targets, Reaches;
    match e
    case NotAvailable(n) => ReachesThrough(definitions, from, next, n);
    case InvalidFileName(n) => ReachesThrough(definitions, from, next, n);
    case MissingDependency(n, _) => ReachesThrough(definitions, from, next, n);
    case IncompatibleRole(n, _) => ReachesThrough(definitions, from, next, n);
  }

  function RankOf(definitions: seq<Agent>, name: string): nat {
    if name in Available(definitions) then Rank(Available(definitions)[name].role) + 1 else 0
  }

  /** Everything selected so far is right, and brings its delegates with it. */
  ghost predicate Closed(definitions: seq<Agent>, selected: map<string, Agent>) {
    forall name :: name in selected ==>
      && Good(definitions, name)
      && selected[name] == Frozen(definitions, Available(definitions)[name])
      && forall t :: t in Targets(definitions, Available(definitions)[name]) ==> t in selected
  }

  class Builder {
    const definitions: seq<Agent>
    var selected: map<string, Agent>
    var visiting: set<string>

    constructor (definitions: seq<Agent>)
      ensures this.definitions == definitions && selected == map[] && visiting == {}
    {
      this.definitions := definitions;
      selected, visiting := map[], {};
    }

    /** Agents being visited outrank the one to visit next, so none of them is met again. */
    ghost predicate Descending(name: string)
      reads this
    {
      forall v :: v in visiting ==> RankOf(definitions, v) > RankOf(definitions, name)
    }

    method Collect(name: string) returns (error: Option<BuildError>)
      requires Closed(definitions, selected) && Descending(name)
      modifies this
      ensures error.None? ==>
        && Closed(definitions, selected) && name in selected && visiting == old(visiting)
        && (forall s :: s in old(selected) ==> s in selected)
        && (forall s :: s in selected ==> s in old(selected) || Reaches(definitions, name, s))
      ensures error.Some? ==> exists n :: Reaches(definitions, name, n) && !Good(definitions, n)
      ensures error.Some? ==> Explains(definitions, name, error.value)
      decreases RankOf(definitions, name), 1
    {
      hide Closed, Reaches, Good, Frozen, Targets, Available;
      if name in visiting {
        return Some(DelegateCycle(name));
      }
      if name in selected {
        return None;
      }
      ReachesItself(definitions, name);
      var available := Available(definitions);
      GoodNames(definitions, name);
      if name !in available {
        return Some(NotAvailable(name));
      }
      if !ValidName(name) {
        return Some(InvalidFileName(name));
      }
      visiting := visiting + {name};
      var targets := Sort(Targets(definitions, available[name]));
      SortSorts(Targets(definitions, available[name]));
      error := CollectTargets(name, targets);
      if error.Some? {
        return;
      }
      SelectingKeepsClosed(definitions, selected, name);
      selected := selected[name := Frozen(definitions, available[name])];
      visiting := visiting - {name};
    }

    method CollectTargets(name: string, targets: seq<string>) returns (error: Option<BuildError>)
      requires Closed(definitions, selected) && name in visiting && name in Available(definitions) && ValidName(name)
      requires forall v :: v in visiting ==> RankOf(definitions, v) >= RankOf(definitions, name)
      requires forall t :: t in targets <==> t in Targets(definitions, Available(definitions)[name])
      modifies this
      ensures error.None? ==>
        && Closed(definitions, selected) && Good(definitions, name) && visiting == old(visiting)
        && (forall t :: t in targets ==> t in selected)
        && (forall s :: s in old(selected) ==> s in selected)
        && (forall s :: s in selected ==> s in old(selected) || Reaches(definitions, name, s))
      ensures error.Some? ==> exists n :: Reaches(definitions, name, n) && !Good(definitions, n)
      ensures error.Some? ==> Explains(definitions, name, error.value)
      decreases RankOf(definitions, name), 0
    {
      hide Closed, Reaches, Good, Frozen, Targets, Available;
      var available := Available(definitions);
      var definition := available[name];
      ReachesItself(definitions, name);
      for k := 0 to |targets|
        invariant Closed(definitions, selected) && visiting == old(visiting)
        invariant forall j :: 0 <= j < k ==> targets[j] in selected && targets[j] in available
        invariant forall j :: 0 <= j < k ==> CanDelegateAgent(definition.role, available[targets[j]].role)
        invariant forall s :: s in old(selected) ==> s in selected
        invariant forall s :: s in selected ==> s in old(selected) || Reaches(definitions, name, s)
      {
        var target := targets[k];
        assert target in targets;
        BadTarget(definitions, name, target);
        if target !in available {
          return Some(MissingDependency(name, target));
        }
        if !CanDelegateAgent(definition.role, available[target].role) {
          return Some(IncompatibleRole(name, target));
        }
        ghost var before := selected;
        error := Collect(target);
        if error.Some? {
          ghost var n :| Reaches(definitions, target, n) && !Good(definitions, n);
          ReachesThrough(definitions, name, target, n);
          ExplainsThrough(definitions, name, target, error.value);
          return;
        }
        forall s | s in selected ensures s in old(selected) || Reaches(definitions, name, s) {
          if s !in before {
            ReachesThrough(definitions, name, target, s);
          }
        }
      }
      AllTargetsGood(definitions, name, targets);
      error := None;
    }

    /** Succeeds exactly when everything reachable from the entry is good, and packages exactly that. */
    method Build(entry: string) returns (result: Result<Package, BuildError>)
      requires selected == map[] && visiting == {}
      modifies this
      ensures result.Success? <==> ValidName(entry) && forall n :: Reaches(definitions, entry, n) ==> Good(definitions, n)
      ensures result.Success? ==>
        && Closed(definitions, selected) && Built(entry, selected, result.value)
        && (forall n :: n in selected <==> Reaches(definitions, entry, n))
      ensures result.Failure? ==>
        if ValidName(entry) then Explains(definitions, entry, result.error) else result.error == InvalidEntry
    {
      hide Closed, Reaches, Good, Frozen, Targets, Available, Listing, RequiredSet, OptionalSet, ValidName, Explains;
      if !ValidName(entry) {
        return Failure(InvalidEntry);
      }
      NothingIsClosed(definitions);
      var error := Collect(entry);
      if error.Some? {
        return Failure(error.value);
      }
      OnlyReachable(definitions, selected, entry);
      SelectedNames(definitions, selected);
      var agentNames := SortedSet(selected.Keys);
      var required, optional := ToolSets(selected);
      var dependencies := SortedSet(selected.Keys - {entry});
      var requiredTools := SortedSet(required);
      var optionalTools := SortedSet(optional - required);
      var agents := WriteProfiles(selected, agentNames);
      return Success(Package(Manifest(entry, dependencies, requiredTools, optionalTools), agents));
    }
  }

  lemma GoodNames(definitions: seq<Agent>, name: string)
    ensures Good(definitions, name) ==> name in Available(definitions) && ValidName(name)
  {
  }

  lemma BadTarget(definitions: seq<Agent>, name: string, target: string)
    requires name in Available(definitions) && target in Targets(definitions, Available(definitions)[name])
    ensures Good(definitions, name) ==> target in Available(definitions)
    ensures Good(definitions, name) ==>
              CanDelegateAgent(Available(definitions)[name].role, Available(definitions)[target].role)
  {
  }

  lemma AllTargetsGood(definitions: seq<Agent>, name: string, targets: seq<string>)
    requires name in Available(definitions) && ValidName(name)
    requires forall t :: t in targets <==> t in Targets(definitions, Available(definitions)[name])
    requires forall j :: 0 <= j < |targets| ==> targets[j] in Available(definitions)
    requires forall j :: 0 <= j < |targets| ==>
               CanDelegateAgent(Available(definitions)[name].role, Available(definitions)[targets[j]].role)
    ensures Good(definitions, name)
  {
    hide Targets, Available;
  }

  lemma SelectingKeepsClosed(definitions: seq<Agent>, selected: map<string, Agent>, name: string)
    requires Closed(definitions, selected) && Good(definitions, name)
    requires forall t :: t in Targets(definitions, Available(definitions)[name]) ==> t in selected
    ensures Closed(definitions, selected[name := Frozen(definitions, Available(definitions)[name])])
  {
    hide Targets, Available, Frozen, Good;
    GoodNames(definitions, name);
  }

  lemma SelectedNames(definitions: seq<Agent>, selected: map<string, Agent>)
    requires Closed(definitions, selected)
    ensures forall n :: n in selected ==> selected[n].name == n
  {
    hide Targets;
  }

  lemma NothingIsClosed(definitions: seq<Agent>)
    ensures Closed(definitions, map[])
  {
  }

  lemma {:induction false} ClosedHoldsPath(definitions: seq<Agent>, selected: map<string, Agent>, path: seq<string>, k: nat)
    requires Closed(definitions, selected) && Walk(definitions, path) && path[0] in selected && k < |path|
    ensures path[k] in selected
  {
    hide Good, Frozen, Targets, Available;
    if k > 0 {
      ClosedHoldsPath(definitions, selected, path, k - 1);
    }
  }

  lemma OnlyReachable(definitions: seq<Agent>, selected: map<string, Agent>, entry: string)
    requires Closed(definitions, selected) && entry in selected
    requires forall s :: s in selected ==> Reaches(definitions, entry, s)
    ensures forall n :: n in selected <==> Reaches(definitions, entry, n)
    ensures forall n :: Reaches(definitions, entry, n) ==> Good(definitions, n)
  {
    hide Good, Frozen, Targets, Available;
    forall n | Reaches(definitions, entry, n) ensures n in selected {
      var path :| Walk(definitions, path) && path[0] == entry && path[|path| - 1] == n;
      ClosedHoldsPath(definitions, selected, path, |path| - 1);
    }
  }

  // ---------------------------------------------------------------- the package

  datatype Manifest = Manifest(entryAgent: string, agentDependencies: seq<string>, requiredTools: seq<string>,
                               optionalTools: seq<string>)
  datatype Package = Package(manifest: Manifest, agents: seq<Agent>)

  function RequiredSet(agents: map<string, Agent>): set<string> {
    set n, t | n in agents && t in agents[n].tools && t !in agents[n].optionalTools :: t
  }

  function OptionalSet(agents: map<string, Agent>): set<string> {
    set n, t | n in agents && t in agents[n].tools && t in agents[n].optionalTools :: t
  }

  /** The profile in the package names a prompt in the package. */
  function Packaged(a: Agent): Agent {
    a.(promptInPackage := true)
  }

  ghost predicate Profiles(agents: seq<Agent>, selected: map<string, Agent>) {
    && (forall k :: 0 <= k < |agents| ==> agents[k].name in selected && agents[k] == Packaged(selected[agents[k].name]))
    && (forall i, j :: 0 <= i < j < |agents| ==> agents[i].name != agents[j].name)
    && (forall n :: n in selected ==> exists k :: 0 <= k < |agents| && agents[k].name == n)
  }

  ghost predicate Built(entry: string, selected: map<string, Agent>, p: Package) {
    && p.manifest.entryAgent == entry && entry in selected
    && Listing(p.manifest.agentDependencies, selected.Keys - {entry})
    && Listing(p.manifest.requiredTools, RequiredSet(selected))
    && Listing(p.manifest.optionalTools, OptionalSet(selected) - RequiredSet(selected))
    && Profiles(p.agents, selected)
  }

  /** The elements of a set in order, whatever order they are met in. */
  method SortedSet(values: set<string>) returns (result: seq<string>)
    ensures Listing(result, values)
    ensures Sort(result) == result
  {
    var left := values;
    result := [];
    while left != {}
      invariant left <= values
      invariant forall x :: x in result <==> x in values && x !in left
      invariant forall i, j :: 0 <= i < j < |result| ==> result[i] != result[j]
    {
      var x :| x in left;
      left := left - {x};
      result := result + [x];
    }
    SortSorts(result);
    NoRepeats(result, Sort(result));
    result := Sort(result);
    SortOfListing(result, values);
  }

  method ToolSets(agents: map<string, Agent>) returns (required: set<string>, optional: set<string>)
    ensures required == RequiredSet(agents) && optional == OptionalSet(agents)
  {
    var left := agents.Keys;
    required, optional := {}, {};
    while left != {}
      invariant left <= agents.Keys
      invariant forall t :: t in required <==>
                  exists n :: n in agents && n !in left && t in agents[n].tools && t !in agents[n].optionalTools
      invariant forall t :: t in optional <==>
                  exists n :: n in agents && n !in left && t in agents[n].tools && t in agents[n].optionalTools
    {
      var name :| name in left;
      left := left - {name};
      var mine, theirs := SplitTools(agents[name]);
      required, optional := required + mine, optional + theirs;
    }
  }

  method SplitTools(a: Agent) returns (required: set<string>, optional: set<string>)
    ensures forall t :: t in required <==> t in a.tools && t !in a.optionalTools
    ensures forall t :: t in optional <==> t in a.tools && t in a.optionalTools
  {
    required, optional := {}, {};
    for k := 0 to |a.tools|
      invariant forall t :: t in required <==> t in a.tools[..k] && t !in a.optionalTools
      invariant forall t :: t in optional <==> t in a.tools[..k] && t in a.optionalTools
    {
      assert a.tools[..k + 1] == a.tools[..k] + [a.tools[k]];
      if a.tools[k] in a.optionalTools {
        optional := optional + {a.tools[k]};
      } else {
        required := required + {a.tools[k]};
      }
    }
    assert a.tools[..|a.tools|] == a.tools;
  }

  method WriteProfiles(selected: map<string, Agent>, names: seq<string>) returns (agents: seq<Agent>)
    requires Listing(names, selected.Keys) && forall n :: n in selected ==> selected[n].name == n
    ensures Profiles(agents, selected)
  {
    hide Leq;
    agents := [];
    for k := 0 to |names|
      invariant |agents| == k
      invariant forall j :: 0 <= j < k ==> names[j] in selected && agents[j] == Packaged(selected[names[j]])
    {
      assert names[k] in names;
      agents := agents + [Packaged(selected[names[k]])];
    }
    forall n | n in selected ensures exists k :: 0 <= k < |agents| && agents[k].name == n {
      assert n in names;
      var k :| 0 <= k < |names| && names[k] == n;
      assert agents[k].name == n;
    }
  }
}
