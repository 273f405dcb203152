/** The check a package must pass, and when what the builder writes passes it. */
module AgentPackageManifest {
  import Fuzzy
  import FuzzyMeaning
  import Lines

  import opened AgentPackage
  import opened Delegation
  import opened Names
  import opened Wrappers

  const NUL: char := '\0'

  /** No blank name and no name twice. */
  predicate Clean(names: seq<string>) {
    && (forall k :: 0 <= k < |names| ==> !Fuzzy.Blank(names[k]))
    && (forall i, j :: 0 <= i < j < |names| ==> names[i] != names[j])
  }

  function Joined(names: seq<string>): string {
    if names == [] then "" else Lines.Join(names, NUL)
  }

  ghost function ListOf(s: set<string>): (xs: seq<string>)
    ensures Listing(xs, s)
    decreases s
  {
    hide Ascending, Insert;
    if s == {} then
      NothingIsListed();
      []
    else
      var x :| x in s;
      var rest := ListOf(s - {x});
      InsertListing(rest, s - {x}, x);
      assert s - {x} + {x} == s;
      Insert(rest, x)
  }

  lemma NothingIsListed()
    ensures Listing([], {})
  {
  }

  lemma InsertListing(xs: seq<string>, s: set<string>, x: string)
    requires Listing(xs, s) && x !in s
    ensures Listing(Insert(xs, x), s + {x})
  {
    hide Leq, Insert;
    InsertAscends(xs, x);
    InsertHas(xs, x);
    var more := Insert(xs, x);
    assert multiset(xs + [x]) == multiset(more);
    NoRepeats(xs + [x], more);
    forall y ensures y in more <==> y in s + {x} {
      assert y in more <==> y in multiset(more);
      assert y in multiset(xs) <==> y in xs;
    }
  }

  /** The declared names, sorted and joined, are those expected. */
  ghost predicate Declares(declared: seq<string>, expected: set<string>) {
    Joined(Sort(declared)) == Joined(ListOf(expected))
  }

  predicate DelegatesWell(agents: map<string, Agent>, a: Agent) {
    && ANY !in a.delegates
    && forall d :: d in a.delegates ==> d in agents && CanDelegateTo(a, agents[d])
  }

  ghost predicate ValidPackage(p: Package) {
    var agents := Available(p.agents);
    && ValidName(p.manifest.entryAgent)
    && Clean(p.manifest.agentDependencies) && Clean(p.manifest.requiredTools) && Clean(p.manifest.optionalTools)
    && (forall i, j :: 0 <= i < j < |p.agents| ==> p.agents[i].name != p.agents[j].name)
    && p.manifest.entryAgent in agents
    && (forall n :: n in agents ==> DelegatesWell(agents, agents[n]) && agents[n].promptInPackage)
    && Declares(p.manifest.agentDependencies, agents.Keys - {p.manifest.entryAgent})
    && Declares(p.manifest.requiredTools, RequiredSet(agents))
    && Declares(p.manifest.optionalTools, OptionalSet(agents) - RequiredSet(agents))
  }

  datatype PackageError =
    | InvalidEntryAgent
    | EmptyOrDuplicate
    | DuplicateName(agent: string)
    | EntryNotExported
    | NotFrozen(agent: string)
    | BadDelegate(agent: string)
    | NoPrompt(agent: string)
    | WrongDependencies
    | WrongTools

  /** What an error says of the package it is reported for. */
  ghost predicate Blames(p: Package, e: PackageError) {
    var agents, m := Available(p.agents), p.manifest;
    match e
    case InvalidEntryAgent => !ValidName(m.entryAgent)
    case EmptyOrDuplicate => !Clean(m.agentDependencies) || !Clean(m.requiredTools) || !Clean(m.optionalTools)
    case DuplicateName(n) => exists i, j :: 0 <= i < j < |p.agents| && p.agents[i].name == n == p.agents[j].name
    case EntryNotExported => m.entryAgent !in agents
    case NotFrozen(n) => n in agents && ANY in agents[n].delegates
    case BadDelegate(n) => n in agents && ANY !in agents[n].delegates && !DelegatesWell(agents, agents[n])
    case NoPrompt(n) => n in agents && !agents[n].promptInPackage
    case WrongDependencies => !Declares(m.agentDependencies, agents.Keys - {m.entryAgent})
    case WrongTools =>
      !Declares(m.requiredTools, RequiredSet(agents)) || !Declares(m.optionalTools, OptionalSet(agents) - RequiredSet(agents))
  }

  // ---------------------------------------------------------------- checking

  method CheckClean(names: seq<string>) returns (ok: bool)
    ensures ok <==> Clean(names)
  {
    var seen: set<string> := {};
    for k := 0 to |names|
      invariant forall x :: x in seen <==> x in names[..k]
      invariant forall j :: 0 <= j < k ==> !Fuzzy.Blank(names[j])
      invariant forall i, j :: 0 <= i < j < k ==> names[i] != names[j]
    {
      if Fuzzy.Blank(names[k]) || names[k] in seen {
        return false;
      }
      seen := seen + {names[k]};
    }
    return true;
  }

  method IndexAgents(agents: seq<Agent>) returns (byName: map<string, Agent>, duplicate: Option<string>)
    ensures duplicate.None? <==> forall i, j :: 0 <= i < j < |agents| ==> agents[i].name != agents[j].name
    ensures duplicate.None? ==> byName == Available(agents)
    ensures duplicate.Some? ==> exists i, j :: 0 <= i < j < |agents| && agents[i].name == duplicate.value == agents[j].name
  {
    byName, duplicate := map[], None;
    for k := 0 to |agents|
      invariant byName == Available(agents[..k])
      invariant forall n :: n in byName <==> exists j :: 0 <= j < k && agents[j].name == n
      invariant forall i, j :: 0 <= i < j < k ==> agents[i].name != agents[j].name
    {
      assert agents[..k + 1][..k] == agents[..k];
      if agents[k].name in byName {
        return byName, Some(agents[k].name);
      }
      byName := byName[agents[k].name := agents[k]];
    }
    assert agents[..|agents|] == agents;
  }

  method CheckDelegates(agents: map<string, Agent>, a: Agent) returns (error: Option<PackageError>)
    ensures error.None? <==> DelegatesWell(agents, a)
    ensures error.Some? ==> error.value == if ANY in a.delegates then NotFrozen(a.name) else BadDelegate(a.name)
  {
    if ANY in a.delegates {
      return Some(NotFrozen(a.name));
    }
    for k := 0 to |a.delegates|
      invariant forall j :: 0 <= j < k ==> a.delegates[j] in agents && CanDelegateTo(a, agents[a.delegates[j]])
    {
      if a.delegates[k] !in agents {
        return Some(BadDelegate(a.name));
      }
      if !CanDelegateTo(a, agents[a.delegates[k]]) {
        return Some(BadDelegate(a.name));
      }
    }
    return None;
  }

  /** Every packaged agent, in whatever order they are met. */
  method CheckAgents(agents: map<string, Agent>) returns (error: Option<PackageError>)
    requires forall n :: n in agents ==> agents[n].name == n
    ensures error.None? <==> forall n :: n in agents ==> DelegatesWell(agents, agents[n]) && agents[n].promptInPackage
    ensures forall p: Package :: error.Some? && Available(p.agents) == agents ==> Blames(p, error.value)
  {
    hide DelegatesWell, Available;
    var left := agents.Keys;
    while left != {}
      invariant left <= agents.Keys
      invariant forall n :: n in agents && n !in left ==> DelegatesWell(agents, agents[n]) && agents[n].promptInPackage
    {
      var n :| n in left;
      left := left - {n};
      error := CheckDelegates(agents, agents[n]);
      if error.Some? {
        return;
      }
      if !agents[n].promptInPackage {
        return Some(NoPrompt(n));
      }
    }
    return None;
  }

  method SameNames(declared: seq<string>, expected: set<string>) returns (same: bool)
    ensures same <==> Declares(declared, expected)
  {
    var sorted := SortedSet(expected);
    ListingIsUnique(sorted, ListOf(expected), expected);
    same := Joined(Sort(declared)) == Joined(sorted);
  }

  method ValidateAgentPackage(p: Package) returns (error: Option<PackageError>)
    ensures error.None? <==> ValidPackage(p)
    ensures error.Some? ==> Blames(p, error.value)
  {
    hide DelegatesWell, Clean, Declares, Available, ValidName, RequiredSet, OptionalSet;
    var m := p.manifest;
    if !ValidName(m.entryAgent) {
      return Some(InvalidEntryAgent);
    }
    var cleanDependencies := CheckClean(m.agentDependencies);
    var cleanRequired := CheckClean(m.requiredTools);
    var cleanOptional := CheckClean(m.optionalTools);
    if !cleanDependencies || !cleanRequired || !cleanOptional {
      return Some(EmptyOrDuplicate);
    }
    var agents, duplicate := IndexAgents(p.agents);
    if duplicate.Some? {
      return Some(DuplicateName(duplicate.value));
    }
    if m.entryAgent !in agents {
      return Some(EntryNotExported);
    }
    error := CheckAgents(agents);
    if error.Some? {
      return;
    }
    var required, optional := ToolSets(agents);
    var same := SameNames(m.agentDependencies, agents.Keys - {m.entryAgent});
    if !same {
      return Some(WrongDependencies);
    }
    same := SameNames(m.requiredTools, required);
    if !same {
      return Some(WrongTools);
    }
    same := SameNames(m.optionalTools, optional - required);
    if !same {
      return Some(WrongTools);
    }
    return None;
  }

  // ---------------------------------------------------------------- what the builder writes

  lemma ListingDeclares(xs: seq<string>, s: set<string>)
    requires Listing(xs, s)
    ensures Declares(xs, s)
  {
    SortOfListing(xs, s);
    ListingIsUnique(xs, ListOf(s), s);
  }

  lemma {:induction false} AvailableIs(agents: seq<Agent>, n: nat)
    requires n <= |agents| && forall i, j :: 0 <= i < j < |agents| ==> agents[i].name != agents[j].name
    ensures forall k :: 0 <= k < n ==> agents[k].name in Available(agents[..n]) && Available(agents[..n])[agents[k].name] == agents[k]
    ensures forall name :: name in Available(agents[..n]) ==> exists k :: 0 <= k < n && agents[k].name == name
  {
    if n > 0 {
      AvailableIs(agents, n - 1);
      assert agents[..n][..n - 1] == agents[..n - 1];
    }
  }

  lemma ProfilesAreAvailable(agents: seq<Agent>, selected: map<string, Agent>)
    requires Profiles(agents, selected)
    ensures Available(agents).Keys == selected.Keys
    ensures forall n :: n in selected ==> Available(agents)[n] == Packaged(selected[n])
  {
    hide Available;
    AvailableIs(agents, |agents|);
    assert agents[..|agents|] == agents;
    forall n | n in selected ensures n in Available(agents) && Available(agents)[n] == Packaged(selected[n]) {
      var k :| 0 <= k < |agents| && agents[k].name == n;
      assert Available(agents)[agents[k].name] == agents[k];
    }
  }

  lemma SameTools(agents: map<string, Agent>, selected: map<string, Agent>)
    requires agents.Keys == selected.Keys && forall n :: n in selected ==> agents[n] == Packaged(selected[n])
    ensures RequiredSet(agents) == RequiredSet(selected) && OptionalSet(agents) == OptionalSet(selected)
  {
  }

  /** Without the tool to delegate, an agent's own list is packaged as it stands: it must be explicit, selected and allowed. */
  predicate ListsOnlySelected(selected: map<string, Agent>, a: Agent) {
    SUBAGENT !in a.tools ==>
      && ANY !in a.delegates
      && forall d :: d in a.delegates ==> d in selected && CanDelegateAgent(a.role, selected[d].role)
  }

  ghost predicate NoBlankTool(selected: map<string, Agent>) {
    forall n, t :: n in selected && t in selected[n].tools ==> !Fuzzy.Blank(t)
  }

  lemma SelectedDelegates(definitions: seq<Agent>, selected: map<string, Agent>, n: string)
    requires Closed(definitions, selected) && n in selected
    ensures selected[n].name == n && ValidName(n) && n in Available(definitions)
    ensures selected[n].role == Available(definitions)[n].role && selected[n].tools == Available(definitions)[n].tools
    ensures SUBAGENT in selected[n].tools ==>
      forall d :: d in selected[n].delegates ==> d in selected && CanDelegateAgent(selected[n].role, selected[d].role)
  {
    hide Targets, Available;
    var a := Available(definitions)[n];
    SortSorts(Targets(definitions, a));
    forall t | t in selected ensures selected[t].role == Available(definitions)[t].role {
      assert Good(definitions, t);
    }
  }

  lemma StarIsNoName()
    ensures !ValidName(ANY)
  {
  }

  lemma DelegatesIff(definitions: seq<Agent>, selected: map<string, Agent>, agents: map<string, Agent>, n: string)
    requires Closed(definitions, selected) && n in selected
    requires agents.Keys == selected.Keys && forall m :: m in selected ==> agents[m] == Packaged(selected[m])
    ensures DelegatesWell(agents, agents[n]) <==> ListsOnlySelected(selected, selected[n])
  {
    hide Closed, ValidName, Available;
    SelectedDelegates(definitions, selected, n);
    StarIsNoName();
    var a := agents[n];
    forall d | d in a.delegates && d in selected
      ensures d != ANY && agents[d].name == d
      ensures CanDelegateTo(a, agents[d]) <==> CanDelegateAgent(a.role, selected[d].role)
    {
      SelectedDelegates(definitions, selected, d);
      var k :| 0 <= k < |a.delegates| && a.delegates[k] == d;
      assert a.delegates[k] == agents[d].name;
    }
  }

  lemma ValidNameIsNotBlank(name: string)
    requires ValidName(name)
    ensures !Fuzzy.Blank(name)
  {
    assert !Fuzzy.IsSpace(name[0]);
  }

  lemma CleanIff(xs: seq<string>, s: set<string>)
    requires Listing(xs, s)
    ensures Clean(xs) <==> forall x :: x in s ==> !Fuzzy.Blank(x)
  {
    hide Fuzzy.Blank, Ascending;
    if Clean(xs) {
      forall x | x in s ensures !Fuzzy.Blank(x) {
        assert x in xs;
      }
    } else {
      var k :| 0 <= k < |xs| && Fuzzy.Blank(xs[k]);
      assert xs[k] in xs;
    }
  }

  lemma ToolsAreCleanIff(selected: map<string, Agent>)
    ensures NoBlankTool(selected) <==>
      (forall t :: t in RequiredSet(selected) ==> !Fuzzy.Blank(t)) &&
      (forall t :: t in OptionalSet(selected) - RequiredSet(selected) ==> !Fuzzy.Blank(t))
  {
    hide Fuzzy.Blank;
    forall n, t | n in selected && t in selected[n].tools
      ensures t in RequiredSet(selected) || t in OptionalSet(selected) - RequiredSet(selected)
    {
    }
  }

  /** What the builder writes passes the check exactly when no selected tool is blank and every selected agent that cannot
      delegate lists only selected agents it might delegate to. */
  lemma BuiltPassesIff(definitions: seq<Agent>, entry: string, selected: map<string, Agent>, p: Package)
    requires Closed(definitions, selected) && Built(entry, selected, p)
    ensures ValidPackage(p) <==> NoBlankTool(selected) && forall n :: n in selected ==> ListsOnlySelected(selected, selected[n])
  {
    hide Closed, Profiles, Available, DelegatesWell, ListsOnlySelected, NoBlankTool, RequiredSet, OptionalSet, ValidName,
         Listing, Declares, Clean, Fuzzy.Blank;
    var agents := Available(p.agents);
    ProfilesAreAvailable(p.agents, selected);
    ProfilesDistinct(p.agents, selected);
    SameTools(agents, selected);
    var m := p.manifest;
    ListingDeclares(m.agentDependencies, selected.Keys - {entry});
    ListingDeclares(m.requiredTools, RequiredSet(selected));
    ListingDeclares(m.optionalTools, OptionalSet(selected) - RequiredSet(selected));
    CleanIff(m.agentDependencies, selected.Keys - {entry});
    CleanIff(m.requiredTools, RequiredSet(selected));
    CleanIff(m.optionalTools, OptionalSet(selected) - RequiredSet(selected));
    ToolsAreCleanIff(selected);
    forall n | n in selected
      ensures ValidName(n) && !Fuzzy.Blank(n) && (DelegatesWell(agents, agents[n]) <==> ListsOnlySelected(selected, selected[n]))
    {
      SelectedDelegates(definitions, selected, n);
      ValidNameIsNotBlank(n);
      DelegatesIff(definitions, selected, agents, n);
    }
  }

  lemma ProfilesDistinct(agents: seq<Agent>, selected: map<string, Agent>)
    requires Profiles(agents, selected)
    ensures forall i, j :: 0 <= i < j < |agents| ==> agents[i].name != agents[j].name
  {
  }

  /** What must hold of the agents at hand for the entry to be packaged at all. */
  ghost predicate Packageable(definitions: seq<Agent>, entry: string) {
    var available := Available(definitions);
    && ValidName(entry)
    && forall n :: Reaches(definitions, entry, n) ==>
         && Good(definitions, n)
         && (forall t :: t in available[n].tools ==> !Fuzzy.Blank(t))
         && (SUBAGENT !in available[n].tools ==>
               && ANY !in available[n].delegates
               && forall d :: d in available[n].delegates ==>
                    Reaches(definitions, entry, d) && d in available && CanDelegateAgent(available[n].role, available[d].role))
  }

  /** The same, read off the definitions. */
  ghost predicate MayBePackaged(definitions: seq<Agent>, entry: string) {
    && FitsAFile(entry)
    && (forall n :: Brought(definitions, entry, n) ==> Fit(definitions, n))
    && (forall a :: AtHand(definitions, a) && Brought(definitions, entry, a.name) ==> Passes(definitions, entry, a))
  }

  /** No tool has a blank name, and an agent without the tool to delegate lists only agents that are packaged anyway and that it
      might delegate to. */
  ghost predicate Passes(definitions: seq<Agent>, entry: string, a: Agent) {
    && (forall t :: t in a.tools ==> FuzzyMeaning.HasText(t))
    && ("subagent" !in a.tools ==>
          && "*" !in a.delegates
          && forall d :: d in a.delegates ==> Brought(definitions, entry, d) && MightAsk(definitions, a, d))
  }

  ghost predicate MightAsk(definitions: seq<Agent>, a: Agent, d: string) {
    exists b :: AtHand(definitions, b) && b.name == d && MayDelegate(a.role, b.role)
  }

  lemma MightAskIff(definitions: seq<Agent>, a: Agent, d: string)
    ensures MightAsk(definitions, a, d) <==>
            d in Available(definitions) && CanDelegateAgent(a.role, Available(definitions)[d].role)
  {
    hide Available, AtHand, CanDelegateAgent, MayDelegate;
    NamesAtHand(definitions, d);
    if d in Available(definitions) {
      RolesAre(a.role, Available(definitions)[d].role);
    }
  }

  lemma PassesIff(definitions: seq<Agent>, entry: string, a: Agent)
    ensures Passes(definitions, entry, a) <==>
      && (forall t :: t in a.tools ==> !Fuzzy.Blank(t))
      && (SUBAGENT !in a.tools ==>
            && ANY !in a.delegates
            && forall d :: d in a.delegates ==>
                 Reaches(definitions, entry, d) && d in Available(definitions)
                 && CanDelegateAgent(a.role, Available(definitions)[d].role))
  {
    hide Reaches, Brought, Available, MightAsk, Fuzzy.Blank, FuzzyMeaning.HasText, CanDelegateAgent;
    forall t | t in a.tools ensures Fuzzy.Blank(t) <==> !FuzzyMeaning.HasText(t) {
      FuzzyMeaning.BlankIff(t);
    }
    forall d | d in a.delegates
      ensures Brought(definitions, entry, d) <==> Reaches(definitions, entry, d)
      ensures MightAsk(definitions, a, d) <==>
              d in Available(definitions) && CanDelegateAgent(a.role, Available(definitions)[d].role)
    {
      BroughtIff(definitions, entry, d);
      MightAskIff(definitions, a, d);
    }
  }

  lemma MayBePackagedIff(definitions: seq<Agent>, entry: string)
    ensures MayBePackaged(definitions, entry) <==> Packageable(definitions, entry)
  {
    hide Reaches, Brought, Available, AtHand, Good, Fit, ValidName, FitsAFile, Passes, Fuzzy.Blank, CanDelegateAgent;
    FitsIff(entry);
    forall n
      ensures Brought(definitions, entry, n) <==> Reaches(definitions, entry, n)
      ensures Fit(definitions, n) <==> Good(definitions, n)
      ensures n in Available(definitions) ==> AtHand(definitions, Available(definitions)[n]) && Available(definitions)[n].name == n
      ensures Good(definitions, n) ==> n in Available(definitions)
    {
      BroughtIff(definitions, entry, n);
      FitIff(definitions, n);
      NamesAtHand(definitions, n);
      GoodNames(definitions, n);
    }
    forall a
      ensures AtHand(definitions, a) <==> a.name in Available(definitions) && Available(definitions)[a.name] == a
      ensures Passes(definitions, entry, a) <==>
        && (forall t :: t in a.tools ==> !Fuzzy.Blank(t))
        && (SUBAGENT !in a.tools ==>
              && ANY !in a.delegates
              && forall d :: d in a.delegates ==>
                   Reaches(definitions, entry, d) && d in Available(definitions)
                   && CanDelegateAgent(a.role, Available(definitions)[d].role))
    {
      AtHandIff(definitions, a);
      PassesIff(definitions, entry, a);
    }
  }

  /** Collects, writes and checks; what is written is the entry with everyone it brings in, and nothing else. */
  method BuildAgentPackage(definitions: seq<Agent>, entry: string) returns (p: Option<Package>)
    ensures p.Some? <==> MayBePackaged(definitions, entry)
    ensures p.Some? ==> ValidPackage(p.value) && Whole(definitions, entry, p.value)
  {
    hide Reaches, Good, Available, ValidPackage, Packageable, Closed, Built, ValidName, MayBePackaged, Whole;
    var builder := new Builder(definitions);
    var built := builder.Build(entry);
    PackageableIff(definitions, entry);
    MayBePackagedIff(definitions, entry);
    if built.Failure? {
      return None;
    }
    BuiltPassesIff(definitions, entry, builder.selected, built.value);
    SelectedPackageable(definitions, entry, builder.selected);
    BuiltIsWhole(definitions, entry, builder.selected, built.value);
    var error := ValidateAgentPackage(built.value);
    if error.Some? {
      return None;
    }
    return Some(built.value);
  }

  lemma PackageableIff(definitions: seq<Agent>, entry: string)
    ensures Packageable(definitions, entry) ==>
              ValidName(entry) && forall n :: Reaches(definitions, entry, n) ==> Good(definitions, n)
  {
    hide Reaches, Good, Available;
  }

  lemma SelectedPackageable(definitions: seq<Agent>, entry: string, selected: map<string, Agent>)
    requires Closed(definitions, selected) && ValidName(entry)
    requires forall n :: n in selected <==> Reaches(definitions, entry, n)
    ensures Packageable(definitions, entry) <==>
            NoBlankTool(selected) && forall n :: n in selected ==> ListsOnlySelected(selected, selected[n])
  {
    hide Reaches, Available, Closed, Fuzzy.Blank, ValidName, Good;
    forall n | n in selected
      ensures n in Available(definitions) && Good(definitions, n)
      ensures selected[n].tools == Available(definitions)[n].tools && selected[n].role == Available(definitions)[n].role
      ensures SUBAGENT !in selected[n].tools ==> selected[n] == Available(definitions)[n]
    {
      SelectedAsFound(definitions, selected, n);
    }
  }

  lemma SelectedAsFound(definitions: seq<Agent>, selected: map<string, Agent>, n: string)
    requires Closed(definitions, selected) && n in selected
    ensures n in Available(definitions) && Good(definitions, n)
    ensures selected[n].tools == Available(definitions)[n].tools && selected[n].role == Available(definitions)[n].role
    ensures SUBAGENT !in selected[n].tools ==> selected[n] == Available(definitions)[n]
  {
    hide Available, Targets;
    GoodNames(definitions, n);
  }

  // ---------------------------------------------------------------- a package its own builder rejects

  /** Alone, without the tool to delegate, and with somebody to delegate to. */
  const LONER := Agent("a", Main, [], [], ["b"], true)

  lemma LonerIsFound()
    ensures Available([LONER]) == map["a" := LONER]
  {
    assert [LONER][..0] == [];
    assert Available([]) == map[];
  }

  /** Everything reachable from this agent is good, so it is collected and written; the package then fails the check. */
  lemma UnselectedDelegate(p: Package)
    ensures ValidName("a") && forall n :: Reaches([LONER], "a", n) ==> Good([LONER], n)
    ensures Closed([LONER], map["a" := LONER]) && (Built("a", map["a" := LONER], p) ==> !ValidPackage(p))
    ensures !Packageable([LONER], "a")
  {
    hide ValidPackage, Built;
    LonerIsFound();
    ReachesItself([LONER], "a");
    assert Good([LONER], "a");
    OnlyReachable([LONER], map["a" := LONER], "a");
    assert "b" in LONER.delegates && "b"[0] != "a"[0];
    assert !ListsOnlySelected(map["a" := LONER], LONER);
    if Built("a", map["a" := LONER], p) {
      BuiltPassesIff([LONER], "a", map["a" := LONER], p);
    }
  }

  // ---------------------------------------------------------------- what the check guarantees

  predicate NoNUL(names: set<string>) {
    forall x :: x in names ==> NUL !in x
  }

  lemma JoinedIsInjective(xs: seq<string>, ys: seq<string>)
    requires forall x :: x in xs || x in ys ==> x != "" && NUL !in x
    requires Joined(xs) == Joined(ys)
    ensures xs == ys
  {
    hide Lines.Join, Lines.Split;
    JoinedEmpty(xs);
    JoinedEmpty(ys);
    if xs != [] && ys != [] {
      Lines.SplitJoin(xs, NUL);
      Lines.SplitJoin(ys, NUL);
    }
  }

  lemma JoinedEmpty(xs: seq<string>)
    requires forall x :: x in xs ==> x != ""
    ensures Joined(xs) == "" <==> xs == []
  {
    if xs != [] {
      assert xs[0] in xs;
    }
  }

  /** Names without NUL that pass as the expected ones are the expected ones. */
  lemma DeclaredAreExpected(declared: seq<string>, expected: set<string>)
    requires Clean(declared) && Declares(declared, expected)
    requires NoNUL(set x | x in declared) && NoNUL(expected) && forall x :: x in expected ==> x != ""
    ensures forall x :: x in declared <==> x in expected
  {
    hide Joined, Sort, Leq;
    SortSorts(declared);
    forall x | x in declared ensures x != "" {
      NotBlank(declared, x);
    }
    assert forall x :: x in declared ==> x in (set y | y in declared);
    JoinedIsInjective(Sort(declared), ListOf(expected));
  }

  lemma NotBlank(names: seq<string>, x: string)
    requires Clean(names) && x in names
    ensures x != ""
  {
  }

  // ---------------------------------------------------------------- the check, read off the package

  predicate Named(names: seq<string>) {
    && (forall x :: x in names ==> FuzzyMeaning.HasText(x))
    && forall i, j :: 0 <= i < j < |names| ==> names[i] != names[j]
  }

  /** The agent has its prompt in the package and delegates to named agents of the package only, in a role it may delegate to. */
  predicate SelfContained(agents: seq<Agent>, a: Agent) {
    && a.promptInPackage && "*" !in a.delegates
    && forall d :: d in a.delegates ==> exists j :: 0 <= j < |agents| && agents[j].name == d && MayDelegate(a.role, agents[j].role)
  }

  ghost predicate WellMade(p: Package) {
    && FitsAFile(p.manifest.entryAgent) && Holds(p.agents, p.manifest.entryAgent)
    && Named(p.manifest.agentDependencies) && Named(p.manifest.requiredTools) && Named(p.manifest.optionalTools)
    && (forall i, j :: 0 <= i < j < |p.agents| ==> p.agents[i].name != p.agents[j].name)
    && (forall k :: 0 <= k < |p.agents| ==> SelfContained(p.agents, p.agents[k]))
    && (forall n :: n in p.manifest.agentDependencies <==> Holds(p.agents, n) && n != p.manifest.entryAgent)
    && (forall t :: t in p.manifest.requiredTools <==> Requires(p.agents, t))
    && (forall t :: t in p.manifest.optionalTools <==> Offers(p.agents, t) && !Requires(p.agents, t))
  }

  predicate Writable(x: string) {
    x != "" && NUL !in x
  }

  /** Nothing in the package has an empty name or one with a NUL, which the check joins names with. */
  ghost predicate NoNULIn(p: Package) {
    && (forall x :: x in p.manifest.agentDependencies || x in p.manifest.requiredTools || x in p.manifest.optionalTools ==> NUL !in x)
    && (forall k :: 0 <= k < |p.agents| ==> Writable(p.agents[k].name))
    && (forall k, t :: 0 <= k < |p.agents| && t in p.agents[k].tools ==> Writable(t))
  }

  lemma CleanIsNamed(names: seq<string>)
    ensures Clean(names) <==> Named(names)
  {
    hide Fuzzy.Blank;
    forall x | x in names ensures Fuzzy.Blank(x) <==> !FuzzyMeaning.HasText(x) {
      FuzzyMeaning.BlankIff(x);
    }
  }

  lemma DeclaresIff(declared: seq<string>, expected: set<string>)
    requires Clean(declared) && (forall x :: x in declared ==> NUL !in x) && forall x :: x in expected ==> Writable(x)
    ensures Declares(declared, expected) <==> forall x :: x in declared <==> x in expected
  {
    hide Joined, Sort, Leq, Fuzzy.Blank;
    if Declares(declared, expected) {
      DeclaredAreExpected(declared, expected);
    }
    if forall x :: x in declared <==> x in expected {
      SortSorts(declared);
      NoRepeats(declared, Sort(declared));
      ListingIsUnique(Sort(declared), ListOf(expected), expected);
    }
  }

  lemma AgentsAre(agents: seq<Agent>, t: string)
    requires forall i, j :: 0 <= i < j < |agents| ==> agents[i].name != agents[j].name
    ensures t in Available(agents) <==> Holds(agents, t)
    ensures t in RequiredSet(Available(agents)) <==> Requires(agents, t)
    ensures t in OptionalSet(Available(agents)) <==> Offers(agents, t)
  {
    hide Available;
    AvailableIs(agents, |agents|);
    assert agents[..|agents|] == agents;
    forall n | n in Available(agents) ensures exists k :: 0 <= k < |agents| && agents[k] == Available(agents)[n] {
      var k :| 0 <= k < |agents| && agents[k].name == n;
    }
  }

  lemma DelegatesWellIff(agents: seq<Agent>, k: nat)
    requires forall i, j :: 0 <= i < j < |agents| ==> agents[i].name != agents[j].name
    requires k < |agents|
    ensures agents[k].name in Available(agents) && Available(agents)[agents[k].name] == agents[k]
    ensures SelfContained(agents, agents[k]) <==> DelegatesWell(Available(agents), agents[k]) && agents[k].promptInPackage
  {
    hide Available, CanDelegateAgent, MayDelegate, CanDelegateTo;
    AvailableIs(agents, |agents|);
    assert agents[..|agents|] == agents;
    var a := agents[k];
    forall d | d in a.delegates
      ensures (d in Available(agents) && CanDelegateTo(a, Available(agents)[d])) <==>
              exists j :: 0 <= j < |agents| && agents[j].name == d && MayDelegate(a.role, agents[j].role)
    {
      if d in Available(agents) {
        var j :| 0 <= j < |agents| && agents[j].name == d;
        RolesAre(a.role, agents[j].role);
        AllowsListed(a, agents[j]);
      }
    }
  }

  lemma AllowsListed(a: Agent, target: Agent)
    requires target.name in a.delegates
    ensures CanDelegateTo(a, target) <==> CanDelegateAgent(a.role, target.role)
  {
    var i :| 0 <= i < |a.delegates| && a.delegates[i] == target.name;
  }

  lemma AgentNamed(agents: seq<Agent>, n: string) returns (k: nat)
    requires forall i, j :: 0 <= i < j < |agents| ==> agents[i].name != agents[j].name
    requires n in Available(agents)
    ensures k < |agents| && agents[k] == Available(agents)[n]
  {
    hide Available;
    AvailableIs(agents, |agents|);
    assert agents[..|agents|] == agents;
    k :| 0 <= k < |agents| && agents[k].name == n;
  }

  lemma AllDelegateWell(agents: seq<Agent>, n: string)
    requires forall i, j :: 0 <= i < j < |agents| ==> agents[i].name != agents[j].name
    requires (forall k :: 0 <= k < |agents| ==> SelfContained(agents, agents[k])) && n in Available(agents)
    ensures DelegatesWell(Available(agents), Available(agents)[n]) && Available(agents)[n].promptInPackage
  {
    hide Available, SelfContained, DelegatesWell;
    var k := AgentNamed(agents, n);
    DelegatesWellIff(agents, k);
  }

  lemma AllSelfContained(agents: seq<Agent>, k: nat)
    requires forall i, j :: 0 <= i < j < |agents| ==> agents[i].name != agents[j].name
    requires forall n :: n in Available(agents) ==> DelegatesWell(Available(agents), Available(agents)[n]) && Available(agents)[n].promptInPackage
    requires k < |agents|
    ensures SelfContained(agents, agents[k])
  {
    hide Available, SelfContained, DelegatesWell;
    DelegatesWellIff(agents, k);
  }

  /** A package passes the check exactly when it is well made, provided no name in it is empty or has a NUL. */
  lemma PassesCheckIff(p: Package)
    requires NoNULIn(p)
    ensures ValidPackage(p) <==> WellMade(p)
  {
    hide Available, Declares, Clean, Named, FitsAFile, ValidName, RequiredSet, OptionalSet, Requires, Offers, Holds, DelegatesWell,
         SelfContained;
    var m := p.manifest;
    FitsIff(m.entryAgent);
    CleanIsNamed(m.agentDependencies);
    CleanIsNamed(m.requiredTools);
    CleanIsNamed(m.optionalTools);
    if forall i, j :: 0 <= i < j < |p.agents| ==> p.agents[i].name != p.agents[j].name {
      var agents := Available(p.agents);
      forall t
        ensures t in agents <==> Holds(p.agents, t)
        ensures t in RequiredSet(agents) <==> Requires(p.agents, t)
        ensures t in OptionalSet(agents) <==> Offers(p.agents, t)
        ensures Holds(p.agents, t) || Requires(p.agents, t) || Offers(p.agents, t) ==> Writable(t)
      {
        AgentsAre(p.agents, t);
        NamesWritable(p, t);
      }
      if forall k :: 0 <= k < |p.agents| ==> SelfContained(p.agents, p.agents[k]) {
        forall n | n in agents ensures DelegatesWell(agents, agents[n]) && agents[n].promptInPackage { AllDelegateWell(p.agents, n); }
      }
      if forall n :: n in agents ==> DelegatesWell(agents, agents[n]) && agents[n].promptInPackage {
        forall k | 0 <= k < |p.agents| ensures SelfContained(p.agents, p.agents[k]) { AllSelfContained(p.agents, k); }
      }
      if Clean(m.agentDependencies) && Clean(m.requiredTools) && Clean(m.optionalTools) {
        DeclaresIff(m.agentDependencies, agents.Keys - {m.entryAgent});
        DeclaresIff(m.requiredTools, RequiredSet(agents));
        DeclaresIff(m.optionalTools, OptionalSet(agents) - RequiredSet(agents));
        assert Declares(m.agentDependencies, agents.Keys - {m.entryAgent}) <==>
               forall n :: n in m.agentDependencies <==> Holds(p.agents, n) && n != m.entryAgent;
        assert Declares(m.requiredTools, RequiredSet(agents)) <==>
               forall t :: t in m.requiredTools <==> Requires(p.agents, t);
        assert Declares(m.optionalTools, OptionalSet(agents) - RequiredSet(agents)) <==>
               forall t :: t in m.optionalTools <==> Offers(p.agents, t) && !Requires(p.agents, t);
      }
    }
  }

  lemma NamesWritable(p: Package, t: string)
    requires NoNULIn(p)
    ensures Holds(p.agents, t) || Requires(p.agents, t) || Offers(p.agents, t) ==> Writable(t)
  {
  }
}
