/**
 What a package must hold, read off the definitions at hand: whom each agent brings
 with it, and under which names it can be written.
 */
module Delegation {
  import opened AgentPackage
  import opened Names
  import opened Wrappers

  // ---------------------------------------------------------------- definitions

  /** A main agent delegates to sub and meta agents, a sub agent to meta agents, any other to nobody. */
  predicate MayDelegate(caller: Role, target: Role) {
    (caller == Main && target in {Sub, Meta}) || (caller == Sub && target in {Meta})
  }

  /** Of several definitions under one name the last one counts. */
  predicate AtHand(definitions: seq<Agent>, a: Agent) {
    exists k :: 0 <= k < |definitions| && definitions[k] == a && Last(definitions, k)
  }

  predicate Last(definitions: seq<Agent>, k: nat)
    requires k < |definitions|
  {
    forall j :: k < j < |definitions| ==> definitions[j].name != definitions[k].name
  }

  /** Packaging this agent brings the name in: it has the tool to delegate, and it lists the name, or "*" and some definition
      under the name has a role it may delegate to. */
  predicate BringsIn(definitions: seq<Agent>, a: Agent, name: string) {
    && "subagent" in a.tools
    && if "*" in a.delegates
       then exists k :: 0 <= k < |definitions| && definitions[k].name == name && MayDelegate(a.role, definitions[k].role)
       else name in a.delegates
  }

  ghost predicate Link(definitions: seq<Agent>, from: string, to: string) {
    exists a :: AtHand(definitions, a) && a.name == from && BringsIn(definitions, a, to)
  }

  ghost predicate Chain(definitions: seq<Agent>, path: seq<string>) {
    path != [] && forall i :: 0 <= i < |path| - 1 ==> Link(definitions, path[i], path[i + 1])
  }

  /** The entry brings the name in, directly or through others. */
  ghost predicate Brought(definitions: seq<Agent>, entry: string, name: string) {
    exists path :: Chain(definitions, path) && path[0] == entry && path[|path| - 1] == name
  }

  // ---------------------------------------------------------------- the same as the builder computes it

  lemma RolesAre(caller: Role, target: Role)
    ensures CanDelegateAgent(caller, target) <==> MayDelegate(caller, target)
  {
  }

  lemma {:induction false} AtHandIff(definitions: seq<Agent>, a: Agent)
    ensures AtHand(definitions, a) <==> a.name in Available(definitions) && Available(definitions)[a.name] == a
  {
    if definitions != [] {
      var n := |definitions| - 1;
      var rest := definitions[..n];
      AtHandIff(rest, a);
      if definitions[n].name == a.name {
        if AtHand(definitions, a) {
          var k :| 0 <= k < |definitions| && definitions[k] == a && Last(definitions, k);
          assert k == n;
        }
        assert Last(definitions, n);
      } else {
        if AtHand(rest, a) {
          var k :| 0 <= k < |rest| && rest[k] == a && Last(rest, k);
          assert definitions[k] == a && Last(definitions, k);
        }
        if AtHand(definitions, a) {
          var k :| 0 <= k < |definitions| && definitions[k] == a && Last(definitions, k);
          assert rest[k] == a && Last(rest, k);
        }
      }
    }
  }

  lemma NamesAtHand(definitions: seq<Agent>, name: string)
    ensures name in Available(definitions) ==> AtHand(definitions, Available(definitions)[name]) && Available(definitions)[name].name == name
    ensures forall a :: AtHand(definitions, a) && a.name == name ==> name in Available(definitions) && Available(definitions)[name] == a
  {
    hide Available, AtHand;
    forall a ensures AtHand(definitions, a) <==> a.name in Available(definitions) && Available(definitions)[a.name] == a {
      AtHandIff(definitions, a);
    }
  }

  lemma {:induction false} CompatibleIs(definitions: seq<Agent>, role: Role, name: string)
    ensures name in Compatible(definitions, role) <==>
            exists k :: 0 <= k < |definitions| && definitions[k].name == name && MayDelegate(role, definitions[k].role)
  {
    if definitions != [] {
      hide CanDelegateAgent, MayDelegate;
      var n := |definitions| - 1;
      var rest := definitions[..n];
      CompatibleIs(rest, role, name);
      RolesAre(role, definitions[n].role);
      if k :| 0 <= k < |rest| && rest[k].name == name && MayDelegate(role, rest[k].role) {
        assert definitions[k] == rest[k];
      }
      if k :| 0 <= k < |definitions| && definitions[k].name == name && MayDelegate(role, definitions[k].role) {
        assert k < n ==> rest[k] == definitions[k];
      }
    }
  }

  /** An agent with the tool to delegate brings in exactly the names it lists, or, where it lists "*", exactly those of the
      agents at hand in a role it may delegate to; without the tool it brings in nobody. */
  lemma BringsInIff(definitions: seq<Agent>, a: Agent, name: string)
    ensures name in Targets(definitions, a) <==> BringsIn(definitions, a, name)
  {
    hide MayDelegate, Compatible;
    CompatibleIs(definitions, a.role, name);
  }

  lemma LinkIff(definitions: seq<Agent>, from: string, to: string)
    ensures Link(definitions, from, to) <==> from in Available(definitions) && to in Targets(definitions, Available(definitions)[from])
  {
    hide Available, AtHand, BringsIn, Targets;
    NamesAtHand(definitions, from);
    if from in Available(definitions) {
      BringsInIff(definitions, Available(definitions)[from], to);
    }
  }

  lemma ChainIff(definitions: seq<Agent>, path: seq<string>)
    ensures Walk(definitions, path) <==> Chain(definitions, path)
  {
    hide Available, Targets, Link;
    if Walk(definitions, path) {
      forall i | 0 <= i < |path| - 1 ensures Link(definitions, path[i], path[i + 1]) {
        LinkIff(definitions, path[i], path[i + 1]);
      }
    }
    if Chain(definitions, path) {
      forall i | 0 <= i < |path| - 1
        ensures path[i] in Available(definitions) && path[i + 1] in Targets(definitions, Available(definitions)[path[i]])
      {
        assert Link(definitions, path[i], path[i + 1]);
        LinkIff(definitions, path[i], path[i + 1]);
      }
    }
  }

  /** What is collected for an entry are exactly the names it brings in, directly or through others. */
  lemma BroughtIff(definitions: seq<Agent>, entry: string, name: string)
    ensures Reaches(definitions, entry, name) <==> Brought(definitions, entry, name)
  {
    hide Available, Targets, Link;
    if Reaches(definitions, entry, name) {
      var path :| Walk(definitions, path) && path[0] == entry && path[|path| - 1] == name;
      ChainIff(definitions, path);
    }
    if Brought(definitions, entry, name) {
      var path :| Chain(definitions, path) && path[0] == entry && path[|path| - 1] == name;
      ChainIff(definitions, path);
    }
  }

  // ---------------------------------------------------------------- names

  const SMALL_LETTERS: set<char> :=
    {'a', 'b', 'c', 'd', 'e', 'f', 'g', 'h', 'i', 'j', 'k', 'l', 'm',
     'n', 'o', 'p', 'q', 'r', 's', 't', 'u', 'v', 'w', 'x', 'y', 'z'}

  const CAPITAL_LETTERS: set<char> :=
    {'A', 'B', 'C', 'D', 'E', 'F', 'G', 'H', 'I', 'J', 'K', 'L', 'M',
     'N', 'O', 'P', 'Q', 'R', 'S', 'T', 'U', 'V', 'W', 'X', 'Y', 'Z'}

  const DIGITS: set<char> := {'0', '1', '2', '3', '4', '5', '6', '7', '8', '9'}

  predicate LetterOrDigit(c: char) {
    c in SMALL_LETTERS || c in CAPITAL_LETTERS || c in DIGITS
  }

  /** A letter or a digit, then letters, digits, dots, underscores and hyphens. */
  predicate FitsAFile(name: string) {
    && name != "" && LetterOrDigit(name[0])
    && forall k :: 0 < k < |name| ==> LetterOrDigit(name[k]) || name[k] in {'.', '_', '-'}
  }

  lemma LetterOrDigitIff(c: char)
    ensures IsAlphanumeric(c) <==> LetterOrDigit(c)
  {
  }

  lemma FitsIff(name: string)
    ensures ValidName(name) <==> FitsAFile(name)
  {
    hide IsAlphanumeric, LetterOrDigit;
    forall k | 0 <= k < |name| ensures IsAlphanumeric(name[k]) <==> LetterOrDigit(name[k]) {
      LetterOrDigitIff(name[k]);
    }
  }

  // ---------------------------------------------------------------- what is fit to be packaged

  /** The agent is at hand under a name fit for a file, and so is everyone it brings in, in a role it may delegate to. */
  ghost predicate Fit(definitions: seq<Agent>, name: string) {
    && FitsAFile(name)
    && exists a :: AtHand(definitions, a) && a.name == name && BringsOnlyAllowed(definitions, a)
  }

  ghost predicate BringsOnlyAllowed(definitions: seq<Agent>, a: Agent) {
    forall t :: BringsIn(definitions, a, t) ==> exists b :: AtHand(definitions, b) && b.name == t && MayDelegate(a.role, b.role)
  }

  lemma AllowedIff(definitions: seq<Agent>, a: Agent)
    ensures BringsOnlyAllowed(definitions, a) <==>
            forall t :: t in Targets(definitions, a) ==>
              t in Available(definitions) && CanDelegateAgent(a.role, Available(definitions)[t].role)
  {
    hide Available, Targets, BringsIn, AtHand, CanDelegateAgent, MayDelegate;
    forall t
      ensures t in Targets(definitions, a) <==> BringsIn(definitions, a, t)
      ensures (exists b :: AtHand(definitions, b) && b.name == t && MayDelegate(a.role, b.role)) <==>
              t in Available(definitions) && CanDelegateAgent(a.role, Available(definitions)[t].role)
    {
      BringsInIff(definitions, a, t);
      NamesAtHand(definitions, t);
      if t in Available(definitions) {
        RolesAre(a.role, Available(definitions)[t].role);
      }
    }
  }

  lemma FitIff(definitions: seq<Agent>, name: string)
    ensures Good(definitions, name) <==> Fit(definitions, name)
  {
    hide Available, Targets, AtHand, CanDelegateAgent, ValidName, FitsAFile, BringsOnlyAllowed;
    FitsIff(name);
    NamesAtHand(definitions, name);
    if name in Available(definitions) {
      AllowedIff(definitions, Available(definitions)[name]);
    }
  }

  // ---------------------------------------------------------------- profiles

  /** The profile as it is packaged: the definition at hand with its prompt in the package and, where it can delegate, those
      it brings in spelled out, in order and each once. */
  ghost predicate PackagedAs(definitions: seq<Agent>, a: Agent, profile: Agent) {
    && AtHand(definitions, a)
    && profile == a.(promptInPackage := true, delegates := profile.delegates)
    && if "subagent" in a.tools
       then && Ascending(profile.delegates)
            && (forall i, j :: 0 <= i < j < |profile.delegates| ==> profile.delegates[i] != profile.delegates[j])
            && (forall n :: n in profile.delegates <==> BringsIn(definitions, a, n))
       else profile.delegates == a.delegates
  }

  lemma FrozenIs(definitions: seq<Agent>, name: string)
    requires name in Available(definitions)
    ensures PackagedAs(definitions, Available(definitions)[name], Packaged(Frozen(definitions, Available(definitions)[name])))
  {
    hide Available, AtHand, Targets, BringsIn, Ascending, Unique, Sort, Leq;
    NamesAtHand(definitions, name);
    var a := Available(definitions)[name];
    forall n ensures n in Targets(definitions, a) <==> BringsIn(definitions, a, n) {
      BringsInIff(definitions, a, n);
    }
    SortSorts(Targets(definitions, a));
    UniqueOfAscending(Sort(Targets(definitions, a)));
  }

  // ---------------------------------------------------------------- the package

  predicate InOrder(names: seq<string>) {
    Ascending(names) && forall i, j :: 0 <= i < j < |names| ==> names[i] != names[j]
  }

  predicate Requires(agents: seq<Agent>, tool: string) {
    exists k :: 0 <= k < |agents| && tool in agents[k].tools && tool !in agents[k].optionalTools
  }

  predicate Offers(agents: seq<Agent>, tool: string) {
    exists k :: 0 <= k < |agents| && tool in agents[k].tools && tool in agents[k].optionalTools
  }

  predicate Holds(agents: seq<Agent>, name: string) {
    exists k :: 0 <= k < |agents| && agents[k].name == name
  }

  ghost predicate Packs(definitions: seq<Agent>, profile: Agent) {
    exists a :: PackagedAs(definitions, a, profile)
  }

  /** The package holds one profile for the entry and for everyone it brings in, and no other; its manifest names the entry, the
      others, the tools some agent cannot do without, and those that some agent uses and all that do can do without. */
  ghost predicate Whole(definitions: seq<Agent>, entry: string, p: Package) {
    && (forall k :: 0 <= k < |p.agents| ==> Packs(definitions, p.agents[k]))
    && (forall i, j :: 0 <= i < j < |p.agents| ==> p.agents[i].name != p.agents[j].name)
    && (forall n :: Holds(p.agents, n) <==> Brought(definitions, entry, n))
    && p.manifest.entryAgent == entry
    && InOrder(p.manifest.agentDependencies) && InOrder(p.manifest.requiredTools) && InOrder(p.manifest.optionalTools)
    && (forall n :: n in p.manifest.agentDependencies <==> Brought(definitions, entry, n) && n != entry)
    && (forall t :: t in p.manifest.requiredTools <==> Requires(p.agents, t))
    && (forall t :: t in p.manifest.optionalTools <==> Offers(p.agents, t) && !Requires(p.agents, t))
  }

  lemma ProfileFor(agents: seq<Agent>, selected: map<string, Agent>, n: string) returns (k: nat)
    requires Profiles(agents, selected) && n in selected
    ensures k < |agents| && agents[k].tools == selected[n].tools && agents[k].optionalTools == selected[n].optionalTools
  {
    k :| 0 <= k < |agents| && agents[k].name == n;
  }

  lemma ProfileFrom(agents: seq<Agent>, selected: map<string, Agent>, k: nat)
    requires Profiles(agents, selected) && k < |agents|
    ensures agents[k].name in selected
    ensures var a := selected[agents[k].name]; agents[k].tools == a.tools && agents[k].optionalTools == a.optionalTools
  {
  }

  lemma ToolsAre(agents: seq<Agent>, selected: map<string, Agent>, t: string)
    requires Profiles(agents, selected)
    ensures t in RequiredSet(selected) <==> Requires(agents, t)
    ensures t in OptionalSet(selected) <==> Offers(agents, t)
  {
    hide Profiles;
    if t in RequiredSet(selected) {
      var n :| n in selected && t in selected[n].tools && t !in selected[n].optionalTools;
      var k := ProfileFor(agents, selected, n);
    }
    if t in OptionalSet(selected) {
      var n :| n in selected && t in selected[n].tools && t in selected[n].optionalTools;
      var k := ProfileFor(agents, selected, n);
    }
    if k :| 0 <= k < |agents| && t in agents[k].tools && t !in agents[k].optionalTools {
      ProfileFrom(agents, selected, k);
    }
    if k :| 0 <= k < |agents| && t in agents[k].tools && t in agents[k].optionalTools {
      ProfileFrom(agents, selected, k);
    }
  }

  lemma ProfilesPack(definitions: seq<Agent>, selected: map<string, Agent>, agents: seq<Agent>, k: nat)
    requires Closed(definitions, selected) && Profiles(agents, selected) && k < |agents|
    ensures Packs(definitions, agents[k])
  {
    hide Available, Targets, Frozen, PackagedAs;
    var n := agents[k].name;
    assert n in selected && agents[k] == Packaged(selected[n]);
    assert Good(definitions, n);
    FrozenIs(definitions, n);
  }

  /** What the builder writes for an entry is its whole package. */
  lemma BuiltIsWhole(definitions: seq<Agent>, entry: string, selected: map<string, Agent>, p: Package)
    requires Closed(definitions, selected) && Built(entry, selected, p)
    requires forall n :: n in selected <==> Reaches(definitions, entry, n)
    ensures Whole(definitions, entry, p)
  {
    hide Closed, Reaches, Brought, RequiredSet, OptionalSet, Requires, Offers, Packs, Ascending;
    forall k | 0 <= k < |p.agents| ensures Packs(definitions, p.agents[k]) {
      ProfilesPack(definitions, selected, p.agents, k);
    }
    forall n ensures n in selected <==> Brought(definitions, entry, n) {
      BroughtIff(definitions, entry, n);
    }
    forall t
      ensures t in RequiredSet(selected) <==> Requires(p.agents, t)
      ensures t in OptionalSet(selected) <==> Offers(p.agents, t)
    {
      ToolsAre(p.agents, selected, t);
    }
  }
}
