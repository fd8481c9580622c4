/**
 The driver policy validator: the checks of validate_policy on parsed entries and settings,
 among them the depth-first search for dependency cycles.
 */
module DriverPolicy {
  import opened Basics
  import opened DriverGraph

  datatype Artifact = Linked | Packaged
  datatype Stage = Boot | Kernel | Runtime
  datatype LoadPolicy = Automatic | Manual

  /** One policy entry and, when its settings file could be read, the dependencies it lists. */
  datatype Driver = Driver(
    name: string, enabled: bool, artifact: Artifact, stage: Stage, policy: LoadPolicy,
    dependencies: Option<seq<string>>)

  datatype Error =
    | NoDrivers
    | DuplicateName(name: string)
    | ForbiddenCombination(name: string)
    | MissingSettings(name: string)
    | UnknownDependency(name: string, dependency: string)
    | DisabledDependency(name: string, dependency: string)
    | LaterStage(name: string, dependency: string)
    | ManualDependency(name: string, dependency: string)
    | DependencyCycle(chain: seq<string>)

  function Rank(s: Stage): nat {
    match s case Boot => 0 case Kernel => 1 case Runtime => 2
  }

  const ALLOWED_COMBINATIONS: set<(Artifact, Stage, LoadPolicy)> := {
    (Linked, Boot, Automatic), (Linked, Kernel, Automatic), (Linked, Runtime, Automatic),
    (Packaged, Boot, Automatic), (Packaged, Kernel, Automatic), (Packaged, Runtime, Automatic),
    (Packaged, Runtime, Manual)}

  /** Only a packaged runtime driver may be loaded by hand. */
  predicate Allowed(d: Driver) {
    d.policy.Manual? ==> d.artifact.Packaged? && d.stage.Runtime?
  }

  lemma AllowedIff(d: Driver)
    ensures (d.artifact, d.stage, d.policy) in ALLOWED_COMBINATIONS <==> Allowed(d)
  {
    assert d.artifact == Linked || d.artifact == Packaged;
    assert d.stage == Boot || d.stage == Kernel || d.stage == Runtime;
    assert d.policy == Automatic || d.policy == Manual;
  }

  // ----- The cycle search -----

  function Elements(s: seq<string>): set<string> { set x | x in s }

  /** The nested function visit of validate_policy with the sets it closes over. `order`
      records when each driver was finished. */
  class CycleSearch {
    const graph: Graph
    var visiting: set<string>
    var visited: set<string>
    var cycles: seq<seq<string>>
    ghost var order: seq<string>

    constructor (g: Graph)
      ensures graph == g && Valid([]) && visited == {} && cycles == []
    {
      graph := g;
      visiting, visited, cycles, order := {}, {}, [], [];
    }

    /** The visiting set is the chain of ancestors, what was reported are cycles, and as long
        as nothing was reported the finished drivers were finished after their dependencies. */
    ghost predicate Valid(chain: seq<string>)
      reads this
    {
      && Distinct(chain) && visiting == Elements(chain)
      && (chain != [] ==> Walk(graph, chain))
      && visited <= graph.Keys && visited !! visiting
      && (forall c | c in cycles :: Cycle(graph, c))
      && visited == Elements(order)
      && (cycles == [] ==> Ordered(graph, order))
    }

    method Visit(name: string, chain: seq<string>)
      requires Valid(chain) && Walk(graph, chain + [name])
      modifies this
      ensures Valid(chain)
      ensures old(visited) <= visited && old(cycles) <= cycles
      ensures name in visited || (name in visiting && cycles != [])
      decreases graph.Keys - visiting
    {
      if name in visiting {
        var start := IndexOf(chain, name);
        MeetingTwiceIsCycle(graph, chain + [name], start, |chain|);
        assert (chain + [name])[start..|chain| + 1] == chain[start..] + [name];
        cycles := cycles + [chain[start..] + [name]];
        return;
      }
      if name in visited {
        return;
      }
      visiting := visiting + {name};
      ghost var inner := chain + [name];
      var i := 0;
      while i < |graph[name]|
        invariant i <= |graph[name]|
        invariant Valid(inner)
        invariant old(visited) <= visited && old(cycles) <= cycles
        invariant cycles == [] ==> forall d | d in graph[name][..i] && d in graph :: d in visited
      {
        var dependency := graph[name][i];
        if dependency in graph {
          assert Walk(graph, inner + [dependency]) by { WalkAppends(graph, inner, dependency); }
          Visit(dependency, chain + [name]);
        }
        i := i + 1;
      }
      assert graph[name][..|graph[name]|] == graph[name];
      if cycles == [] {
        OrderedAppends(graph, order, name);
      }
      visiting := visiting - {name};
      visited := visited + {name};
      order := order + [name];
    }
  }

  lemma WalkAppends(g: Graph, p: seq<string>, x: string)
    requires Walk(g, p) && Edge(g, p[|p| - 1], x)
    ensures Walk(g, p + [x])
  {
    var q := p + [x];
    forall i | 0 <= i < |q| - 1 ensures Edge(g, q[i], q[i + 1]) {
      if i < |p| - 1 { assert Edge(g, p[i], p[i + 1]); }
    }
  }

  lemma OrderedAppends(g: Graph, order: seq<string>, x: string)
    requires Ordered(g, order) && x in g
    requires forall d | d in g[x] && d in g :: d in Elements(order)
    ensures Ordered(g, order + [x])
  {
    var longer := order + [x];
    forall i | 0 <= i < |longer| ensures forall d | d in g[longer[i]] && d in g :: d in longer[..i] {
      assert longer[..i] == order[..i];
      assert i == |order| ==> order[..i] == order;
    }
  }

  method IndexOf(s: seq<string>, x: string) returns (i: nat)
    requires x in s
    ensures i < |s| && s[i] == x && x !in s[..i]
  {
    i := 0;
    while s[i] != x
      invariant i < |s| && x !in s[..i]
      decreases |s| - i
    {
      i := i + 1;
    }
  }

  /** Every chain reported is a cycle, and a chain is reported if and only if there is one. */
  method FindCycles(g: Graph, names: seq<string>) returns (cycles: seq<seq<string>>)
    requires Elements(names) == g.Keys
    ensures forall c | c in cycles :: Cycle(g, c)
    ensures cycles == [] <==> !HasCycle(g)
  {
    var search := new CycleSearch(g);
    var i := 0;
    while i < |names|
      invariant i <= |names|
      invariant search.graph == g && search.Valid([])
      invariant search.cycles == [] ==> forall x | x in names[..i] :: x in search.visited
    {
      assert names[i] in Elements(names);
      search.Visit(names[i], []);
      i := i + 1;
    }
    cycles := search.cycles;
    if cycles == [] {
      assert names[..|names|] == names;
      forall x | x in g ensures x in search.order {
        assert x in Elements(names);
      }
      OrderedHasNoCycle(g, search.order);
    } else {
      assert Cycle(g, cycles[0]);
    }
  }

  // ----- What the validator accepts -----

  predicate UniqueNames(ds: seq<Driver>) {
    forall i, j | 0 <= i < j < |ds| :: ds[i].name != ds[j].name
  }

  /** What driver d may depend on. */
  predicate MayDependOn(d: Driver, e: Driver) {
    && (d.enabled ==> e.enabled)
    && Rank(e.stage) <= Rank(d.stage)
    && (d.policy.Automatic? ==> e.policy.Automatic?)
  }

  predicate EntryOk(d: Driver) { Allowed(d) && d.dependencies.Some? }

  predicate EntriesOk(ds: seq<Driver>) { forall d | d in ds :: EntryOk(d) }

  /** policies: the first entry of each name. */
  function Policies(ds: seq<Driver>): map<string, Driver> {
    if ds == [] then map[] else
      var p, d := Policies(ds[..|ds| - 1]), ds[|ds| - 1];
      if d.name in p then p else p[d.name := d]
  }

  /** settings_by_name: the dependencies in the last settings read for each name. */
  function GraphOf(ds: seq<Driver>): Graph {
    if ds == [] then map[] else
      var g, d := GraphOf(ds[..|ds| - 1]), ds[|ds| - 1];
      if d.dependencies.Some? then g[d.name := d.dependencies.value] else g
  }

  predicate DependenciesOk(ds: seq<Driver>) {
    forall d, x | d in ds && d.dependencies.Some? && x in d.dependencies.value ::
      exists e | e in ds :: e.name == x && MayDependOn(d, e)
  }

  /** The policy of docs/reference/driver_policy.md: known, enabled, no later and not manual
      dependencies, allowed combinations, and no cycle. */
  ghost predicate Accepted(ds: seq<Driver>) {
    && ds != [] && UniqueNames(ds)
    && EntriesOk(ds)
    && DependenciesOk(ds)
    && !HasCycle(GraphOf(ds))
  }

  lemma {:induction false} PoliciesLookUp(ds: seq<Driver>)
    ensures forall d | d in ds :: d.name in Policies(ds)
    ensures forall n | n in Policies(ds) :: Policies(ds)[n] in ds && Policies(ds)[n].name == n
    ensures UniqueNames(ds) ==> forall d | d in ds :: Policies(ds)[d.name] == d
  {
    if ds != [] {
      var front, d := ds[..|ds| - 1], ds[|ds| - 1];
      PoliciesLookUp(front);
      assert ds == front + [d];
    }
  }

  lemma {:induction false} GraphLookUp(ds: seq<Driver>)
    ensures forall n | n in GraphOf(ds) ::
              exists d | d in ds :: d.name == n && d.dependencies == Some(GraphOf(ds)[n])
    ensures forall d | d in ds && d.dependencies.Some? :: d.name in GraphOf(ds)
    ensures UniqueNames(ds) ==>
              forall d | d in ds && d.dependencies.Some? :: GraphOf(ds)[d.name] == d.dependencies.value
  {
    if ds != [] {
      var front, d := ds[..|ds| - 1], ds[|ds| - 1];
      GraphLookUp(front);
      assert ds == front + [d];
      if UniqueNames(ds) {
        forall e | e in front ensures e.name != d.name {
          var i :| 0 <= i < |front| && front[i] == e;
        }
      }
    }
  }

  lemma EntriesExtend(front: seq<Driver>, d: Driver)
    ensures UniqueNames(front + [d]) && EntriesOk(front + [d]) <==>
            UniqueNames(front) && EntriesOk(front) && d.name !in Policies(front) && EntryOk(d)
  {
    PoliciesLookUp(front);
    var ds := front + [d];
    assert forall i | 0 <= i < |front| :: ds[i] == front[i];
    if d.name in Policies(front) {
      var i :| 0 <= i < |front| && front[i] == Policies(front)[d.name];
      assert ds[i].name == ds[|front|].name;
    }
  }

  // ----- The validator -----

  method CheckEntry(d: Driver, known: bool) returns (errors: seq<Error>)
    ensures errors == [] <==> !known && EntryOk(d)
  {
    errors := [];
    AllowedIff(d);
    if known {
      errors := errors + [DuplicateName(d.name)];
    }
    if (d.artifact, d.stage, d.policy) !in ALLOWED_COMBINATIONS {
      errors := errors + [ForbiddenCombination(d.name)];
    }
    if d.dependencies.None? {
      errors := errors + [MissingSettings(d.name)];
    }
  }

  /** One more entry in both tables. */
  method AddEntry(ghost front: seq<Driver>, d: Driver, policies: map<string, Driver>, settings: Graph,
                  names: seq<string>)
    returns (policies': map<string, Driver>, settings': Graph, names': seq<string>)
    requires policies == Policies(front) && settings == GraphOf(front) && Elements(names) == settings.Keys
    ensures policies' == Policies(front + [d]) && settings' == GraphOf(front + [d])
    ensures Elements(names') == settings'.Keys
  {
    policies', settings', names' := policies, settings, names;
    assert (front + [d])[..|front|] == front;
    if d.name !in policies {
      policies' := policies[d.name := d];
    }
    if d.dependencies.Some? {
      if d.name !in settings {
        names' := names + [d.name];
      }
      settings' := settings[d.name := d.dependencies.value];
    }
  }

  method CheckEntries(ds: seq<Driver>)
    returns (policies: map<string, Driver>, settings: Graph, names: seq<string>, errors: seq<Error>)
    ensures policies == Policies(ds) && settings == GraphOf(ds) && Elements(names) == settings.Keys
    ensures errors == [] <==> UniqueNames(ds) && EntriesOk(ds)
  {
    policies, settings, names, errors := map[], map[], [], [];
    var i := 0;
    while i < |ds|
      invariant i <= |ds|
      invariant policies == Policies(ds[..i]) && settings == GraphOf(ds[..i])
      invariant Elements(names) == settings.Keys
      invariant errors == [] <==> UniqueNames(ds[..i]) && EntriesOk(ds[..i])
    {
      assert ds[..i + 1] == ds[..i] + [ds[i]];
      EntriesExtend(ds[..i], ds[i]);
      var more := CheckEntry(ds[i], ds[i].name in policies);
      errors := errors + more;
      policies, settings, names := AddEntry(ds[..i], ds[i], policies, settings, names);
      i := i + 1;
    }
    assert ds[..i] == ds;
  }

  predicate KnownAndAllowed(policies: map<string, Driver>, d: Driver, x: string) {
    x in policies && MayDependOn(d, policies[x])
  }

  method CheckDependency(policies: map<string, Driver>, d: Driver, x: string) returns (errors: seq<Error>)
    ensures errors == [] <==> KnownAndAllowed(policies, d, x)
  {
    if x !in policies {
      return [UnknownDependency(d.name, x)];
    }
    errors := [];
    var e := policies[x];
    if d.enabled && !e.enabled {
      errors := errors + [DisabledDependency(d.name, x)];
    }
    if Rank(e.stage) > Rank(d.stage) {
      errors := errors + [LaterStage(d.name, x)];
    }
    if d.policy.Automatic? && e.policy.Manual? {
      errors := errors + [ManualDependency(d.name, x)];
    }
  }

  method CheckDependencies(policies: map<string, Driver>, settings: Graph, names: seq<string>)
    returns (errors: seq<Error>)
    requires Elements(names) == settings.Keys && settings.Keys <= policies.Keys
    ensures errors == [] <==>
            forall n, x | n in settings && x in settings[n] :: KnownAndAllowed(policies, policies[n], x)
  {
    errors := [];
    var i := 0;
    while i < |names|
      invariant i <= |names|
      invariant errors == [] <==>
                forall n, x | n in names[..i] && n in settings && x in settings[n] ::
                  KnownAndAllowed(policies, policies[n], x)
    {
      var n := names[i];
      assert n in Elements(names);
      assert names[..i + 1] == names[..i] + [n];
      var j := 0;
      while j < |settings[n]|
        invariant j <= |settings[n]|
        invariant errors == [] <==>
                  && (forall m, x | m in names[..i] && m in settings && x in settings[m] ::
                        KnownAndAllowed(policies, policies[m], x))
                  && (forall x | x in settings[n][..j] :: KnownAndAllowed(policies, policies[n], x))
      {
        assert settings[n][..j + 1] == settings[n][..j] + [settings[n][j]];
        var more := CheckDependency(policies, policies[n], settings[n][j]);
        errors := errors + more;
        j := j + 1;
      }
      assert settings[n][..j] == settings[n];
      i := i + 1;
    }
    assert names[..i] == names;
    assert forall n | n in settings :: n in Elements(names);
  }

  /** The validator reports nothing if and only if the policy is acceptable. */
  method ValidatePolicy(ds: seq<Driver>) returns (errors: seq<Error>)
    ensures errors == [] <==> Accepted(ds)
  {
    if ds == [] {
      return [NoDrivers];
    }
    var policies, settings, names, first := CheckEntries(ds);
    PoliciesLookUp(ds);
    GraphLookUp(ds);
    var second := CheckDependencies(policies, settings, names);
    var cycles := FindCycles(settings, names);
    errors := first + second + seq(|cycles|, i requires 0 <= i < |cycles| => DependencyCycle(cycles[i]));
    if first == [] {
      DependencyChecksAgree(ds);
    }
  }

  /** On entries that are each in order, checking by name is checking by driver. */
  lemma DependencyChecksAgree(ds: seq<Driver>)
    requires UniqueNames(ds) && EntriesOk(ds)
    ensures GraphOf(ds).Keys <= Policies(ds).Keys
    ensures DependenciesOk(ds) <==>
            forall n, x | n in GraphOf(ds) && x in GraphOf(ds)[n] ::
              KnownAndAllowed(Policies(ds), Policies(ds)[n], x)
  {
    PoliciesLookUp(ds);
    GraphLookUp(ds);
    if DependenciesOk(ds) {
      forall n, x | n in GraphOf(ds) && x in GraphOf(ds)[n]
        ensures KnownAndAllowed(Policies(ds), Policies(ds)[n], x)
      {
        var d :| d in ds && d.name == n && d.dependencies == Some(GraphOf(ds)[n]);
        var e :| e in ds && e.name == x && MayDependOn(d, e);
      }
    }
  }
}
