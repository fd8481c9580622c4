/**
 Activation order: the topological sort of gen_driver_build.py and the lists it generates.
 */
module DriverOrder {
  import opened Basics
  import opened DriverGraph
  import opened DriverPolicy

  function Names(ds: seq<Driver>): set<string> { set d | d in ds :: d.name }

  function Deps(d: Driver): seq<string> {
    if d.dependencies.Some? then d.dependencies.value else []
  }

  /** Every driver comes after those of its dependencies that are in `known`. */
  predicate DepsFirst(known: set<string>, ds: seq<Driver>) {
    forall i, x | 0 <= i < |ds| && ds[i].dependencies.Some? && x in ds[i].dependencies.value && x in known ::
      x in Names(ds[..i])
  }

  /** Every dependency inside the map has a lower rank. */
  ghost predicate Descends(byName: map<string, Driver>, rank: map<string, nat>) {
    && rank.Keys == byName.Keys
    && (forall n, x | n in byName && x in Deps(byName[n]) && x in byName :: rank[x] < rank[n])
  }

  lemma DepsFirstAppends(known: set<string>, ds: seq<Driver>, d: Driver)
    requires DepsFirst(known, ds) && forall x | x in Deps(d) && x in known :: x in Names(ds)
    ensures DepsFirst(known, ds + [d])
  {
    var longer := ds + [d];
    forall i, x | 0 <= i < |longer| && x in Deps(longer[i]) && x in known ensures x in Names(longer[..i]) {
      assert longer[..i] == ds[..i];
      assert i == |ds| ==> ds[..i] == ds;
    }
  }

  lemma UniqueAppends(ds: seq<Driver>, d: Driver)
    requires UniqueNames(ds) && d.name !in Names(ds)
    ensures UniqueNames(ds + [d])
  {
    assert forall i | 0 <= i < |ds| :: ds[i] in ds;
  }

  /** The nested function visit of dependency_order with what it closes over. A driver is
      marked only after its dependencies were visited, so it is the descending rank that
      makes the recursion end and keeps a driver from being listed twice. */
  class Sorter {
    const byName: map<string, Driver>
    ghost const rank: map<string, nat>
    var result: seq<Driver>
    var visited: set<string>

    constructor (byName: map<string, Driver>, ghost rank: map<string, nat>)
      requires Descends(byName, rank) && forall n | n in byName :: byName[n].name == n
      ensures this.byName == byName && this.rank == rank && result == [] && Valid()
    {
      this.byName, this.rank := byName, rank;
      result, visited := [], {};
    }

    ghost predicate Valid()
      reads this
    {
      && Descends(byName, rank) && (forall n | n in byName :: byName[n].name == n)
      && visited == Names(result) && UniqueNames(result)
      && (forall d | d in result :: d.name in byName && byName[d.name] == d)
      && DepsFirst(byName.Keys, result)
    }

    method Visit(name: string)
      requires Valid() && name in byName
      modifies this
      ensures Valid() && name in visited && old(visited) <= visited && old(result) <= result
      ensures AllBelow(rank, result[|old(result)|..], rank[name] + 1)
      decreases rank[name], 1
    {
      if name in visited {
        return;
      }
      VisitDependencies(name);
      ghost var mid := result;
      NotInTail(old(result), mid, rank, name);
      Append(name);
      BelowLater(rank, old(result), mid, result, rank[name], name);
    }

    method VisitKnown(name: string, dependency: string)
      requires Valid() && name in byName && dependency in Deps(byName[name])
      modifies this
      ensures Valid() && old(visited) <= visited && old(result) <= result
      ensures AllBelow(rank, result[|old(result)|..], rank[name])
      ensures dependency in byName ==> dependency in visited
      decreases rank[name], 0, 0
    {
      if dependency in byName {
        Visit(dependency);
      }
    }

    /** The dependencies of a driver that are among those to be sorted. */
    method VisitDependencies(name: string)
      requires Valid() && name in byName
      modifies this
      ensures Valid() && old(visited) <= visited && old(result) <= result
      ensures AllBelow(rank, result[|old(result)|..], rank[name])
      ensures Covered(Deps(byName[name]), byName.Keys, visited)
      decreases rank[name], 0, 1
    {
      var deps := Deps(byName[name]);
      var i := 0;
      while i < |deps|
        invariant i <= |deps| && Valid() && old(visited) <= visited && old(result) <= result
        invariant AllBelow(rank, result[|old(result)|..], rank[name])
        invariant Covered(deps[..i], byName.Keys, visited)
      {
        ghost var mid, seen := result, visited;
        VisitKnown(name, deps[i]);
        BelowJoined(rank, old(result), mid, result, rank[name], rank[name]);
        CoveredNext(deps, i, byName.Keys, seen, visited);
        i := i + 1;
      }
      assert deps[..i] == deps;
    }

    method VisitAll(items: seq<Driver>)
      requires Valid() && forall d | d in items :: d.name in byName
      modifies this
      ensures Valid() && forall d | d in items :: d.name in visited
    {
      var i := 0;
      while i < |items|
        invariant i <= |items| && Valid() && forall d | d in items[..i] :: d.name in visited
      {
        Visit(items[i].name);
        i := i + 1;
      }
      assert items[..i] == items;
    }

    method Append(name: string)
      requires Valid() && name in byName && name !in visited
      requires Covered(Deps(byName[name]), byName.Keys, visited)
      modifies this
      ensures Valid() && visited == old(visited) + {name} && result == old(result) + [byName[name]]
    {
      DepsFirstAppends(byName.Keys, result, byName[name]);
      UniqueAppends(result, byName[name]);
      visited := visited + {name};
      result := result + [byName[name]];
    }
  }

  ghost predicate Covered(xs: seq<string>, known: set<string>, done: set<string>) {
    forall x | x in xs && x in known :: x in done
  }

  lemma CoveredNext(xs: seq<string>, i: nat, known: set<string>, done: set<string>, more: set<string>)
    requires i < |xs| && Covered(xs[..i], known, done) && done <= more && (xs[i] in known ==> xs[i] in more)
    ensures Covered(xs[..i + 1], known, more)
  {
    assert xs[..i + 1] == xs[..i] + [xs[i]];
  }

  /** These drivers have ranks below the bound. */
  ghost predicate AllBelow(rank: map<string, nat>, ds: seq<Driver>, bound: nat) {
    forall d | d in ds :: d.name in rank && rank[d.name] < bound
  }

  lemma BelowJoined(rank: map<string, nat>, a: seq<Driver>, b: seq<Driver>, c: seq<Driver>, low: nat, bound: nat)
    requires a <= b <= c && low <= bound && AllBelow(rank, b[|a|..], bound) && AllBelow(rank, c[|b|..], low)
    ensures AllBelow(rank, c[|a|..], bound)
  {
    assert c[|a|..] == b[|a|..] + c[|b|..];
  }

  lemma BelowLater(rank: map<string, nat>, a: seq<Driver>, b: seq<Driver>, c: seq<Driver>, bound: nat, name: string)
    requires a <= b && |c| == |b| + 1 && b == c[..|b|] && c[|b|].name == name
    requires name in rank && rank[name] == bound && AllBelow(rank, b[|a|..], bound)
    ensures AllBelow(rank, c[|a|..], bound + 1)
  {
    assert c[|a|..] == b[|a|..] + [c[|b|]];
  }

  lemma NotInTail(a: seq<Driver>, b: seq<Driver>, rank: map<string, nat>, name: string)
    requires a <= b && name !in Names(a) && name in rank && AllBelow(rank, b[|a|..], rank[name])
    ensures name !in Names(b)
  {
    assert b == a + b[|a|..];
  }

  // ----- dependency_order -----

  lemma {:induction false} UniqueCounts(ds: seq<Driver>, d: Driver)
    requires UniqueNames(ds)
    ensures multiset(ds)[d] == (if d in ds then 1 else 0)
  {
    if ds != [] {
      var front, last := ds[..|ds| - 1], ds[|ds| - 1];
      assert ds == front + [last];
      UniqueCounts(front, d);
    }
  }

  /** Two lists without repeated names that hold the same drivers are permutations. */
  lemma SameDrivers(a: seq<Driver>, b: seq<Driver>)
    requires UniqueNames(a) && UniqueNames(b)
    requires (forall d | d in a :: d in b) && (forall d | d in b :: d in a)
    ensures multiset(a) == multiset(b)
  {
    forall d ensures multiset(a)[d] == multiset(b)[d] {
      UniqueCounts(a, d);
      UniqueCounts(b, d);
    }
  }

  /** byName finds every driver of the list under its name and nothing else. */
  ghost predicate Indexes(byName: map<string, Driver>, items: seq<Driver>) {
    && byName.Keys == Names(items)
    && (forall d | d in items :: byName[d.name] == d)
    && (forall n | n in byName :: byName[n] in items && byName[n].name == n)
  }

  lemma IndexGrows(byName: map<string, Driver>, items: seq<Driver>, d: Driver)
    requires Indexes(byName, items) && d.name !in Names(items)
    ensures Indexes(byName[d.name := d], items + [d])
  {
    forall e | e in items ensures e.name != d.name {
      assert e.name in Names(items);
    }
  }

  lemma NextIsNew(items: seq<Driver>, i: nat)
    requires UniqueNames(items) && i < |items|
    ensures items[i].name !in Names(items[..i])
  {
    forall d | d in items[..i] ensures d.name != items[i].name {
      var j :| 0 <= j < i && items[j] == d;
    }
  }

  method ByName(items: seq<Driver>) returns (byName: map<string, Driver>)
    requires UniqueNames(items)
    ensures Indexes(byName, items)
  {
    byName := map[];
    var i := 0;
    while i < |items|
      invariant i <= |items| && Indexes(byName, items[..i])
    {
      NextIsNew(items, i);
      IndexGrows(byName, items[..i], items[i]);
      assert items[..i + 1] == items[..i] + [items[i]];
      byName := byName[items[i].name := items[i]];
      i := i + 1;
    }
    assert items[..i] == items;
  }

  lemma RankItems(items: seq<Driver>, byName: map<string, Driver>) returns (rank: map<string, nat>)
    requires UniqueNames(items) && EntriesOk(items) && !HasCycle(GraphOf(items))
    requires Indexes(byName, items)
    ensures Descends(byName, rank)
  {
    rank := AcyclicIsRanked(GraphOf(items));
    GraphLookUp(items);
    forall n, x | n in byName && x in Deps(byName[n]) && x in byName ensures rank[x] < rank[n] {
      assert Edge(GraphOf(items), n, x);
    }
  }

  lemma Permutes(items: seq<Driver>, byName: map<string, Driver>, result: seq<Driver>)
    requires UniqueNames(items) && UniqueNames(result)
    requires forall d | d in items :: d.name in byName && byName[d.name] == d
    requires forall n | n in byName :: byName[n] in items
    requires forall d | d in result :: d.name in byName && byName[d.name] == d
    requires forall d | d in items :: d.name in Names(result)
    ensures multiset(result) == multiset(items)
  {
    forall d | d in items ensures d in result {
      var e :| e in result && e.name == d.name;
    }
    SameDrivers(result, items);
  }

  /** On an acyclic graph the sort ends, and its result is a permutation of its input with
      every driver after its dependencies in the input. */
  method DependencyOrder(items: seq<Driver>) returns (result: seq<Driver>)
    requires UniqueNames(items) && EntriesOk(items) && !HasCycle(GraphOf(items))
    ensures multiset(result) == multiset(items)
    ensures UniqueNames(result) && DepsFirst(Names(items), result)
  {
    var byName := ByName(items);
    ghost var rank := RankItems(items, byName);
    var sorter := new Sorter(byName, rank);
    sorter.VisitAll(items);
    Permutes(items, byName, sorter.result);
    result := sorter.result;
  }

  // ----- Filters keep the order -----

  /** The drivers of one kind, in the order of the list. */
  function Select(ds: seq<Driver>, keep: Driver -> bool): (r: seq<Driver>)
    ensures forall d :: d in r <==> d in ds && keep(d)
  {
    if ds == [] then []
    else
      var r := Select(ds[..|ds| - 1], keep);
      var last := ds[|ds| - 1];
      assert ds == ds[..|ds| - 1] + [last];
      if keep(last) then r + [last] else r
  }

  /** a stands somewhere before b. */
  predicate Before(ds: seq<Driver>, a: Driver, b: Driver) {
    exists i, j :: 0 <= i < j < |ds| && ds[i] == a && ds[j] == b
  }

  lemma {:induction false} SelectKeepsOrder(ds: seq<Driver>, keep: Driver -> bool, a: Driver, b: Driver)
    requires Before(ds, a, b) && keep(a) && keep(b)
    ensures Before(Select(ds, keep), a, b)
  {
    var front, last := ds[..|ds| - 1], ds[|ds| - 1];
    var i, j :| 0 <= i < j < |ds| && ds[i] == a && ds[j] == b;
    if j < |front| {
      assert front[i] == a && front[j] == b;
      SelectKeepsOrder(front, keep, a, b);
      var r := Select(front, keep);
      var x, y :| 0 <= x < y < |r| && r[x] == a && r[y] == b;
      assert Select(ds, keep)[x] == a && Select(ds, keep)[y] == b;
    } else {
      assert a in front by { assert front[i] == a; }
      var r := Select(front, keep);
      assert a in r;
      var x :| 0 <= x < |r| && r[x] == a;
      assert Select(ds, keep) == r + [b];
      assert (r + [b])[x] == a && (r + [b])[|r|] == b;
    }
  }

  lemma {:induction false} SelectUnique(ds: seq<Driver>, keep: Driver -> bool)
    requires UniqueNames(ds)
    ensures UniqueNames(Select(ds, keep))
  {
    if ds != [] {
      var front, last := ds[..|ds| - 1], ds[|ds| - 1];
      SelectUnique(front, keep);
      var r := Select(front, keep);
      assert last.name !in Names(r) by {
        forall d | d in r ensures d.name != last.name {
          var i :| 0 <= i < |front| && front[i] == d;
          assert ds[i].name != ds[|ds| - 1].name;
        }
      }
      UniqueAppends(r, last);
    }
  }

  // ----- The generated lists -----

  predicate IsEnabled(d: Driver) { d.enabled }

  predicate IsEnabledPackage(d: Driver) { d.enabled && d.artifact.Packaged? }

  function PackageAt(s: Stage): Driver -> bool { (d: Driver) => d.artifact.Packaged? && d.stage == s }

  function AutomaticAt(s: Stage): Driver -> bool { (d: Driver) => d.stage == s && d.policy.Automatic? }

  function NamedIn(names: set<string>): Driver -> bool { (d: Driver) => d.name in names }

  /** A driver the kernel loads without being asked. */
  predicate LoadsItself(d: Driver) { IsEnabledPackage(d) && d.policy.Automatic? }

  lemma SelectedHasNoCycle(ds: seq<Driver>, keep: Driver -> bool)
    requires UniqueNames(ds) && EntriesOk(ds) && !HasCycle(GraphOf(ds))
    ensures !HasCycle(GraphOf(Select(ds, keep)))
  {
    var part := Select(ds, keep);
    SelectUnique(ds, keep);
    GraphLookUp(ds);
    GraphLookUp(part);
    forall p | Cycle(GraphOf(part), p) ensures Cycle(GraphOf(ds), p) {
      forall i | 0 <= i < |p| - 1 ensures Edge(GraphOf(ds), p[i], p[i + 1]) {
        assert Edge(GraphOf(part), p[i], p[i + 1]);
        var d :| d in part && d.name == p[i] && d.dependencies == Some(GraphOf(part)[p[i]]);
        assert d in ds;
      }
    }
  }

  /** The chosen drivers in dependency order. */
  method OrderSelected(ds: seq<Driver>, keep: Driver -> bool) returns (r: seq<Driver>)
    requires Accepted(ds)
    ensures multiset(r) == multiset(Select(ds, keep))
    ensures UniqueNames(r) && DepsFirst(Names(Select(ds, keep)), r)
  {
    SelectedHasNoCycle(ds, keep);
    SelectUnique(ds, keep);
    r := DependencyOrder(Select(ds, keep));
  }

  lemma SameMembers(a: seq<Driver>, b: seq<Driver>)
    requires multiset(a) == multiset(b)
    ensures forall d :: d in a <==> d in b
  {
    forall d ensures d in a <==> d in b {
      assert d in a <==> d in multiset(a);
      assert d in b <==> d in multiset(b);
    }
  }

  /** Of two sorted drivers the dependency comes first, also in a selection. */
  lemma DependencyComesFirst(all: seq<Driver>, r: seq<Driver>, keep: Driver -> bool, d: Driver, e: Driver)
    requires multiset(r) == multiset(all) && UniqueNames(r) && DepsFirst(Names(all), r)
    requires d in all && e in all && e.name in Deps(d) && keep(d) && keep(e)
    ensures Before(Select(r, keep), e, d)
  {
    SameMembers(all, r);
    var j :| 0 <= j < |r| && r[j] == d;
    assert e.name in Names(all) && e.name in Names(r[..j]);
    var i :| 0 <= i < j && r[i].name == e.name;
    var k :| 0 <= k < |r| && r[k] == e;
    assert r[i] == e;
    SelectKeepsOrder(r, keep, e, d);
  }

  /** The package lists of the make fragment, one for each stage. */
  method EmitMake(ds: seq<Driver>)
    returns (r: seq<Driver>, boot: seq<Driver>, kernel: seq<Driver>, runtime: seq<Driver>)
    requires Accepted(ds)
    ensures multiset(r) == multiset(Select(ds, IsEnabled))
    ensures UniqueNames(r) && DepsFirst(Names(Select(ds, IsEnabled)), r)
    ensures boot == Select(r, PackageAt(Boot))
    ensures kernel == Select(r, PackageAt(Kernel))
    ensures runtime == Select(r, PackageAt(Runtime))
    ensures forall d :: d in boot <==> d in ds && d.enabled && d.artifact.Packaged? && d.stage == Boot
    ensures forall d :: d in kernel <==> d in ds && d.enabled && d.artifact.Packaged? && d.stage == Kernel
    ensures forall d :: d in runtime <==> d in ds && d.enabled && d.artifact.Packaged? && d.stage == Runtime
  {
    r := OrderSelected(ds, IsEnabled);
    assert forall d :: d in r <==> d in multiset(r);
    assert forall d :: d in Select(ds, IsEnabled) <==> d in multiset(Select(ds, IsEnabled));
    boot := Select(r, PackageAt(Boot));
    kernel := Select(r, PackageAt(Kernel));
    runtime := Select(r, PackageAt(Runtime));
  }

  /** The lists compiled into the kernel: the names to accept at boot and the paths to load
      at the two later stages. */
  method EmitActivation(ds: seq<Driver>)
    returns (r: seq<Driver>, boot: seq<Driver>, kernel: seq<Driver>, runtime: seq<Driver>)
    requires Accepted(ds)
    ensures multiset(r) == multiset(Select(ds, IsEnabledPackage))
    ensures UniqueNames(r) && DepsFirst(Names(Select(ds, IsEnabledPackage)), r)
    ensures boot == Select(r, AutomaticAt(Boot))
    ensures kernel == Select(r, AutomaticAt(Kernel))
    ensures runtime == Select(r, AutomaticAt(Runtime))
  {
    r := OrderSelected(ds, IsEnabledPackage);
    boot := Select(r, AutomaticAt(Boot));
    kernel := Select(r, AutomaticAt(Kernel));
    runtime := Select(r, AutomaticAt(Runtime));
  }

  const BOOT_MODULE_MAX: nat := 8
  const BOOT_DRIVER_MAX_SIZE: nat := 1024 * 1024

  /** A module of the boot loader; `driver` is the package whose manifest name it carries. */
  datatype BootModule = BootModule(driver: Driver, isDriver: bool, address: nat, size: nat)

  predicate Usable(m: BootModule) {
    m.isDriver && m.address != 0 && 0 < m.size <= BOOT_DRIVER_MAX_SIZE
  }

  /** The drivers of the usable modules, in the loader's order. */
  function Carried(modules: seq<BootModule>): (r: seq<Driver>)
    ensures forall d :: d in r <==> exists m :: m in modules && m.driver == d && Usable(m)
  {
    if modules == [] then []
    else
      assert modules == modules[..|modules| - 1] + [modules[|modules| - 1]];
      var rest, last := Carried(modules[..|modules| - 1]), modules[|modules| - 1];
      if Usable(last) then rest + [last.driver] else rest
  }

  /** driver_manager_activate_packaged_boot refuses a list that is too long; otherwise it goes
      through the modules the loader handed over and loads the usable ones whose name is on
      its list, in the loader's order. */
  method ActivateBoot(modules: seq<BootModule>, names: set<string>) returns (loads: seq<Driver>)
    ensures loads == if |modules| > 8 then [] else Select(Carried(modules), NamedIn(names))
    ensures |modules| <= 8 ==>
              forall d :: d in loads <==>
                exists m :: && m in modules && m.driver == d && d.name in names
                            && m.isDriver && m.address != 0 && 0 < m.size <= 0x10_0000
  {
    if |modules| > BOOT_MODULE_MAX {
      return [];
    }
    loads := [];
    var i := 0;
    while i < |modules|
      invariant i <= |modules| && loads == Select(Carried(modules[..i]), NamedIn(names))
    {
      CarriedNext(modules, i, names);
      if Usable(modules[i]) && modules[i].driver.name in names {
        loads := loads + [modules[i].driver];
      }
      i := i + 1;
    }
    assert modules[..i] == modules;
  }

  lemma CarriedNext(modules: seq<BootModule>, i: nat, names: set<string>)
    requires i < |modules|
    ensures var before, m := Select(Carried(modules[..i]), NamedIn(names)), modules[i];
            Select(Carried(modules[..i + 1]), NamedIn(names)) ==
            if Usable(m) && m.driver.name in names then before + [m.driver] else before
  {
    assert modules[..i + 1][..i] == modules[..i];
    var part := Carried(modules[..i]);
    assert (part + [modules[i].driver])[..|part|] == part;
  }

  predicate SizesOk(boot: seq<Driver>, sizeOf: Driver -> nat) {
    forall d | d in boot :: 0 < sizeOf(d) <= 0x10_0000
  }

  /** The build of the boot volume refuses too many, empty and oversized boot drivers, and
      fails if there is no room on the volume beside its other files; the loader hands over the
      drivers in order. */
  method PackModules(boot: seq<Driver>, sizeOf: Driver -> nat, room: bool) returns (r: Option<seq<BootModule>>)
    ensures r.Some? <==> |boot| <= 8 && SizesOk(boot, sizeOf) && room
    ensures r.Some? ==> |r.value| <= BOOT_MODULE_MAX && Carried(r.value) == boot
  {
    if |boot| > BOOT_MODULE_MAX {
      return None;
    }
    var modules: seq<BootModule> := [];
    var i := 0;
    while i < |boot|
      invariant i <= |boot| && |modules| == i && Carried(modules) == boot[..i] && SizesOk(boot[..i], sizeOf)
    {
      assert boot[..i + 1] == boot[..i] + [boot[i]];
      if sizeOf(boot[i]) == 0 || sizeOf(boot[i]) > BOOT_DRIVER_MAX_SIZE {
        return None;
      }
      var m := BootModule(boot[i], true, 4096, sizeOf(boot[i]));
      assert (modules + [m])[..i] == modules;
      modules := modules + [m];
      i := i + 1;
    }
    assert boot[..i] == boot;
    r := if room then Some(modules) else None;
  }

  // ----- The activation order -----

  lemma BeforeInConcat(a: seq<Driver>, b: seq<Driver>, c: seq<Driver>, d: Driver, e: Driver)
    requires || Before(a, e, d) || Before(b, e, d) || Before(c, e, d)
             || (e in a && d in b) || (e in a && d in c) || (e in b && d in c)
    ensures Before(a + b + c, e, d)
  {
    var all := a + b + c;
    assert forall i | 0 <= i < |a| :: all[i] == a[i];
    assert forall i | 0 <= i < |b| :: all[|a| + i] == b[i];
    assert forall i | 0 <= i < |c| :: all[|a| + |b| + i] == c[i];
  }

  lemma NameIsKey(ds: seq<Driver>, a: Driver, b: Driver)
    requires UniqueNames(ds) && a in ds && b in ds && a.name == b.name
    ensures a == b
  {
    var i :| 0 <= i < |ds| && ds[i] == a;
    var j :| 0 <= j < |ds| && ds[j] == b;
  }

  lemma ListedMembers(ds: seq<Driver>, listed: seq<Driver>, s: Stage)
    requires multiset(listed) == multiset(Select(ds, IsEnabledPackage))
    ensures forall d :: d in Select(listed, AutomaticAt(s)) <==> d in ds && LoadsItself(d) && d.stage == s
  {
    SameMembers(listed, Select(ds, IsEnabledPackage));
  }

  lemma BootMembers(ds: seq<Driver>, made: seq<Driver>, names: seq<Driver>)
    requires UniqueNames(ds) && multiset(made) == multiset(Select(ds, IsEnabled))
    requires forall d :: d in names <==> d in ds && LoadsItself(d) && d.stage == Boot
    ensures forall d :: d in Select(Select(made, PackageAt(Boot)), NamedIn(Names(names))) <==>
                        d in ds && LoadsItself(d) && d.stage == Boot
  {
    SameMembers(made, Select(ds, IsEnabled));
    forall d | d in Select(Select(made, PackageAt(Boot)), NamedIn(Names(names))) ensures d in names {
      var e :| e in names && e.name == d.name;
      NameIsKey(ds, d, e);
    }
  }

  lemma UniqueParts(ds: seq<Driver>, a: seq<Driver>, b: seq<Driver>)
    requires UniqueNames(ds) && UniqueNames(a) && UniqueNames(b)
    requires (forall d | d in a :: d in ds && d !in b) && (forall d | d in b :: d in ds)
    ensures UniqueNames(a + b)
  {
    forall i, j | 0 <= i < |a| && 0 <= j < |b| ensures a[i].name != b[j].name {
      if a[i].name == b[j].name {
        NameIsKey(ds, a[i], b[j]);
      }
    }
  }

  /** The same order in the modules the kernel accepts at boot. */
  lemma BootDependencyComesFirst(ds: seq<Driver>, made: seq<Driver>, names: set<string>, d: Driver, e: Driver)
    requires multiset(made) == multiset(Select(ds, IsEnabled))
    requires UniqueNames(made) && DepsFirst(Names(Select(ds, IsEnabled)), made)
    requires d in ds && e in ds && d.enabled && e.enabled && e.name in Deps(d)
    requires PackageAt(Boot)(d) && PackageAt(Boot)(e) && d.name in names && e.name in names
    ensures Before(Select(Select(made, PackageAt(Boot)), NamedIn(names)), e, d)
  {
    DependencyComesFirst(Select(ds, IsEnabled), made, PackageAt(Boot), d, e);
    SelectKeepsOrder(Select(made, PackageAt(Boot)), NamedIn(names), e, d);
  }

  /** An accepted policy: a dependency that is a package loads itself too, no later. */
  lemma DependencyLoadsItself(ds: seq<Driver>, d: Driver, e: Driver)
    requires Accepted(ds) && d in ds && LoadsItself(d) && e in ds && e.artifact.Packaged? && e.name in Deps(d)
    ensures LoadsItself(e) && Rank(e.stage) <= Rank(d.stage)
  {
    var f :| f in ds && f.name == e.name && MayDependOn(d, f);
    NameIsKey(ds, e, f);
  }

  predicate BootPackage(d: Driver) { d.enabled && d.artifact.Packaged? && d.stage == Boot }

  /** The boot drivers keep the limits of the boot volume. */
  predicate BootFits(ds: seq<Driver>, sizeOf: Driver -> nat) {
    |Select(ds, BootPackage)| <= 8 && SizesOk(Select(ds, BootPackage), sizeOf)
  }

  lemma BootFitsMade(ds: seq<Driver>, made: seq<Driver>, sizeOf: Driver -> nat)
    requires UniqueNames(ds) && UniqueNames(made) && multiset(made) == multiset(Select(ds, IsEnabled))
    ensures var boot := Select(made, PackageAt(Boot));
            |boot| <= 8 && SizesOk(boot, sizeOf) <==> BootFits(ds, sizeOf)
  {
    var a, b := Select(made, PackageAt(Boot)), Select(ds, BootPackage);
    SameMembers(made, Select(ds, IsEnabled));
    SelectUnique(made, PackageAt(Boot));
    SelectUnique(ds, BootPackage);
    SameDrivers(a, b);
    assert |multiset(a)| == |a| && |multiset(b)| == |b|;
  }

  /** What the kernel loads at the three stages, in order: from the loader's modules, which
      the build writes in the order of the make list, then from the two path lists. A boot
      volume is built exactly if its limits on boot drivers are kept and it has room for all
      its files. */
  method ActivationOrder(ds: seq<Driver>, sizeOf: Driver -> nat, room: bool)
    returns (built: bool, boot: seq<Driver>, kernel: seq<Driver>, runtime: seq<Driver>)
    requires Accepted(ds)
    ensures built <==> BootFits(ds, sizeOf) && room
    ensures built ==> UniqueNames(boot + kernel + runtime)
    ensures built ==> forall d :: d in boot <==>
              d in ds && d.enabled && d.artifact.Packaged? && d.policy.Automatic? && d.stage == Boot
    ensures built ==> forall d :: d in kernel <==>
              d in ds && d.enabled && d.artifact.Packaged? && d.policy.Automatic? && d.stage == Kernel
    ensures built ==> forall d :: d in runtime <==>
              d in ds && d.enabled && d.artifact.Packaged? && d.policy.Automatic? && d.stage == Runtime
    ensures built ==>
              forall d, e | && d in ds && d.enabled && d.artifact.Packaged? && d.policy.Automatic?
                            && e in ds && e.artifact.Packaged?
                            && d.dependencies.Some? && e.name in d.dependencies.value ::
                Before(boot + kernel + runtime, e, d)
  {
    var made, packages, _, _ := EmitMake(ds);
    var listed, names;
    listed, names, kernel, runtime := EmitActivation(ds);
    var modules := PackModules(packages, sizeOf, room);
    BootFitsMade(ds, made, sizeOf);
    built, boot := modules.Some?, [];
    if built {
      boot := ActivateBoot(modules.value, Names(names));
      ThreeStages(ds, made, listed);
      forall d, e | d in ds && LoadsItself(d) && e in ds && e.artifact.Packaged? && e.name in Deps(d)
        ensures Before(boot + kernel + runtime, e, d)
      {
        OrderedAcrossStages(ds, made, listed, d, e);
      }
    }
  }

  function BootLoads(made: seq<Driver>, listed: seq<Driver>): seq<Driver> {
    Select(Select(made, PackageAt(Boot)), NamedIn(Names(Select(listed, AutomaticAt(Boot)))))
  }

  function Loads(made: seq<Driver>, listed: seq<Driver>): seq<Driver> {
    BootLoads(made, listed) + Select(listed, AutomaticAt(Kernel)) + Select(listed, AutomaticAt(Runtime))
  }

  lemma ThreeStages(ds: seq<Driver>, made: seq<Driver>, listed: seq<Driver>)
    requires UniqueNames(ds) && UniqueNames(made) && UniqueNames(listed)
    requires multiset(made) == multiset(Select(ds, IsEnabled))
    requires multiset(listed) == multiset(Select(ds, IsEnabledPackage))
    ensures UniqueNames(Loads(made, listed))
    ensures forall d :: d in BootLoads(made, listed) <==> d in ds && LoadsItself(d) && d.stage == Boot
    ensures forall d :: d in Select(listed, AutomaticAt(Kernel)) <==> d in ds && LoadsItself(d) && d.stage == Kernel
    ensures forall d :: d in Select(listed, AutomaticAt(Runtime)) <==> d in ds && LoadsItself(d) && d.stage == Runtime
  {
    var names, kernel, runtime :=
      Select(listed, AutomaticAt(Boot)), Select(listed, AutomaticAt(Kernel)), Select(listed, AutomaticAt(Runtime));
    var boot := BootLoads(made, listed);
    ListedMembers(ds, listed, Boot);
    ListedMembers(ds, listed, Kernel);
    ListedMembers(ds, listed, Runtime);
    BootMembers(ds, made, names);
    SelectUnique(made, PackageAt(Boot));
    SelectUnique(Select(made, PackageAt(Boot)), NamedIn(Names(names)));
    SelectUnique(listed, AutomaticAt(Kernel));
    SelectUnique(listed, AutomaticAt(Runtime));
    UniqueParts(ds, boot, kernel);
    UniqueParts(ds, boot + kernel, runtime);
  }

  lemma OrderedAcrossStages(ds: seq<Driver>, made: seq<Driver>, listed: seq<Driver>, d: Driver, e: Driver)
    requires Accepted(ds) && UniqueNames(made) && UniqueNames(listed)
    requires multiset(made) == multiset(Select(ds, IsEnabled)) && DepsFirst(Names(Select(ds, IsEnabled)), made)
    requires multiset(listed) == multiset(Select(ds, IsEnabledPackage))
    requires DepsFirst(Names(Select(ds, IsEnabledPackage)), listed)
    requires d in ds && LoadsItself(d) && e in ds && e.artifact.Packaged? && e.name in Deps(d)
    ensures Before(Loads(made, listed), e, d)
  {
    DependencyLoadsItself(ds, d, e);
    ListedMembers(ds, listed, Boot);
    ListedMembers(ds, listed, Kernel);
    ListedMembers(ds, listed, Runtime);
    var names := Select(listed, AutomaticAt(Boot));
    BootMembers(ds, made, names);
    if d.stage == e.stage {
      if d.stage == Boot {
        BootDependencyComesFirst(ds, made, Names(names), d, e);
      } else {
        DependencyComesFirst(Select(ds, IsEnabledPackage), listed, AutomaticAt(d.stage), d, e);
      }
    }
    var kernel, runtime := Select(listed, AutomaticAt(Kernel)), Select(listed, AutomaticAt(Runtime));
    BeforeInConcat(BootLoads(made, listed), kernel, runtime, d, e);
  }
}
