/**
 What breaks the dependency graph: for every condition under which the commands keep it, a
 pool and a command that violate the condition and leave a broken graph.
 */
module RegistryLimits {
  import opened Text
  import opened Graphs
  import opened Catalog
  import opened Registry
  import opened Runs
  import opened Startup

  lemma NameLists(n: string)
    requires Clean(n) && n != "-"
    ensures ReadList("") == [] && ReadList(n) == [n] && ParseList(n) == [n] && Join([n], ',') == n
  {
    ReadListOfJoin([]);
    ReadListOfJoin([n]);
    ParseListOfJoin([n]);
  }

  predicate FlatJails(ids: set<Id>) {
    forall id :: id in ids ==> id.kind == Jail && '/' !in id.name
  }

  // Three resources, one of which depends on another.
  lemma SmallPool(jail: Id, dependent: Id, other: Id, bases: set<string>, vmDirs: set<string>) returns (pool: Pool)
    requires jail.name != dependent.name && other.name != jail.name && other.name != dependent.name
    requires Referable(jail.name) && jail.name != "-"
    ensures pool.bases == bases && pool.vmDirs == vmDirs && pool.datasets.Keys == {jail, dependent, other}
    ensures pool.Deps() == map[jail := [], dependent := [jail.name], other := []]
    ensures pool.Invariant()
    ensures FlatJails({jail, dependent, other}) && bases == vmDirs == {} ==> pool.ListsEverything()
  {
    pool := Pool(map[jail := Dataset("", ""), dependent := Dataset(jail.name, ""), other := Dataset("", "")],
                 bases, vmDirs);
    SmallPoolDeps(pool, jail, dependent, other);
    SmallDepsSound(pool.Deps(), jail, dependent, other);
    assert pool.datasets.Keys == {jail, dependent, other};
    if FlatJails(pool.datasets.Keys) && bases == vmDirs == {} {
      FlatJailsListed(pool);
    }
  }

  lemma SmallPoolDeps(pool: Pool, a: Id, b: Id, c: Id)
    requires Clean(a.name) && a.name != "-" && a != b && a != c && b != c
    requires pool.datasets == map[a := Dataset("", ""), b := Dataset(a.name, ""), c := Dataset("", "")]
    ensures pool.Deps() == map[a := [], b := [a.name], c := []]
  {
    NameLists(a.name);
    ThreeDeps(pool, a, b, c, Dataset("", ""), Dataset(a.name, ""));
  }

  lemma ThreeDeps(pool: Pool, a: Id, b: Id, c: Id, none: Dataset, one: Dataset)
    requires a != b && a != c && b != c && pool.datasets == map[a := none, b := one, c := none]
    requires ReadList(none.dependencies) == []
    ensures pool.Deps() == map[a := [], b := ReadList(one.dependencies), c := []]
  {
  }

  lemma FlatJailsListed(pool: Pool)
    requires FlatJails(pool.datasets.Keys) && pool.bases == pool.vmDirs == {}
    ensures pool.ListsEverything()
  {
  }

  lemma SmallDepsSound(deps: Deps, a: Id, b: Id, c: Id)
    requires a.name != b.name && c.name != a.name && c.name != b.name && Referable(a.name)
    requires deps == map[a := [], b := [a.name], c := []]
    ensures Sound(deps) && AllReferable(deps)
  {
    assert deps.Keys == {a, b, c};
    OneDependency(deps, a, b);
  }

  lemma OneDependency(deps: Deps, a: Id, b: Id)
    requires NamesDistinct(deps) && a in deps && b in deps && a != b && Referable(a.name)
    requires forall d, n :: DependsOn(deps, d, n) ==> d == b && n == a.name
    ensures Sound(deps) && AllReferable(deps)
  {
    var g := NameGraph(deps);
    Listed(deps, a);
    forall x, y | Edge(g, x, y)
      ensures x == b.name && y == a.name
    {
      var d := EdgeOf(deps, x, y);
    }
    assert a.name != b.name;
    forall p ensures !IsCycle(g, p) {
      NoTargets(g, p, b.name, a.name);
    }
  }

  // ---- An ordinary run ----

  // A VM is made, then its directory, then a jail that depends on the VM, and the VM is destroyed.
  lemma OrdinaryRunWithVm() returns (pools: seq<Pool>, commands: seq<Command>)
    ensures Run(pools, commands) && OrdinaryRun(pools, commands) && pools[0].datasets == map[] && |commands| == 5
    ensures commands[4] == Destroy(Id(Vm, "v"), {}) && DependsOn(pools[4].Deps(), Id(Jail, "j"), "v")
    ensures Id(Vm, "v") in pools[4].datasets && Id(Vm, "v") !in pools[5].datasets
  {
    pools, commands := VmJailRun(Id(Vm, "v"), Id(Jail, "j"));
  }

  lemma VmJailRun(vm: Id, jail: Id) returns (pools: seq<Pool>, commands: seq<Command>)
    requires vm.kind == Vm && jail.kind == Jail && vm.name != jail.name
    requires Referable(vm.name) && vm.name != "-" && '/' !in jail.name
    ensures Run(pools, commands) && OrdinaryRun(pools, commands) && pools[0].datasets == map[] && |commands| == 5
    ensures commands[4] == Destroy(vm, {}) && DependsOn(pools[4].Deps(), jail, vm.name)
    ensures vm in pools[4].datasets && vm !in pools[5].datasets
  {
    var made, steps := MadeUpToJail(vm, jail);
    var linked, gone := LinkAndDestroy(made[3], vm, jail);
    var longer, more := ExtendOrdinary(made, steps, SetDependencies(jail, vm.name, {}), linked);
    pools, commands := ExtendOrdinary(longer, more, Destroy(vm, {}), gone);
    TwoAppended(made, linked, gone);
  }

  lemma TwoAppended<T>(s: seq<T>, a: T, b: T)
    requires |s| == 4
    ensures s + [a] + [b] == s + [a, b] && (s + [a] + [b])[0] == s[0]
    ensures (s + [a] + [b])[4] == a && (s + [a] + [b])[5] == b
  {
  }

  lemma LinkAndDestroy(pool: Pool, vm: Id, jail: Id) returns (linked: Pool, gone: Pool)
    requires vm.kind == Vm && jail.kind == Jail && vm.name != jail.name && TwoResources(pool, vm, jail)
    requires Referable(vm.name) && vm.name != "-" && '/' !in jail.name
    requires pool.datasets[vm] == pool.datasets[jail] == Dataset("", "")
    ensures Step(pool, SetDependencies(jail, vm.name, {}), linked)
    ensures OrdinaryStep(pool, SetDependencies(jail, vm.name, {}), linked)
    ensures Step(linked, Destroy(vm, {}), gone) && OrdinaryStep(linked, Destroy(vm, {}), gone)
    ensures vm in linked.datasets && DependsOn(linked.Deps(), jail, vm.name) && vm !in gone.datasets
  {
    linked := LinkToVm(pool, vm, jail);
    gone := DestroyLinked(linked, vm);
  }

  lemma ExtendOrdinary(pools: seq<Pool>, commands: seq<Command>, command: Command, next: Pool)
    returns (longer: seq<Pool>, more: seq<Command>)
    requires Run(pools, commands) && OrdinaryRun(pools, commands)
    requires var last := pools[|commands|]; Step(last, command, next) && OrdinaryStep(last, command, next)
    ensures longer == pools + [next] && more == commands + [command]
    ensures Run(longer, more) && OrdinaryRun(longer, more)
  {
    longer, more := pools + [next], commands + [command];
    ExtendSteps(pools, commands, Step, command, next);
    ExtendSteps(pools, commands, OrdinaryStep, command, next);
  }

  predicate TwoResources(pool: Pool, vm: Id, jail: Id) {
    pool.datasets.Keys == {vm, jail} && pool.bases == {} && pool.vmDirs == {vm.name}
  }

  lemma MadeUpToJail(vm: Id, jail: Id) returns (pools: seq<Pool>, commands: seq<Command>)
    requires vm.kind == Vm && jail.kind == Jail && vm.name != jail.name
    requires '/' !in vm.name && '/' !in jail.name
    ensures |commands| == 3 && Run(pools, commands) && OrdinaryRun(pools, commands) && pools[0].datasets == map[]
    ensures TwoResources(pools[3], vm, jail)
    ensures pools[3].datasets[vm] == pools[3].datasets[jail] == Dataset("", "")
  {
    var none := Dataset("", "");
    var empty := Pool(map[], {}, {});
    var alone := Pool(map[vm := none], {}, {});
    var listed := Pool(map[vm := none], {}, {vm.name});
    var both := Pool(map[vm := none, jail := none], {}, {vm.name});
    assert vm == Id(Vm, vm.name) && jail == Id(Jail, jail.name);
    assert VmMade(empty, vm.name, alone);
    assert JailsMade(listed, jail.name, both);
    pools, commands := ExtendOrdinary([empty], [], CreateVm(vm.name), alone);
    pools, commands := ExtendOrdinary(pools, commands, VmDirectoriesChange, listed);
    pools, commands := ExtendOrdinary(pools, commands, CreateJail(jail.name, false), both);
  }

  lemma LinkToVm(pool: Pool, vm: Id, jail: Id) returns (next: Pool)
    requires vm.kind == Vm && jail.kind == Jail && vm.name != jail.name && TwoResources(pool, vm, jail)
    requires Referable(vm.name) && vm.name != "-" && '/' !in jail.name
    requires pool.datasets[vm] == pool.datasets[jail] == Dataset("", "")
    ensures Step(pool, SetDependencies(jail, vm.name, {}), next) && pool.ListsEverything()
    ensures next.Invariant() && next.ListsEverything()
    ensures vm in next.datasets && DependsOn(next.Deps(), jail, vm.name)
  {
    next := LinkAccepted(pool, vm, jail);
    StaysOrdinary(pool, SetDependencies(jail, vm.name, {}), next);
    LinkedTo(pool, next, vm, jail);
  }

  lemma LinkAccepted(pool: Pool, vm: Id, jail: Id) returns (next: Pool)
    requires vm.kind == Vm && jail.kind == Jail && vm.name != jail.name && TwoResources(pool, vm, jail)
    requires Referable(vm.name) && vm.name != "-" && '/' !in jail.name
    requires pool.datasets[vm] == pool.datasets[jail] == Dataset("", "")
    ensures pool.Invariant() && pool.ListsEverything() && next.Deps() == pool.Deps()[jail := [vm.name]]
    ensures next.bases == pool.bases && next.vmDirs == pool.vmDirs
    ensures Step(pool, SetDependencies(jail, vm.name, {}), next)
    ensures OrdinaryStep(pool, SetDependencies(jail, vm.name, {}), next)
  {
    TwoListed(pool, vm, jail);
    TwoUnlinked(pool, vm, jail);
    next := AcceptedUnseen(pool, jail, vm.name, {});
  }

  lemma LinkedTo(pool: Pool, next: Pool, vm: Id, jail: Id)
    requires pool.ListsEverything() && vm in pool.datasets && jail in pool.datasets
    requires next.Deps() == pool.Deps()[jail := [vm.name]]
    requires next.bases == pool.bases && next.vmDirs == pool.vmDirs
    ensures next.ListsEverything() && vm in next.datasets && DependsOn(next.Deps(), jail, vm.name)
  {
    assert next.Deps().Keys == pool.Deps().Keys;
    StillListed(pool, next);
    assert next.Deps()[jail] == [vm.name];
    assert vm.name in [vm.name];
  }

  lemma StaysOrdinary(pool: Pool, command: Command, next: Pool)
    requires pool.Invariant() && Step(pool, command, next) && OrdinaryStep(pool, command, next)
    ensures next.Invariant()
  {
    OrdinaryIsSafe(pool, command, next);
    StepKeepsInvariantIff(pool, command, next);
  }

  lemma TwoListed(pool: Pool, vm: Id, jail: Id)
    requires vm.kind == Vm && jail.kind == Jail && TwoResources(pool, vm, jail)
    requires '/' !in vm.name && '/' !in jail.name
    ensures pool.ListsEverything() && Id(Vm, vm.name) in pool.Listing()
  {
    assert vm == Id(Vm, vm.name);
  }

  lemma TwoUnlinked(pool: Pool, vm: Id, jail: Id)
    requires vm.name != jail.name && Referable(vm.name) && TwoResources(pool, vm, jail) && pool.ListsEverything()
    requires pool.datasets[vm] == pool.datasets[jail] == Dataset("", "")
    ensures pool.Invariant() && forall d :: d in pool.Listing() ==> pool.DepsSeen({})[d] == []
  {
    ReadListOfJoin([]);
    AllSeen(pool);
    assert forall d :: d in pool.datasets ==> pool.Deps()[d] == [];
    UnlinkedSound(pool.Deps(), vm, jail);
  }

  lemma UnlinkedSound(deps: Deps, a: Id, b: Id)
    requires deps.Keys == {a, b} && a.name != b.name && Referable(a.name) && forall d :: d in deps ==> deps[d] == []
    ensures Sound(deps) && AllReferable(deps)
  {
    assert forall d, n :: !DependsOn(deps, d, n);
    OneDependency(deps, a, b);
  }

  lemma DestroyLinked(pool: Pool, vm: Id) returns (next: Pool)
    requires pool.Invariant() && pool.ListsEverything() && vm in pool.datasets
    ensures Step(pool, Destroy(vm, {}), next) && vm !in next.datasets
  {
    next := CompleteDestroy(pool, vm, {});
  }

  // What the listing or a read misses.
  predicate Misses(pool: Pool, id: Id, unread: set<Id>) {
    || id in unread || '/' in id.name
    || (if id.kind == Jail then id.name in pool.bases else id.name !in pool.vmDirs)
  }

  // Destroying a resource with such a dependent, in a pool of three resources.
  lemma DestroyMisses(jail: Id, dependent: Id, other: Id, bases: set<string>, vmDirs: set<string>, unread: set<Id>)
    returns (pool: Pool, next: Pool)
    requires jail.name != dependent.name && other.name != jail.name && other.name != dependent.name
    requires Referable(jail.name) && jail.name != "-" && !IsUnder(dependent, jail)
    ensures pool.bases == bases && pool.vmDirs == vmDirs && pool.datasets.Keys == {jail, dependent, other}
    ensures pool.Invariant()
    ensures FlatJails({jail, dependent, other}) && bases == vmDirs == {} ==> pool.ListsEverything()
    ensures Misses(pool, dependent, unread) ==> Step(pool, Destroy(jail, unread), next) && !Sound(next.Deps())
  {
    pool := SmallPool(jail, dependent, other, bases, vmDirs);
    next := CompleteDestroy(pool, jail, unread);
    assert jail.name in pool.Deps()[dependent];
    MissedIsNotReached(pool, jail, dependent, unread);
  }

  lemma CompleteDestroy(pool: Pool, id: Id, unread: set<Id>) returns (next: Pool)
    requires pool.Invariant() && id in pool.datasets
    ensures Step(pool, Destroy(id, unread), next) && (Sound(next.Deps()) <==> DependentsReached(pool, id, unread))
    ensures Destroyed(pool, id, unread, {}, next)
  {
    var cleared := ClearReferences(pool, id.name, pool.Listing() - unread);
    next := RemoveDatasets(cleared, Under(pool.datasets.Keys, id), {});
    assert Destroyed(pool, id, unread, {}, next);
    DestroyKeepsInvariantIff(pool, id, unread, {}, next);
  }

  lemma MissedIsNotReached(pool: Pool, id: Id, dependent: Id, unread: set<Id>)
    requires DependsOn(pool.Deps(), dependent, id.name) && !IsUnder(dependent, id)
    ensures Misses(pool, dependent, unread) ==> !DependentsReached(pool, id, unread)
  {
    assert Misses(pool, dependent, unread) ==> !(dependent in pool.Listing() && dependent !in unread);
  }

  lemma AllListed(pool: Pool)
    requires forall id :: id in pool.datasets ==> !Misses(pool, id, {})
    requires forall n :: n in pool.vmDirs ==> Id(Vm, n) in pool.datasets
    ensures pool.ListsEverything()
  {
  }

  // A VM that has no directory keeps its dependency on a jail that is destroyed.
  lemma HiddenVmBreaksGraph() returns (pool: Pool, next: Pool)
    ensures pool.Invariant() && pool.vmDirs == {} && pool.bases == {}
    ensures pool.datasets.Keys == {Id(Jail, "j"), Id(Vm, "v"), Id(Jail, "a")}
    ensures Step(pool, Destroy(Id(Jail, "j"), {}), next) && !Sound(next.Deps())
  {
    pool, next := DestroyMisses(Id(Jail, "j"), Id(Vm, "v"), Id(Jail, "a"), {}, {}, {});
  }

  // So does a jail that shares its name with a base jail.
  lemma HiddenJailBreaksGraph() returns (pool: Pool, next: Pool)
    ensures pool.Invariant() && pool.vmDirs == {} && pool.bases == {"v"}
    ensures pool.datasets.Keys == {Id(Jail, "j"), Id(Jail, "v"), Id(Jail, "a")}
    ensures Step(pool, Destroy(Id(Jail, "j"), {}), next) && !Sound(next.Deps())
  {
    pool, next := DestroyMisses(Id(Jail, "j"), Id(Jail, "v"), Id(Jail, "a"), {"v"}, {}, {});
  }

  // So does a jail below another jail: the listing does not look there.
  lemma NestedJailBreaksGraph() returns (pool: Pool, next: Pool)
    ensures pool.Invariant() && pool.vmDirs == {} && pool.bases == {}
    ensures pool.datasets.Keys == {Id(Jail, "j"), Id(Jail, "a/b"), Id(Jail, "a")}
    ensures Step(pool, Destroy(Id(Jail, "j"), {}), next) && !Sound(next.Deps())
  {
    assert "a/b"[1] == '/';
    pool, next := DestroyMisses(Id(Jail, "j"), Id(Jail, "a/b"), Id(Jail, "a"), {}, {}, {});
  }

  // So does any dependent whose list could not be read.
  lemma UnreadListKeepsReference() returns (pool: Pool, next: Pool)
    ensures pool.Invariant() && pool.ListsEverything()
    ensures Step(pool, Destroy(Id(Jail, "j"), {Id(Jail, "v")}), next) && !Sound(next.Deps())
  {
    pool, next := DestroyUnread(Id(Jail, "j"), Id(Jail, "v"), Id(Jail, "a"));
  }

  lemma DestroyUnread(a: Id, b: Id, c: Id) returns (pool: Pool, next: Pool)
    requires a.name != b.name && c.name != a.name && c.name != b.name && a.kind == b.kind == c.kind == Jail
    requires Referable(a.name) && a.name != "-" && '/' !in b.name && '/' !in c.name
    ensures pool.Invariant() && pool.ListsEverything()
    ensures Step(pool, Destroy(a, {b}), next) && !Sound(next.Deps())
  {
    var unread := {b};
    assert b in unread && !IsUnder(b, a) && FlatJails({a, b, c});
    pool, next := DestroyMisses(a, b, c, {}, {}, unread);
    assert Misses(pool, b, unread);
  }

  function NoEdges(names: set<string>): Graph<string> {
    map m | m in names :: []
  }

  // Where no dependency is seen, any listed name is accepted as a new one.
  lemma AcceptedUnseen(pool: Pool, id: Id, n: string, unread: set<Id>) returns (next: Pool)
    requires pool.Invariant() && id in pool.datasets && Clean(n) && n != "-" && n != id.name
    requires Id(Jail, n) in pool.Listing() || Id(Vm, n) in pool.Listing()
    requires forall d :: d in pool.Listing() ==> pool.DepsSeen(unread)[d] == []
    ensures Step(pool, SetDependencies(id, n, unread), next) && next.Deps() == pool.Deps()[id := [n]]
    ensures next.bases == pool.bases && next.vmDirs == pool.vmDirs
  {
    NameLists(n);
    next := StoreOne(pool, id, n);
    UnseenGraph(pool.DepsSeen(unread), pool.Listing(), id.name, n);
    assert Accepted(pool, id.name, [n], unread);
  }

  lemma StoreOne(pool: Pool, id: Id, n: string) returns (next: Pool)
    requires id in pool.datasets && Clean(n) && n != "-"
    ensures next == pool.(datasets := pool.datasets[id := pool.datasets[id].(dependencies := Join([n], ','))])
    ensures next.Deps() == pool.Deps()[id := [n]]
  {
    NameLists(n);
    next := pool.(datasets := pool.datasets[id := pool.datasets[id].(dependencies := Join([n], ','))]);
  }

  lemma UnseenGraph(seen: Deps, listing: set<Id>, a: string, b: string)
    requires listing <= seen.Keys && forall d :: d in listing ==> seen[d] == []
    requires a != b && (Id(Jail, b) in listing || Id(Vm, b) in listing)
    ensures exists g :: IsListedGraph(g, seen, listing) && Closed(g[a := [b]]) && Acyclic(g[a := [b]])
  {
    var g := EdgelessListed(seen, listing);
    OneEdgeAcyclic(g, a, b);
  }

  lemma EdgelessListed(seen: Deps, listing: set<Id>) returns (g: Graph<string>)
    requires listing <= seen.Keys && forall d :: d in listing ==> seen[d] == []
    ensures IsListedGraph(g, seen, listing) && forall m :: m in g ==> g[m] == []
  {
    var names := set d | d in listing :: d.name;
    g := NoEdges(names);
    forall m
      ensures m in g <==> Id(Jail, m) in listing || Id(Vm, m) in listing
    {
      if m in g {
        var d :| d in listing && d.name == m;
        IdCases(d);
      }
    }
  }

  lemma OneEdgeAcyclic(g: Graph<string>, a: string, b: string)
    requires a != b && b in g && forall m :: m in g ==> g[m] == []
    ensures Closed(g[a := [b]]) && Acyclic(g[a := [b]])
  {
    var h := g[a := [b]];
    forall p | IsCycle(h, p)
      ensures false
    {
      NoTargets(h, p, a, b);
    }
  }

  lemma NoTargets(h: Graph<string>, p: seq<string>, a: string, b: string)
    requires a != b && forall x, y :: Edge(h, x, y) ==> x == a && y == b
    ensures !IsCycle(h, p)
  {
    if |p| >= 2 && Edge(h, p[0], p[1]) {
      assert p[0] == a && p[1] == b;
      if |p| > 2 {
        assert !Edge(h, p[1], p[1 + 1]);
      }
    }
  }

  // If a list cannot be read, validation can accept a cycle.
  lemma UnreadListAllowsCycle() returns (pool: Pool, next: Pool)
    ensures pool.Invariant() && pool.ListsEverything()
    ensures Step(pool, SetDependencies(Id(Jail, "j"), "v", {Id(Jail, "v")}), next) && !Sound(next.Deps())
  {
    pool, next := CycleAccepted(Id(Jail, "j"), Id(Jail, "v"), Id(Jail, "a"));
  }

  lemma CycleAccepted(a: Id, b: Id, c: Id) returns (pool: Pool, next: Pool)
    requires a.name != b.name && c.name != a.name && c.name != b.name && a.kind == b.kind == c.kind == Jail
    requires Referable(a.name) && a.name != "-" && Referable(b.name) && b.name != "-" && Referable(c.name)
    ensures pool.Invariant() && pool.ListsEverything()
    ensures Step(pool, SetDependencies(a, b.name, {b}), next) && !Sound(next.Deps())
    ensures pool.Deps() == map[a := [], b := [a.name], c := []] && next.Deps() == pool.Deps()[a := [b.name]]
    ensures next.bases == pool.bases && next.vmDirs == pool.vmDirs
  {
    pool := NothingElseSeen(a, b, c);
    next := AcceptedUnseen(pool, a, b.name, {b});
    TwoCycle(pool.Deps(), a, b);
  }

  lemma NothingElseSeen(a: Id, b: Id, c: Id) returns (pool: Pool)
    requires a.name != b.name && c.name != a.name && c.name != b.name && a.kind == b.kind == c.kind == Jail
    requires Referable(a.name) && a.name != "-" && '/' !in b.name && '/' !in c.name
    ensures pool.Invariant() && pool.ListsEverything() && a in pool.datasets && b in pool.Listing()
    ensures pool.Deps() == map[a := [], b := [a.name], c := []] && DependsOn(pool.Deps(), b, a.name)
    ensures forall d :: d in pool.Listing() ==> pool.DepsSeen({b})[d] == []
  {
    assert FlatJails({a, b, c});
    pool := SmallPool(a, b, c, {}, {});
    NothingSeen(pool, a, b, c);
    assert a.name in pool.Deps()[b];
  }

  lemma StillListed(pool: Pool, next: Pool)
    requires pool.ListsEverything() && next.Deps().Keys == pool.Deps().Keys
    requires next.bases == pool.bases && next.vmDirs == pool.vmDirs
    ensures next.ListsEverything()
  {
    assert next.Listing() == pool.Listing();
  }

  lemma CycleStored(deps: Deps, a: Id, b: Id, c: Id)
    requires a != b && a != c && b != c && deps == map[a := [], b := [a.name], c := []]
    ensures deps[a := [b.name]] == map[a := [b.name], b := [a.name], c := []]
  {
  }

  lemma AllButOneSeen(pool: Pool, id: Id)
    requires pool.ListsEverything()
    ensures pool.DepsSeen({id}).Keys == pool.Listing() == pool.Deps().Keys
    ensures forall d :: d in pool.Deps() ==> pool.DepsSeen({id})[d] == if d == id then [] else pool.Deps()[d]
  {
  }

  lemma NothingSeen(pool: Pool, a: Id, b: Id, c: Id)
    requires pool.datasets.Keys == {a, b, c} && pool.ListsEverything() && pool.Deps()[a] == pool.Deps()[c] == []
    ensures forall d :: d in pool.Listing() ==> pool.DepsSeen({b})[d] == []
  {
    AllButOneSeen(pool, b);
    assert pool.Deps().Keys == {a, b, c};
    NoneStored(pool.Deps(), pool.DepsSeen({b}), a, b, c);
  }

  lemma NoneStored(deps: Deps, seen: Deps, a: Id, b: Id, c: Id)
    requires deps.Keys == {a, b, c} == seen.Keys && deps[a] == deps[c] == []
    requires forall d :: d in deps ==> seen[d] == if d == b then [] else deps[d]
    ensures forall d :: d in deps ==> seen[d] == []
  {
  }

  lemma TwoCycle(deps: Deps, a: Id, b: Id)
    requires Sound(deps) && a in deps && DependsOn(deps, b, a.name)
    ensures !Sound(deps[a := [b.name]])
  {
    ReplaceSoundIff(deps, a, [b.name]);
    DependencyOf(deps, b, a.name);
    assert PathBetween(NameGraph(deps), b.name, a.name, [b.name, a.name]);
    assert b.name in [b.name];
  }

  // ---- What validation at boot misses ----

  predicate SameShape(pool: Pool, other: Pool) {
    other == pool.(datasets := other.datasets) && other.datasets.Keys == pool.datasets.Keys
  }

  ghost predicate AllStartable(pool: Pool, unread: set<Id>) {
    forall id :: id in pool.Listing() ==> Startable(pool.DepsRead(unread), id)
  }

  // Whatever the resources store, if validation accepts it without having read the lists of
  // `missed`, all that is listed can be started by starts that cannot read those of `unread`.
  ghost predicate ValidationSuffices(pool: Pool, missed: set<Id>, unread: set<Id>) {
    forall other :: SameShape(pool, other) && Validates(other, missed) ==> AllStartable(other, unread)
  }

  // That is so exactly if validation missed no list that a start may read.
  lemma ValidationSufficesIff(pool: Pool, missed: set<Id>, unread: set<Id>)
    requires pool.Listing() <= pool.datasets.Keys && NamesDistinct(pool.Deps()) && missed <= pool.Listing()
    ensures ValidationSuffices(pool, missed, unread) <==> missed <= unread
  {
    if id :| id in missed && id !in unread {
      MissedUnknown(pool, missed, unread, id);
    } else {
      forall other | SameShape(pool, other) && Validates(other, missed)
        ensures AllStartable(other, unread)
      {
        NothingMissed(pool, other, missed, unread);
      }
    }
  }

  lemma NothingMissed(pool: Pool, other: Pool, missed: set<Id>, unread: set<Id>)
    requires pool.Listing() <= pool.datasets.Keys && NamesDistinct(pool.Deps()) && missed <= unread
    requires SameShape(pool, other) && Validates(other, missed)
    ensures AllStartable(other, unread)
  {
    assert other.Listing() == pool.Listing() && other.Deps().Keys == pool.Deps().Keys;
    forall id | id in other.Listing()
      ensures Startable(other.DepsRead(unread), id)
    {
      ValidatedStarts(other, missed, unread, id);
    }
  }

  lemma ValidatedStarts(pool: Pool, missed: set<Id>, unread: set<Id>, id: Id)
    requires pool.Listing() <= pool.datasets.Keys && NamesDistinct(pool.Deps()) && missed <= unread
    requires Validates(pool, missed) && id in pool.Listing()
    ensures Startable(pool.DepsRead(unread), id)
  {
    ValidatedHasNone(pool, missed, unread, id);
    DistinctAsRead(pool, unread);
    StartableIff(pool.DepsRead(unread), id);
  }

  lemma ValidatedHasNone(pool: Pool, missed: set<Id>, unread: set<Id>, id: Id)
    requires pool.Listing() <= pool.datasets.Keys && NamesDistinct(pool.Deps()) && missed <= unread
    requires Validates(pool, missed) && id in pool.Listing()
    ensures HasNoErrors(pool.DepsRead(unread), id)
  {
    var g :| IsListedGraph(g, pool.DepsSeen(missed), pool.Listing()) && Closed(g) && Acyclic(g);
    forall name
      ensures !RunsInCircle(pool.DepsRead(unread), id, name) && !LeadsToUnknown(pool.DepsRead(unread), id, name)
    {
      BootHasNoErrors(pool, g, missed, unread, id, name);
    }
  }

  // A list of one unknown name, which only a start reads.
  lemma MissedUnknown(pool: Pool, missed: set<Id>, unread: set<Id>, id: Id)
    requires pool.Listing() <= pool.datasets.Keys && NamesDistinct(pool.Deps())
    requires id in missed && missed <= pool.Listing() && id !in unread
    ensures !ValidationSuffices(pool, missed, unread)
  {
    var n := UnusedName(set d | d in pool.datasets :: d.name, 0);
    var other := OnlyList(pool, id, n);
    OnlyListValidates(pool, other, missed, id);
    UnknownRead(pool, other, unread, id, n);
    assert id in other.Listing();
  }

  lemma OnlyListValidates(pool: Pool, other: Pool, missed: set<Id>, id: Id)
    requires pool.Listing() <= pool.datasets.Keys && SameShape(pool, other) && other.Listing() == pool.Listing()
    requires id in missed && forall d :: d in pool.datasets && d != id ==> other.Deps()[d] == []
    ensures Validates(other, missed)
  {
    forall d | d in other.Listing()
      ensures d in other.datasets && other.DepsSeen(missed)[d] == []
    {
      OneSeen(other, missed, d);
    }
    UnseenValidates(other, missed);
  }

  lemma OneSeen(pool: Pool, missed: set<Id>, d: Id)
    requires d in pool.datasets
    ensures pool.DepsSeen(missed)[d] == if d in missed then [] else pool.Deps()[d]
  {
  }

  lemma UnknownRead(pool: Pool, other: Pool, unread: set<Id>, id: Id, n: string)
    requires SameShape(pool, other) && NamesDistinct(pool.Deps()) && id in pool.datasets && id !in unread
    requires other.Deps()[id] == [n] && forall d :: d in pool.datasets ==> d.name != n
    ensures !Startable(other.DepsRead(unread), id)
  {
    var deps := other.DepsRead(unread);
    assert deps[id] == other.Deps()[id];
    assert deps.Keys == pool.Deps().Keys;
    UnknownStops(deps, id, n);
  }

  lemma OnlyList(pool: Pool, id: Id, n: string) returns (other: Pool)
    requires Clean(n) && n != "-" && id in pool.datasets
    ensures SameShape(pool, other) && other.Listing() == pool.Listing()
    ensures other.Deps()[id] == [n] && forall d :: d in pool.datasets && d != id ==> other.Deps()[d] == []
  {
    NameLists(n);
    other := pool.(datasets := map d | d in pool.datasets :: if d == id then Dataset(n, "") else Dataset("", ""));
    assert other.datasets[id] == Dataset(n, "");
  }

  lemma UnknownStops(deps: Deps, id: Id, n: string)
    requires NamesDistinct(deps) && id in deps && deps[id] == [n] && forall d :: d in deps ==> d.name != n
    ensures !Startable(deps, id)
  {
    assert n in deps[id];
    assert DeadEnd(deps, id, n, [id]);
    assert LeadsToUnknown(deps, id, n);
    StartableIff(deps, id);
  }

  lemma UnseenValidates(pool: Pool, missed: set<Id>)
    requires forall d :: d in pool.Listing() ==> d in pool.datasets && pool.DepsSeen(missed)[d] == []
    ensures Validates(pool, missed)
  {
    var g := EdgelessListed(pool.DepsSeen(missed), pool.Listing());
    assert "x" != "y" by { assert "x"[0] != "y"[0]; }
    forall p ensures !IsCycle(g, p) {
      NoTargets(g, p, "x", "y");
    }
  }

  // A name that nothing in `used` has, of more than `k` letters.
  lemma UnusedName(used: set<string>, k: nat) returns (n: string)
    ensures n !in used && |n| > k && forall c :: c in n ==> c == 'x'
    ensures Clean(n) && n != "-"
    decreases |used|
  {
    n := seq(k + 1, _ => 'x');
    if n in used {
      n := UnusedName(used - {n}, k + 1);
    }
    assert n[0] in n && n[|n| - 1] in n;
  }

  // Such a list may also close a circle: validation accepts, and what is on it cannot be started.
  lemma MissedCycleStopsStart() returns (before: Pool, pool: Pool)
    ensures before.Invariant() && Step(before, SetDependencies(Id(Jail, "j"), "v", {Id(Jail, "v")}), pool)
    ensures pool.ListsEverything() && Validates(pool, {Id(Jail, "v")})
    ensures RunsInCircle(pool.Deps(), Id(Jail, "j"), "j") && !Startable(pool.Deps(), Id(Jail, "j"))
  {
    before, pool := MissedCycle(Id(Jail, "j"), Id(Jail, "v"), Id(Jail, "a"));
  }

  lemma MissedCycle(a: Id, b: Id, c: Id) returns (before: Pool, pool: Pool)
    requires a.name != b.name && c.name != a.name && c.name != b.name && a.kind == b.kind == c.kind == Jail
    requires Referable(a.name) && a.name != "-" && Referable(b.name) && b.name != "-" && Referable(c.name)
    ensures before.Invariant() && Step(before, SetDependencies(a, b.name, {b}), pool)
    ensures pool.ListsEverything() && Validates(pool, {b})
    ensures RunsInCircle(pool.Deps(), a, a.name) && !Startable(pool.Deps(), a)
  {
    before, pool := CycleAccepted(a, b, c);
    CycleStops(before, pool, a, b, c);
  }

  lemma CycleStops(before: Pool, pool: Pool, a: Id, b: Id, c: Id)
    requires a.name != b.name && c.name != a.name && c.name != b.name && a.kind == b.kind == c.kind == Jail
    requires before.ListsEverything() && pool.bases == before.bases && pool.vmDirs == before.vmDirs
    requires before.Deps() == map[a := [], b := [a.name], c := []] && pool.Deps() == before.Deps()[a := [b.name]]
    ensures pool.ListsEverything() && Validates(pool, {b})
    ensures RunsInCircle(pool.Deps(), a, a.name) && !Startable(pool.Deps(), a)
  {
    CycleStored(before.Deps(), a, b, c);
    StillListed(before, pool);
    CycleRuns(pool.Deps(), a, b, c);
    MissedCycleValidates(pool, a, b, c);
  }

  lemma MissedCycleValidates(pool: Pool, a: Id, b: Id, c: Id)
    requires a.name != b.name && c.name != a.name && c.name != b.name && a.kind == b.kind == c.kind == Jail
    requires pool.ListsEverything() && pool.Deps() == map[a := [b.name], b := [a.name], c := []]
    ensures Validates(pool, {b})
  {
    AllButOneSeen(pool, b);
    CycleUnseen(pool.Deps(), pool.DepsSeen({b}), a, b, c);
    CycleValidates(pool.DepsSeen({b}), a, b, c);
  }

  lemma CycleRuns(deps: Deps, a: Id, b: Id, c: Id)
    requires a.name != b.name && c.name != a.name && c.name != b.name && a.kind == b.kind == Jail
    requires deps == map[a := [b.name], b := [a.name], c := []]
    ensures RunsInCircle(deps, a, a.name) && !Startable(deps, a)
  {
    TwoInCircle(deps, a, b);
    assert deps.Keys == {a, b, c};
    StartableIff(deps, a);
  }

  lemma TwoInCircle(deps: Deps, a: Id, b: Id)
    requires a.name != b.name && a.kind == b.kind == Jail && a in deps && b in deps
    requires deps[a] == [b.name] && deps[b] == [a.name]
    ensures RunsInCircle(deps, a, a.name)
  {
    IdCases(a);
    IdCases(b);
    assert b.name in deps[a] && a.name in deps[b];
    IdEdge(deps, a, b);
    IdEdge(deps, b, a);
    assert Lasso(deps, a, a.name, [a, b, a], 0);
  }

  lemma CycleUnseen(deps: Deps, seen: Deps, a: Id, b: Id, c: Id)
    requires a != b && c != a && c != b && deps == map[a := [b.name], b := [a.name], c := []]
    requires seen.Keys == deps.Keys && forall d :: d in deps ==> seen[d] == if d == b then [] else deps[d]
    ensures seen == map[a := [b.name], b := [], c := []]
  {
  }

  lemma CycleValidates(seen: Deps, a: Id, b: Id, c: Id)
    requires a.name != b.name && c.name != a.name && c.name != b.name && a.kind == b.kind == c.kind == Jail
    requires seen == map[a := [b.name], b := [], c := []]
    ensures exists g :: IsListedGraph(g, seen, seen.Keys) && Closed(g) && Acyclic(g)
  {
    var g: Graph<string> := map[b.name := [], c.name := []];
    OneEdgeAcyclic(g, a.name, b.name);
    var h := g[a.name := [b.name]];
    forall n
      ensures n in h <==> Id(Jail, n) in seen || Id(Vm, n) in seen
      ensures n in h ==> h[n] == seen[if Id(Vm, n) in seen then Id(Vm, n) else Id(Jail, n)]
    {
      IdCases(a);
      IdCases(b);
      IdCases(c);
    }
    assert IsListedGraph(h, seen, seen.Keys);
  }

  // A VM directory without a VM can be accepted as a dependency.
  lemma StrayDirectoryIsAccepted() returns (pool: Pool, next: Pool)
    ensures pool.Invariant() && pool.vmDirs == {"x"} && pool.bases == {}
    ensures Step(pool, SetDependencies(Id(Jail, "a"), "x", {}), next) && !Sound(next.Deps())
  {
    pool, next := StrayAccepted(Id(Jail, "a"), "x");
  }

  lemma StrayAccepted(a: Id, n: string) returns (pool: Pool, next: Pool)
    requires a.kind == Jail && a.name != n && Referable(n) && n != "-"
    ensures pool.Invariant() && pool.vmDirs == {n} && pool.bases == {}
    ensures Step(pool, SetDependencies(a, n, {}), next) && !Sound(next.Deps())
  {
    pool := StrayPool(a, n);
    StraySeen(pool, a, n);
    next := AcceptedUnseen(pool, a, n, {});
    StrayDangles(next.Deps(), a, n);
  }

  lemma StrayPool(a: Id, n: string) returns (pool: Pool)
    requires Clean(n) && n != "-"
    ensures pool.datasets.Keys == {a} && pool.vmDirs == {n} && pool.bases == {}
    ensures pool.Deps()[a] == [] && pool.Invariant()
  {
    pool := Pool(map[a := Dataset("", "")], {}, {n});
    NameLists(n);
    OneResource(pool, a);
  }

  lemma StrayDangles(deps: Deps, a: Id, n: string)
    requires deps.Keys == {a} && a.name != n && deps[a] == [n]
    ensures !Sound(deps)
  {
    assert n in deps[a];
    assert DependsOn(deps, a, n) && !HasName(deps, n);
    Dangling(deps, a, n);
  }

  lemma StraySeen(pool: Pool, a: Id, n: string)
    requires pool.datasets.Keys == {a} && pool.Deps()[a] == [] && pool.vmDirs == {n} && '/' !in n && a.kind == Jail
    ensures Id(Vm, n) in pool.Listing()
    ensures forall d :: d in pool.Listing() ==> pool.DepsSeen({})[d] == []
  {
  }

  lemma OneResource(pool: Pool, a: Id)
    requires pool.datasets.Keys == {a} && pool.Deps()[a] == []
    ensures pool.Invariant()
  {
    var g := NameGraph(pool.Deps());
    Listed(pool.Deps(), a);
    assert forall x, y :: !Edge(g, x, y);
    OrderImpliesAcyclic(g, [a.name]);
  }

  // If the existence test of a VM fails, a jail can be given its name.
  lemma OverlookedVmLosesItsName() returns (pool: Pool, next: Pool)
    ensures pool.Invariant() && pool.ListsEverything()
    ensures Step(pool, CreateJail("v", true), next) && !NamesDistinct(next.Deps())
  {
    pool, next := MadeLikeVm("v", true, "v");
  }

  // A jail below a VM's name makes a jail of that name, too.
  lemma NestedJailTakesVmName() returns (pool: Pool, next: Pool)
    ensures pool.Invariant() && pool.ListsEverything()
    ensures Step(pool, CreateJail("v/b", false), next) && !NamesDistinct(next.Deps())
  {
    assert "v/b"[..1] == "v" && IsParent("v", "v/b");
    pool, next := MadeLikeVm("v/b", false, "v");
  }

  lemma MadeLikeVm(name: string, overlooked: bool, made: string) returns (pool: Pool, next: Pool)
    requires made == name || made in Parents(name)
    requires '/' !in made && (made == name ==> overlooked)
    ensures pool.Invariant() && pool.ListsEverything()
    ensures Step(pool, CreateJail(name, overlooked), next) && !NamesDistinct(next.Deps())
  {
    var vm, jail := Id(Vm, made), Id(Jail, made);
    pool := Pool(map[vm := Dataset("", "")], {}, {made});
    ReadListOfJoin([]);
    OneResource(pool, vm);
    AllListed(pool);
    next := pool.(datasets := pool.datasets[jail := Dataset("", "")]);
    assert JailsMade(pool, name, next);
    assert jail in next.Deps() && vm in next.Deps();
  }
}
