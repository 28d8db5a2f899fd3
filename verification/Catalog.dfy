/** The managed jails and VMs with their decoded dependency lists, and the name graph. */
module Catalog {
  import opened Wrappers
  import opened Graphs

  datatype Kind = Jail | Vm

  datatype Id = Id(kind: Kind, name: string)

  type Deps = map<Id, seq<string>>

  lemma IdCases(id: Id)
    ensures id == Id(Jail, id.name) || id == Id(Vm, id.name)
  {
    match id.kind {
      case Jail =>
      case Vm =>
    }
  }

  // How a dependency name is looked up: jails first, then VMs.
  function Resolve(deps: Deps, name: string): (id: Option<Id>)
    ensures id.Some? ==> id.value in deps && id.value.name == name
    ensures id.None? ==> forall d :: d in deps ==> d.name != name
  {
    if Id(Jail, name) in deps then Some(Id(Jail, name))
    else if Id(Vm, name) in deps then Some(Id(Vm, name))
    else
      assert forall d :: d in deps ==> d.name != name by {
        forall d | d in deps ensures d.name != name { IdCases(d); }
      }
      None
  }

  function DepsOf(deps: Deps, id: Id): seq<string> {
    if id in deps then deps[id] else []
  }

  predicate DependsOn(deps: Deps, id: Id, n: string) {
    id in deps && n in deps[id]
  }

  predicate HasName(deps: Deps, name: string) {
    Resolve(deps, name).Some?
  }

  // No jail shares its name with a VM.
  ghost predicate NamesDistinct(deps: Deps) {
    forall a, b :: a in deps && b in deps && a.name == b.name ==> a == b
  }

  // The graph as start-up follows it.
  ghost function NameGraph(deps: Deps): (g: Graph<string>)
    ensures forall n :: n in g <==> HasName(deps, n)
    ensures forall n :: n in g ==> HasName(deps, n) && g[n] == deps[Resolve(deps, n).value]
  {
    var names := set id | id in deps :: id.name;
    assert forall n :: HasName(deps, n) ==> Resolve(deps, n).value in deps;
    map n | n in names && HasName(deps, n) :: deps[Resolve(deps, n).value]
  }

  ghost predicate Sound(deps: Deps) {
    NamesDistinct(deps) && Closed(NameGraph(deps)) && Acyclic(NameGraph(deps))
  }

  lemma Listed(deps: Deps, id: Id)
    requires NamesDistinct(deps) && id in deps
    ensures Resolve(deps, id.name) == Some(id)
    ensures id.name in NameGraph(deps) && NameGraph(deps)[id.name] == deps[id]
  {
  }

  lemma EdgeOf(deps: Deps, a: string, b: string) returns (id: Id)
    requires Edge(NameGraph(deps), a, b)
    ensures DependsOn(deps, id, b) && id.name == a
  {
    id := Resolve(deps, a).value;
  }

  lemma DependencyOf(deps: Deps, id: Id, n: string)
    requires NamesDistinct(deps) && DependsOn(deps, id, n)
    ensures Edge(NameGraph(deps), id.name, n)
  {
    Listed(deps, id);
  }

  // In a sound catalog a dependency names another existing resource.
  lemma DependencyExists(deps: Deps, id: Id, n: string)
    requires Sound(deps) && DependsOn(deps, id, n)
    ensures HasName(deps, n) && n != id.name
  {
    DependencyOf(deps, id, n);
    if n == id.name {
      assert IsCycle(NameGraph(deps), [n, n]);
    }
  }

  // A change that adds no dependency and leaves none dangling keeps a catalog sound.
  lemma FewerDependencies(deps: Deps, next: Deps)
    requires Sound(deps) && NamesDistinct(next)
    requires forall d, n :: DependsOn(next, d, n) ==> DependsOn(deps, d, n) && HasName(next, n)
    ensures Sound(next)
  {
    var g, g' := NameGraph(deps), NameGraph(next);
    forall a, b | Edge(g', a, b)
      ensures Edge(g, a, b) && b in g'
    {
      var d := EdgeOf(next, a, b);
      DependencyOf(deps, d, b);
    }
    FewerEdgesAcyclic(g, g');
  }

  lemma Dangling(deps: Deps, id: Id, n: string)
    requires DependsOn(deps, id, n) && !HasName(deps, n)
    ensures !Sound(deps)
  {
    if NamesDistinct(deps) {
      DependencyOf(deps, id, n);
    }
  }

  // The graph as validation sees it: only the resources in the listing, where a VM's
  // entry replaces that of a jail with the same name.
  ghost predicate IsListedGraph(g: Graph<string>, deps: Deps, listing: set<Id>) {
    && listing <= deps.Keys
    && (forall n :: n in g <==> Id(Jail, n) in listing || Id(Vm, n) in listing)
    && (forall n :: n in g ==> g[n] == deps[if Id(Vm, n) in listing then Id(Vm, n) else Id(Jail, n)])
  }

  lemma ListedGraphIsUnique(deps: Deps, listing: set<Id>, g: Graph<string>, h: Graph<string>)
    requires IsListedGraph(g, deps, listing) && IsListedGraph(h, deps, listing)
    ensures g == h
  {
    assert g.Keys == h.Keys;
  }

  // Filling the map entry by entry, jails before VMs, builds that graph.
  lemma ListedGraphExtend(g: Graph<string>, deps: Deps, listing: set<Id>, id: Id, names: seq<string>)
    requires IsListedGraph(g, deps, listing) && id !in listing
    requires id.kind == Vm || Id(Vm, id.name) !in listing
    ensures IsListedGraph(g[id.name := names], deps[id := names], listing + {id})
  {
    IdCases(id);
    assert forall n, k :: Id(k, n) in listing + {id} <==> Id(k, n) in listing || (k == id.kind && n == id.name);
  }

  // Replacing one list by a validated one keeps the catalog sound, whatever the listing
  // left out: nothing leaves the validated part, and outside of it nothing changes.
  lemma ReplaceValidated(deps: Deps, listing: set<Id>, graph: Graph<string>,
                         id: Id, values: seq<string>, stored: seq<string>)
    requires Sound(deps) && id in deps && IsListedGraph(graph, deps, listing)
    requires Closed(graph[id.name := values]) && Acyclic(graph[id.name := values])
    requires forall n :: n in stored ==> n in values
    ensures Sound(deps[id := stored])
  {
    var next := deps[id := stored];
    var listed := graph[id.name := values];
    var g, g' := NameGraph(deps), NameGraph(next);
    forall a, b | Edge(g', a, b)
      ensures if a in listed.Keys then b in listed.Keys && Edge(listed, a, b) else Edge(g, a, b)
      ensures b in g'
    {
      var d := EdgeOf(next, a, b);
      ReplacedEdge(deps, listing, graph, id, values, stored, d, b);
    }
    AcyclicBySplit(g, listed, g', listed.Keys);
  }

  lemma ReplacedEdge(deps: Deps, listing: set<Id>, graph: Graph<string>,
                     id: Id, values: seq<string>, stored: seq<string>, d: Id, n: string)
    requires Sound(deps) && id in deps && IsListedGraph(graph, deps, listing) && Closed(graph[id.name := values])
    requires DependsOn(deps[id := stored], d, n) && forall n :: n in stored ==> n in values
    ensures var listed := graph[id.name := values];
            if d.name in listed.Keys then n in listed.Keys && Edge(listed, d.name, n)
            else Edge(NameGraph(deps), d.name, n)
    ensures HasName(deps[id := stored], n)
  {
    var listed := graph[id.name := values];
    SameNames(deps, id, stored);
    IdCases(d);
    if d.name in listed.Keys {
      assert d.name == id.name ==> d == id;
      assert d.name != id.name ==> listed[d.name] == deps[d];
      assert Edge(listed, d.name, n);
      assert HasName(deps, n) by { Listed(deps, id); }
    } else {
      DependencyExists(deps, d, n);
      DependencyOf(deps, d, n);
    }
  }

  lemma SameNames(deps: Deps, id: Id, stored: seq<string>)
    requires id in deps
    ensures forall n :: HasName(deps[id := stored], n) <==> HasName(deps, n)
  {
    assert deps[id := stored].Keys == deps.Keys;
  }

  // `cleared` lost the name from the lists of `done`, gained nothing, and is otherwise
  // the same.
  ghost predicate Cleared(deps: Deps, cleared: Deps, name: string, done: set<Id>) {
    && cleared.Keys == deps.Keys
    && (forall d, n :: DependsOn(cleared, d, n) ==> DependsOn(deps, d, n))
    && (forall d :: d in done ==> !DependsOn(cleared, d, name))
    && (forall d :: d in deps && d !in done ==> cleared[d] == deps[d])
  }

  lemma ClearedSound(deps: Deps, cleared: Deps, name: string, done: set<Id>)
    requires Sound(deps) && Cleared(deps, cleared, name, done)
    ensures Sound(cleared)
  {
    forall d, n | DependsOn(cleared, d, n)
      ensures HasName(cleared, n)
    {
      DependencyExists(deps, d, n);
    }
    FewerDependencies(deps, cleared);
  }

  // `gone` is removed, but what is in `left` stays behind with nothing stored on it.
  function AfterRemoval(cleared: Deps, gone: set<Id>, left: set<Id>): Deps {
    map d | d in cleared && (d !in gone || d in left) :: if d in left then [] else cleared[d]
  }

  // Removing a resource, and others on which nothing depends, after clearing the references
  // held by `done` keeps the catalog sound exactly when the resource's name stays behind or
  // nobody who remains depended on it outside `done`.
  lemma RemovalSoundIff(deps: Deps, cleared: Deps, id: Id, gone: set<Id>, left: set<Id>, done: set<Id>)
    requires Sound(deps) && id in gone && gone <= deps.Keys && left <= gone && Cleared(deps, cleared, id.name, done)
    requires forall d, g :: g in gone && DependsOn(deps, d, g.name) ==> g == id
    ensures Sound(AfterRemoval(cleared, gone, left)) <==>
            id in left || forall d :: DependsOn(deps, d, id.name) && d !in gone ==> d in done
  {
    var next := AfterRemoval(cleared, gone, left);
    ClearedSound(deps, cleared, id.name, done);
    if hidden :| id !in left && DependsOn(deps, hidden, id.name) && hidden !in gone && hidden !in done {
      assert DependsOn(next, hidden, id.name) && !HasName(next, id.name);
      Dangling(next, hidden, id.name);
    } else {
      forall d, n | DependsOn(next, d, n)
        ensures DependsOn(cleared, d, n) && HasName(next, n)
      {
        assert DependsOn(cleared, d, n) && DependsOn(deps, d, n);
        DependencyExists(cleared, d, n);
        assert Resolve(cleared, n).value in next;
      }
      FewerDependencies(cleared, next);
    }
  }

  // Removing resources on which nothing depends keeps the catalog sound.
  lemma UnusedRemovalSound(deps: Deps, gone: set<Id>, left: set<Id>)
    requires Sound(deps) && forall d, g :: g in gone ==> !DependsOn(deps, d, g.name)
    ensures Sound(AfterRemoval(deps, gone, left))
  {
    var next := AfterRemoval(deps, gone, left);
    forall d, n | DependsOn(next, d, n)
      ensures DependsOn(deps, d, n) && HasName(next, n)
    {
      assert DependsOn(deps, d, n);
      DependencyExists(deps, d, n);
      assert Resolve(deps, n).value in next;
    }
    FewerDependencies(deps, next);
  }

  // Replacing one list keeps the catalog sound exactly if every new dependency exists and
  // none leads back.
  lemma ReplaceSoundIff(deps: Deps, id: Id, stored: seq<string>)
    requires Sound(deps) && id in deps
    ensures Sound(deps[id := stored]) <==> LeadsForward(deps, id, stored)
  {
    var next, g := deps[id := stored], NameGraph(deps);
    Listed(deps, id);
    assert NameGraph(next) == g[id.name := stored] by {
      ReplacedGraph(deps, id, stored);
    }
    ReplaceAcyclicIff(g, id.name, stored);
    if n :| n in stored && !HasName(deps, n) {
      assert Edge(NameGraph(next), id.name, n) && n !in NameGraph(next);
    } else {
      forall a, b | Edge(NameGraph(next), a, b)
        ensures b in NameGraph(next)
      {
        assert a != id.name ==> Edge(g, a, b);
      }
    }
  }

  ghost predicate LeadsForward(deps: Deps, id: Id, names: seq<string>) {
    forall n :: n in names ==> HasName(deps, n) && !Reachable(NameGraph(deps), n, id.name)
  }

  lemma ReplacedGraph(deps: Deps, id: Id, stored: seq<string>)
    requires NamesDistinct(deps) && id in deps
    ensures NameGraph(deps[id := stored]) == NameGraph(deps)[id.name := stored]
  {
    var next := deps[id := stored];
    assert NamesDistinct(next);
    Listed(deps, id);
    Listed(next, id);
    forall n
      ensures n in NameGraph(next) <==> n in NameGraph(deps)
      ensures n in NameGraph(next) && n != id.name ==> NameGraph(next)[n] == NameGraph(deps)[n]
    {
      assert Resolve(next, n) == Resolve(deps, n);
    }
  }

  // Reading nothing where something is stored only loses dependencies.
  lemma FewerListsSound(deps: Deps, seen: Deps)
    requires Sound(deps) && seen.Keys == deps.Keys && forall d :: d in deps ==> seen[d] == deps[d] || seen[d] == []
    ensures Sound(seen)
  {
    forall d, n | DependsOn(seen, d, n)
      ensures DependsOn(deps, d, n) && HasName(seen, n)
    {
      DependencyExists(deps, d, n);
    }
    FewerDependencies(deps, seen);
  }
}
