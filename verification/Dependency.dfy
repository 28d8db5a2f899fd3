/** Dependency validation: the depth-first search over `visiting` and `visited` sets. */
module Dependency {
  import opened Wrappers
  import opened Graphs

  // All names the search can meet: the keys and everything listed as a dependency.
  ghost function Universe(graph: Graph<string>): set<string> {
    graph.Keys + set a, i | a in graph && 0 <= i < |graph[a]| :: graph[a][i]
  }

  datatype Verdict = Valid | Missing(name: string) | Cyclic(name: string)

  // The two sets the search threads through its recursion. `order` lists `visited` in
  // the order in which it grew.
  class Search {
    const graph: Graph<string>
    var visiting: set<string>
    var visited: set<string>
    ghost var order: seq<string>

    constructor (graph: Graph<string>)
      ensures this.graph == graph && visiting == {} && order == []
      ensures Consistent()
    {
      this.graph := graph;
      visiting, visited, order := {}, {}, [];
    }

    ghost predicate Consistent()
      reads this
    {
      && visited == Members(order) && visited <= Universe(graph)
      && Distinct(order)
      && TargetsFirst(graph, order)
      && visiting !! visited
    }

    // `path` is the chain of calls that led here: the names being visited, in order.
    method Visit(name: string, ghost path: seq<string>) returns (r: Result<(), string>)
      requires Consistent()
      requires name in Universe(graph)
      requires IsPath(graph, path + [name]) && visiting == Members(path)
      modifies this
      ensures r.Ok? ==> Consistent() && visiting == old(visiting)
      ensures r.Ok? ==> old(order) <= order && old(visited) <= visited && name in visited
      ensures r.Err? ==> OnCycle(graph, r.error)
      decreases Universe(graph) - visiting
    {
      if name in visited {
        return Ok(());
      }
      if name in visiting {
        PathClosesCycle(graph, path, name);
        return Err(name);
      }
      visiting := visiting + {name};
      if name in graph {
        var dependencies := graph[name];
        var i := 0;
        while i < |dependencies|
          invariant 0 <= i <= |dependencies|
          invariant Consistent() && visiting == old(visiting) + {name}
          invariant old(order) <= order && old(visited) <= visited
          invariant forall j :: 0 <= j < i ==> dependencies[j] in visited
        {
          assert Edge(graph, name, dependencies[i]);
          PathExtend(graph, path + [name], dependencies[i]);
          var inner := Visit(dependencies[i], path + [name]);
          if inner.Err? {
            return inner;
          }
          i := i + 1;
        }
        assert forall b :: Edge(graph, name, b) ==> b in order;
      }
      TargetsFirstAppend(graph, order, name);
      visiting := visiting - {name};
      visited := visited + {name};
      order := order + [name];
      return Ok(());
    }
  }

  // The check behind every dependency edit and behind the boot sequence. The keys are
  // taken in any order, as a hash map yields them.
  method ValidateGraph(graph: Graph<string>) returns (verdict: Verdict, ghost order: seq<string>)
    ensures verdict.Valid? <==> Closed(graph) && Acyclic(graph)
    ensures verdict.Missing? ==> verdict.name !in graph && exists a :: Edge(graph, a, verdict.name)
    ensures verdict.Cyclic? ==> Closed(graph) && OnCycle(graph, verdict.name)
    ensures verdict.Valid? ==>
              Distinct(order) && TargetsFirst(graph, order) && Members(order) == graph.Keys
  {
    order := [];
    var unchecked := graph.Keys;
    while unchecked != {}
      invariant unchecked <= graph.Keys
      invariant forall a, b :: Edge(graph, a, b) && a !in unchecked ==> b in graph
      decreases unchecked
    {
      var name :| name in unchecked;
      var dependencies := graph[name];
      var i := 0;
      while i < |dependencies|
        invariant 0 <= i <= |dependencies|
        invariant forall j :: 0 <= j < i ==> dependencies[j] in graph
      {
        if dependencies[i] !in graph {
          assert Edge(graph, name, dependencies[i]);
          return Missing(dependencies[i]), [];
        }
        i := i + 1;
      }
      unchecked := unchecked - {name};
    }
    var search := new Search(graph);
    var roots := graph.Keys;
    while roots != {}
      invariant fresh(search) && search.graph == graph
      invariant search.Consistent() && search.visiting == {}
      invariant roots <= graph.Keys && graph.Keys - roots <= search.visited
      decreases roots
    {
      var name :| name in roots;
      var r := search.Visit(name, []);
      if r.Err? {
        return Cyclic(r.error), [];
      }
      roots := roots - {name};
    }
    assert Universe(graph) == graph.Keys by {
      assert forall a, i :: a in graph && 0 <= i < |graph[a]| ==> Edge(graph, a, graph[a][i]);
    }
    assert forall a :: a in graph ==> a in search.visited;
    OrderImpliesAcyclic(graph, search.order);
    order := search.order;
    return Valid, order;
  }
}
