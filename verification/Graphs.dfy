/** Directed graphs given by adjacency lists: paths, cycles, reachability, orders. */
module Graphs {
  type Graph<T> = map<T, seq<T>>

  ghost predicate Edge<T>(g: Graph<T>, a: T, b: T) {
    a in g && b in g[a]
  }

  // Every node that appears as a target is itself a node.
  ghost predicate Closed<T(!new)>(g: Graph<T>) {
    forall a, b :: Edge(g, a, b) ==> b in g
  }

  ghost predicate IsPath<T>(g: Graph<T>, p: seq<T>) {
    && p != []
    && forall i :: 0 <= i < |p| - 1 ==> Edge(g, p[i], p[i + 1])
  }

  ghost predicate IsCycle<T>(g: Graph<T>, p: seq<T>) {
    |p| >= 2 && IsPath(g, p) && p[0] == p[|p| - 1]
  }

  ghost predicate Acyclic<T(!new)>(g: Graph<T>) {
    forall p :: !IsCycle(g, p)
  }

  ghost predicate OnCycle<T(!new)>(g: Graph<T>, a: T) {
    exists p :: IsCycle(g, p) && p[0] == a
  }

  ghost predicate PathBetween<T>(g: Graph<T>, a: T, b: T, p: seq<T>) {
    IsPath(g, p) && p[0] == a && p[|p| - 1] == b
  }

  ghost predicate Reachable<T(!new)>(g: Graph<T>, a: T, b: T) {
    exists p :: PathBetween(g, a, b, p)
  }

  lemma ReachableRefl<T(!new)>(g: Graph<T>, a: T)
    ensures Reachable(g, a, a)
  {
    assert PathBetween(g, a, a, [a]);
  }

  lemma ReachableStep<T(!new)>(g: Graph<T>, a: T, b: T, c: T)
    requires Edge(g, a, b) && Reachable(g, b, c)
    ensures Reachable(g, a, c)
  {
    var p :| PathBetween(g, b, c, p);
    assert PathBetween(g, a, c, [a] + p);
  }

  // A set that contains a node and is closed under edges contains all that the node reaches.
  lemma {:induction false} ClosedSetContainsPath<T(!new)>(g: Graph<T>, s: set<T>, p: seq<T>)
    requires IsPath(g, p) && p[0] in s
    requires forall a, b :: a in s && Edge(g, a, b) ==> b in s
    ensures forall i :: 0 <= i < |p| ==> p[i] in s
  {
    if |p| > 1 {
      assert Edge(g, p[0], p[1]);
      forall i | 0 <= i < |p[1..]| - 1
        ensures Edge(g, p[1..][i], p[1..][i + 1])
      {
        assert Edge(g, p[i + 1], p[i + 1 + 1]);
      }
      ClosedSetContainsPath(g, s, p[1..]);
      forall i | 0 <= i < |p|
        ensures p[i] in s
      {
        if i > 0 { assert p[i] == p[1..][i - 1]; }
      }
    }
  }

  ghost function Members<T>(s: seq<T>): set<T> {
    set x | x in s
  }

  ghost predicate Distinct<T>(order: seq<T>) {
    forall i, j :: 0 <= i < j < |order| ==> order[i] != order[j]
  }

  // Every node of the order comes after all its targets.
  ghost predicate TargetsFirst<T(!new)>(g: Graph<T>, order: seq<T>) {
    forall i, b :: 0 <= i < |order| && Edge(g, order[i], b) ==> b in order[..i]
  }

  lemma TargetsFirstAppend<T(!new)>(g: Graph<T>, order: seq<T>, a: T)
    requires TargetsFirst(g, order) && Distinct(order) && a !in order
    requires forall b :: Edge(g, a, b) ==> b in order
    ensures TargetsFirst(g, order + [a]) && Distinct(order + [a])
  {
    var longer := order + [a];
    forall i, b | 0 <= i < |longer| && Edge(g, longer[i], b)
      ensures b in longer[..i]
    {
      if i < |order| {
        assert longer[..i] == order[..i];
        assert Edge(g, order[i], b);
      } else {
        assert longer[..i] == order;
      }
    }
  }

  // Along a path the position in such an order strictly decreases.
  lemma {:induction false} PathDescends<T(!new)>(g: Graph<T>, order: seq<T>, p: seq<T>, at: nat)
    requires TargetsFirst(g, order) && IsPath(g, p)
    requires at < |order| && p[0] == order[at]
    ensures |p| > 1 ==> p[|p| - 1] in order[..at]
    decreases |p|
  {
    if |p| > 1 {
      assert Edge(g, order[at], p[0 + 1]);
      var next :| 0 <= next < at && order[next] == p[1];
      var rest := p[1..];
      forall i | 0 <= i < |rest| - 1
        ensures Edge(g, rest[i], rest[i + 1])
      {
        assert Edge(g, p[i + 1], p[i + 1 + 1]);
      }
      PathDescends(g, order, rest, next);
      if |rest| > 1 {
        var k :| 0 <= k < next && order[k] == rest[|rest| - 1];
        assert order[..at][k] == p[|p| - 1];
      } else {
        assert order[..at][next] == p[|p| - 1];
      }
    }
  }

  // A graph with such an order over all its nodes has no cycle.
  lemma OrderImpliesAcyclic<T(!new)>(g: Graph<T>, order: seq<T>)
    requires TargetsFirst(g, order) && Distinct(order)
    requires forall a :: a in g ==> a in order
    ensures Acyclic(g)
  {
    forall p | IsCycle(g, p)
      ensures false
    {
      assert Edge(g, p[0], p[0 + 1]);
      var at :| 0 <= at < |order| && order[at] == p[0];
      assert order[at] !in order[..at];
      PathDescends(g, order, p, at);
    }
  }

  // Dropping edges keeps a graph acyclic.
  lemma FewerEdgesAcyclic<T(!new)>(g: Graph<T>, smaller: Graph<T>)
    requires Acyclic(g)
    requires forall a, b :: Edge(smaller, a, b) ==> Edge(g, a, b)
    ensures Acyclic(smaller)
  {
    forall p | IsCycle(smaller, p)
      ensures false
    {
      assert IsCycle(g, p);
    }
  }

  // If `changed` agrees with an acyclic graph `inside` on a set of nodes that it never
  // leaves, and has no new edges elsewhere, then it is acyclic.
  lemma AcyclicBySplit<T(!new)>(g: Graph<T>, inside: Graph<T>, changed: Graph<T>, s: set<T>)
    requires Acyclic(g) && Acyclic(inside)
    requires forall a, b :: a in s && Edge(changed, a, b) ==> b in s && Edge(inside, a, b)
    requires forall a, b :: a !in s && Edge(changed, a, b) ==> Edge(g, a, b)
    ensures Acyclic(changed)
  {
    forall p | IsCycle(changed, p)
      ensures false
    {
      if i :| 0 <= i < |p| && p[i] in s {
        SuffixIsPath(changed, p, i);
        ClosedSetContainsPath(changed, s, p[i..]);
        assert p[i..][|p[i..]| - 1] == p[|p| - 1];
        ClosedSetContainsPath(changed, s, p);
        assert IsCycle(inside, p);
      } else {
        assert IsCycle(g, p);
      }
    }
  }

  lemma SuffixIsPath<T(!new)>(g: Graph<T>, p: seq<T>, from: nat)
    requires IsPath(g, p) && from < |p|
    ensures IsPath(g, p[from..])
  {
    forall i | 0 <= i < |p[from..]| - 1
      ensures Edge(g, p[from..][i], p[from..][i + 1])
    {
      assert Edge(g, p[from + i], p[from + i + 1]);
    }
  }

  lemma {:induction false} FirstHit<T>(p: seq<T>, a: T) returns (k: nat)
    requires a in p
    ensures k < |p| && p[k] == a && a !in p[..k]
  {
    if p[0] == a {
      k := 0;
    } else {
      k := FirstHit(p[1..], a);
      assert p[..k + 1] == [p[0]] + p[1..][..k];
      k := k + 1;
    }
  }

  // Up to its first visit to `a`, a path does not use the targets of `a`.
  lemma PathAvoids<T(!new)>(g: Graph<T>, h: Graph<T>, p: seq<T>, a: T) returns (q: seq<T>)
    requires IsPath(g, p) && a in p
    requires forall x, y :: x != a && Edge(g, x, y) ==> Edge(h, x, y)
    ensures PathBetween(h, p[0], a, q)
  {
    var k := FirstHit(p, a);
    q := p[..k + 1];
    forall i | 0 <= i < |q| - 1
      ensures Edge(h, q[i], q[i + 1])
    {
      assert Edge(g, p[i], p[i + 1]) && p[i] in p[..k];
    }
  }

  // Walking a cycle once, starting from any of its nodes.
  lemma RotateCycle<T(!new)>(g: Graph<T>, c: seq<T>, at: nat) returns (r: seq<T>)
    requires IsCycle(g, c) && at < |c| - 1
    ensures IsCycle(g, r) && r[0] == c[at]
  {
    r := c[at..] + c[1..at + 1];
    forall i | 0 <= i < |r| - 1
      ensures Edge(g, r[i], r[i + 1])
    {
      if i < |c| - 1 - at {
        assert Edge(g, c[at + i], c[at + i + 1]);
      } else {
        var j := i - (|c| - 1 - at);
        assert r[i] == c[j] && r[i + 1] == c[j + 1];
        assert Edge(g, c[j], c[j + 1]);
      }
    }
    assert r[|r| - 1] == c[at];
  }

  // Giving one node new targets keeps a graph acyclic exactly if none of them led to it.
  lemma ReplaceAcyclicIff<T(!new)>(g: Graph<T>, a: T, targets: seq<T>)
    requires Acyclic(g)
    ensures Acyclic(g[a := targets]) <==> forall b :: b in targets ==> !Reachable(g, b, a)
  {
    var h := g[a := targets];
    if b :| b in targets && Reachable(g, b, a) {
      var p :| PathBetween(g, b, a, p);
      var q := PathAvoids(g, h, p, a);
      assert Edge(h, a, b);
      assert IsCycle(h, [a] + q);
    } else {
      forall c | IsCycle(h, c)
        ensures false
      {
        LeadsBack(g, a, targets, c);
      }
    }
  }

  lemma LeadsBack<T(!new)>(g: Graph<T>, a: T, targets: seq<T>, c: seq<T>)
    requires Acyclic(g) && IsCycle(g[a := targets], c)
    ensures exists b :: b in targets && Reachable(g, b, a)
  {
    var h := g[a := targets];
    if at: nat :| at < |c| - 1 && c[at] == a {
      var r := RotateCycle(h, c, at);
      assert Edge(h, r[0], r[0 + 1]);
      SuffixIsPath(h, r, 1);
      assert r[1..][|r[1..]| - 1] == a;
      var q := PathAvoids(h, g, r[1..], a);
      assert PathBetween(g, r[1], a, q);
    } else {
      CycleElsewhere(g, h, c, a);
      assert false;
    }
  }

  lemma CycleElsewhere<T(!new)>(g: Graph<T>, h: Graph<T>, c: seq<T>, a: T)
    requires IsCycle(h, c) && forall at: nat :: at < |c| - 1 ==> c[at] != a
    requires forall x, y :: x != a && Edge(h, x, y) ==> Edge(g, x, y)
    ensures IsCycle(g, c)
  {
  }

  lemma PathExtend<T(!new)>(g: Graph<T>, p: seq<T>, a: T)
    requires IsPath(g, p) && Edge(g, p[|p| - 1], a)
    ensures IsPath(g, p + [a])
  {
    forall i | 0 <= i < |p + [a]| - 1
      ensures Edge(g, (p + [a])[i], (p + [a])[i + 1])
    {
      if i < |p| - 1 { assert Edge(g, p[i], p[i + 1]); }
    }
  }

  // Walking on from a path back to one of its nodes closes a cycle through that node.
  lemma PathClosesCycle<T(!new)>(g: Graph<T>, p: seq<T>, a: T)
    requires IsPath(g, p + [a]) && a in p
    ensures OnCycle(g, a)
  {
    var k :| 0 <= k < |p| && p[k] == a;
    SuffixIsPath(g, p + [a], k);
    assert IsCycle(g, (p + [a])[k..]);
  }
}
