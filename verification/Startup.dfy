/**
 Dependency-ordered start: the mutual recursion of `jail::start_with_stack` and
 `bhyve::start_with_stack_mode` over a shared stack of names, and the boot sequence.
 */
module Startup {
  import opened Wrappers
  import opened Text
  import opened Graphs
  import opened Dependency
  import opened Catalog
  import opened Registry

  // One run of `start_inner`: whether it reported success and whether the resource is up
  // afterwards. A failed run may leave its resource up.
  datatype Attempt = Attempt(id: Id, ok: bool, up: bool)

  datatype Outcome = Started | CycleAt(name: string) | NoSuch(name: string) | Broken(id: Id)

  datatype BootOutcome = Booted | Rejected | Unreadable(id: Id) | Stopped(outcome: Outcome)

  // ---- The graph over resources ----

  function Targets(deps: Deps, names: seq<string>): (ids: seq<Id>)
    ensures forall b :: b in ids <==> b.name in names && Resolve(deps, b.name) == Some(b)
  {
    if names == [] then []
    else
      (if Resolve(deps, names[0]).Some? then [Resolve(deps, names[0]).value] else [])
      + Targets(deps, names[1..])
  }

  ghost function IdGraph(deps: Deps): Graph<Id> {
    map id | id in deps :: Targets(deps, deps[id])
  }

  lemma IdEdge(deps: Deps, a: Id, b: Id)
    ensures Edge(IdGraph(deps), a, b) <==> DependsOn(deps, a, b.name) && Resolve(deps, b.name) == Some(b)
  {
  }

  // ---- The record of a run ----

  ghost function Up(log: seq<Attempt>): set<Id> {
    set i | 0 <= i < |log| && log[i].up :: log[i].id
  }

  // Everything `id` depends on exists and is up, and `id` itself is not.
  ghost predicate Ready(deps: Deps, up: set<Id>, id: Id) {
    && id !in up
    && forall n :: n in DepsOf(deps, id) ==>
         Resolve(deps, n).Some? && Resolve(deps, n).value in up
  }

  // Every `start_inner` ran when its resource was ready, given what was up initially.
  ghost predicate OrderedFrom(deps: Deps, initial: set<Id>, log: seq<Attempt>) {
    forall i :: 0 <= i < |log| ==> Ready(deps, initial + Up(log[..i]), log[i].id)
  }

  lemma UpAppend(log: seq<Attempt>, a: Attempt)
    ensures Up(log + [a]) == Up(log) + if a.up then {a.id} else {}
  {
    forall i | 0 <= i < |log| && log[i].up
      ensures log[i].id in Up(log + [a])
    {
      assert (log + [a])[i] == log[i];
    }
    assert (log + [a])[|log|] == a;
  }

  lemma OrderedAppend(deps: Deps, initial: set<Id>, log: seq<Attempt>, a: Attempt)
    requires OrderedFrom(deps, initial, log) && Ready(deps, initial + Up(log), a.id)
    ensures OrderedFrom(deps, initial, log + [a])
  {
    forall i | 0 <= i < |log + [a]|
      ensures Ready(deps, initial + Up((log + [a])[..i]), (log + [a])[i].id)
    {
      if i < |log| {
        assert (log + [a])[..i] == log[..i];
      } else {
        assert (log + [a])[..i] == log;
      }
    }
  }

  // Each resource comes up at most once in an ordered record.
  lemma StartedAtMostOnce(deps: Deps, initial: set<Id>, log: seq<Attempt>, i: nat, j: nat)
    requires OrderedFrom(deps, initial, log) && i < j < |log| && log[i].up
    ensures log[i].id != log[j].id
  {
    assert log[..j][i] == log[i];
    assert log[i].id in Up(log[..j]);
  }

  ghost predicate DependencyClosed(deps: Deps, up: set<Id>) {
    forall id, n :: id in up && n in DepsOf(deps, id) ==>
      Resolve(deps, n).Some? && Resolve(deps, n).value in up
  }

  // An ordered record never leaves a resource up without its dependencies.
  lemma {:induction false} OrderedIsDependencyClosed(deps: Deps, initial: set<Id>, log: seq<Attempt>)
    requires OrderedFrom(deps, initial, log) && DependencyClosed(deps, initial)
    ensures DependencyClosed(deps, initial + Up(log))
    decreases |log|
  {
    if log == [] {
      assert initial + Up(log) == initial;
    } else {
      var shorter, a := log[..|log| - 1], log[|log| - 1];
      assert log == shorter + [a];
      forall i | 0 <= i < |shorter|
        ensures Ready(deps, initial + Up(shorter[..i]), shorter[i].id)
      {
        assert shorter[..i] == log[..i];
      }
      OrderedIsDependencyClosed(deps, initial, shorter);
      UpAppend(shorter, a);
      assert Ready(deps, initial + Up(log[..|log| - 1]), a.id);
    }
  }

  // What is up together with everything it depends on contains all that it reaches.
  lemma ClosedContainsReachable(deps: Deps, up: set<Id>, a: Id, b: Id)
    requires DependencyClosed(deps, up) && a in up && Reachable(IdGraph(deps), a, b)
    ensures b in up
  {
    var p :| PathBetween(IdGraph(deps), a, b, p);
    forall x, y | x in up && Edge(IdGraph(deps), x, y)
      ensures y in up
    {
      IdEdge(deps, x, y);
    }
    ClosedSetContainsPath(IdGraph(deps), up, p);
  }

  // ---- What the two dependency errors mean ----

  // A chain of dependencies from `from` ends at a name it has already been through.
  ghost predicate Lasso(deps: Deps, from: Id, name: string, p: seq<Id>, back: nat) {
    && IsPath(IdGraph(deps), p) && p[0] == from
    && back < |p| - 1 && p[back].name == p[|p| - 1].name == name
  }

  ghost predicate RunsInCircle(deps: Deps, from: Id, name: string) {
    exists p, back :: Lasso(deps, from, name, p, back)
  }

  // A chain of dependencies from `from` leads to a resource that lists an unknown name.
  ghost predicate DeadEnd(deps: Deps, from: Id, name: string, p: seq<Id>) {
    && IsPath(IdGraph(deps), p) && p[0] == from
    && DependsOn(deps, p[|p| - 1], name) && Resolve(deps, name).None?
  }

  ghost predicate LeadsToUnknown(deps: Deps, from: Id, name: string) {
    exists p :: DeadEnd(deps, from, name, p)
  }

  // The graph has a node for listed names only and every dependency of a listed resource.
  ghost predicate CoversLists(graph: Graph<string>, deps: Deps, listing: set<Id>) {
    && listing <= deps.Keys
    && (forall n :: n in graph ==> Id(Jail, n) in listing || Id(Vm, n) in listing)
    && forall a, n :: a in listing && DependsOn(deps, a, n) ==> Edge(graph, a.name, n)
  }

  // After validation of a listing, neither error can come from a listed resource whose
  // start reads no list that validation has missed.
  lemma ValidatedHasNoErrors(deps: Deps, listing: set<Id>, graph: Graph<string>, from: Id, name: string)
    requires NamesDistinct(deps) && CoversLists(graph, deps, listing)
    requires Closed(graph) && Acyclic(graph) && from in listing
    ensures !RunsInCircle(deps, from, name) && !LeadsToUnknown(deps, from, name)
  {
    forall p | IsPath(IdGraph(deps), p) && p[0] == from
      ensures !DeadEnd(deps, from, name, p)
      ensures forall back :: !Lasso(deps, from, name, p, back)
    {
      PathStaysListed(deps, listing, graph, p);
      if DeadEnd(deps, from, name, p) {
        ListedEdge(deps, listing, graph, p[|p| - 1], name);
      }
      NamesFormPath(deps, listing, graph, p);
      forall back: nat
        ensures !Lasso(deps, from, name, p, back)
      {
        if Lasso(deps, from, name, p, back) {
          ReturnIsCycle(graph, seq(|p|, i requires 0 <= i < |p| => NameOf(p[i])), back);
        }
      }
    }
  }

  lemma ReturnIsCycle(graph: Graph<string>, names: seq<string>, back: nat)
    requires IsPath(graph, names) && back < |names| - 1 && names[back] == names[|names| - 1]
    ensures OnCycle(graph, names[back])
  {
    SuffixIsPath(graph, names, back);
    assert IsCycle(graph, names[back..]);
  }

  lemma PathStaysListed(deps: Deps, listing: set<Id>, graph: Graph<string>, p: seq<Id>)
    requires NamesDistinct(deps) && CoversLists(graph, deps, listing) && Closed(graph)
    requires IsPath(IdGraph(deps), p) && p[0] in listing
    ensures forall i :: 0 <= i < |p| ==> p[i] in listing
  {
    forall a, b | a in listing && Edge(IdGraph(deps), a, b)
      ensures b in listing
    {
      IdEdge(deps, a, b);
      ListedEdge(deps, listing, graph, a, b.name);
    }
    ClosedSetContainsPath(IdGraph(deps), listing, p);
  }

  function NameOf(id: Id): string {
    id.name
  }

  lemma ListedEdge(deps: Deps, listing: set<Id>, graph: Graph<string>, a: Id, n: string)
    requires NamesDistinct(deps) && CoversLists(graph, deps, listing) && Closed(graph)
    requires a in listing && DependsOn(deps, a, n)
    ensures Edge(graph, a.name, n) && Resolve(deps, n).Some? && Resolve(deps, n).value in listing
  {
    assert Edge(graph, a.name, n);
    var b := if Id(Vm, n) in listing then Id(Vm, n) else Id(Jail, n);
    Catalog.Listed(deps, b);
  }

  lemma NamesFormPath(deps: Deps, listing: set<Id>, graph: Graph<string>, p: seq<Id>)
    requires NamesDistinct(deps) && CoversLists(graph, deps, listing) && Closed(graph)
    requires IsPath(IdGraph(deps), p) && forall i :: 0 <= i < |p| ==> p[i] in listing
    ensures IsPath(graph, seq(|p|, i requires 0 <= i < |p| => NameOf(p[i])))
  {
    var names := seq(|p|, i requires 0 <= i < |p| => NameOf(p[i]));
    forall i | 0 <= i < |names| - 1
      ensures Edge(graph, names[i], names[i + 1])
    {
      IdEdge(deps, p[i], p[i + 1]);
      ListedEdge(deps, listing, graph, p[i], p[i + 1].name);
    }
  }

  // In a sound catalog no start of an existing resource can fail for its dependencies.
  lemma SoundHasNoErrors(deps: Deps, from: Id, name: string)
    requires Sound(deps) && from in deps
    ensures !RunsInCircle(deps, from, name) && !LeadsToUnknown(deps, from, name)
  {
    forall a, n | DependsOn(deps, a, n)
      ensures Edge(NameGraph(deps), a.name, n)
    {
      DependencyOf(deps, a, n);
    }
    assert CoversLists(NameGraph(deps), deps, deps.Keys) by {
      forall n | n in NameGraph(deps)
        ensures Id(Jail, n) in deps || Id(Vm, n) in deps
      {
        IdCases(Resolve(deps, n).value);
      }
    }
    ValidatedHasNoErrors(deps, deps.Keys, NameGraph(deps), from, name);
  }

  // ---- What can be started ----

  // Some order of starts, from nothing running, brings the resource up.
  ghost predicate Startable(deps: Deps, id: Id) {
    exists log :: OrderedFrom(deps, {}, log) && id in Up(log)
  }

  ghost predicate HasNoErrors(deps: Deps, id: Id) {
    forall name :: !RunsInCircle(deps, id, name) && !LeadsToUnknown(deps, id, name)
  }

  lemma UpIsStartable(deps: Deps, log: seq<Attempt>, ids: set<Id>)
    requires OrderedFrom(deps, {}, log) && ids <= {} + Up(log)
    ensures forall id :: id in ids ==> Startable(deps, id)
  {
  }

  // The two errors are exactly what can keep a resource from being started.
  lemma StartableIff(deps: Deps, id: Id)
    requires NamesDistinct(deps) && id in deps
    ensures Startable(deps, id) <==> HasNoErrors(deps, id)
  {
    if Startable(deps, id) {
      var log :| OrderedFrom(deps, {}, log) && id in Up(log);
      forall name
        ensures !RunsInCircle(deps, id, name) && !LeadsToUnknown(deps, id, name)
      {
        StartedHasNoErrors(deps, log, id, name);
      }
    }
    if HasNoErrors(deps, id) {
      assert IsPath(IdGraph(deps), [] + [id]);
      var log := BringUp(deps, id, [], id, []);
    }
  }

  // What came up is at the end of no circle and reaches no unknown name: along a chain of
  // dependencies, each resource came up before the one that depends on it.
  lemma StartedHasNoErrors(deps: Deps, log: seq<Attempt>, from: Id, name: string)
    requires NamesDistinct(deps) && OrderedFrom(deps, {}, log) && from in Up(log)
    ensures !RunsInCircle(deps, from, name) && !LeadsToUnknown(deps, from, name)
  {
    var i :| 0 <= i < |log| && log[i].up && log[i].id == from;
    forall p | IsPath(IdGraph(deps), p) && p[0] == from
      ensures !DeadEnd(deps, from, name, p) && forall back :: !Lasso(deps, from, name, p, back)
    {
      EndResolves(deps, log, i, p, name);
      forall back: nat
        ensures !Lasso(deps, from, name, p, back)
      {
        NeverReturns(deps, log, i, p, back);
      }
    }
  }

  lemma EndResolves(deps: Deps, log: seq<Attempt>, i: nat, p: seq<Id>, name: string)
    requires OrderedFrom(deps, {}, log) && i < |log| && log[i].up
    requires IsPath(IdGraph(deps), p) && p[0] == log[i].id
    ensures DependsOn(deps, p[|p| - 1], name) ==> Resolve(deps, name).Some?
  {
    var last := CameUp(deps, log, i, p, |p| - 1);
    assert Ready(deps, {} + Up(log[..last]), log[last].id);
  }

  lemma NeverReturns(deps: Deps, log: seq<Attempt>, i: nat, p: seq<Id>, back: nat)
    requires NamesDistinct(deps) && OrderedFrom(deps, {}, log) && i < |log| && log[i].up
    requires IsPath(IdGraph(deps), p) && p[0] == log[i].id
    ensures back < |p| - 1 ==> p[back].name != p[|p| - 1].name
  {
    if back < |p| - 1 {
      var later := CameUp(deps, log, i, p, back);
      SuffixIsPath(IdGraph(deps), p, back);
      var earlier := CameUp(deps, log, later, p[back..], |p| - 1 - back);
      StartedAtMostOnce(deps, {}, log, earlier, later);
      if p[back].name == p[|p| - 1].name {
        SameResource(deps, p, back);
      }
    }
  }

  // Where two resources on a path have one name, and the first depends on something, they are
  // one resource.
  lemma SameResource(deps: Deps, p: seq<Id>, back: nat)
    requires NamesDistinct(deps) && IsPath(IdGraph(deps), p) && back < |p| - 1
    requires p[back].name == p[|p| - 1].name
    ensures p[back] == p[|p| - 1]
  {
    var last := |p| - 2;
    assert Edge(IdGraph(deps), p[back], p[back + 1]) && Edge(IdGraph(deps), p[last], p[last + 1]);
    IdEdge(deps, p[back], p[back + 1]);
    IdEdge(deps, p[last], p[last + 1]);
  }

  // The k-th resource on a path came up at least k attempts before the first.
  lemma {:induction false} CameUp(deps: Deps, log: seq<Attempt>, i: nat, p: seq<Id>, k: nat) returns (at: nat)
    requires OrderedFrom(deps, {}, log) && i < |log| && log[i].up
    requires IsPath(IdGraph(deps), p) && p[0] == log[i].id && k < |p|
    ensures at + k <= i && log[at].up && log[at].id == p[k]
  {
    if k == 0 {
      at := i;
    } else {
      var before := CameUp(deps, log, i, p, k - 1);
      assert Edge(IdGraph(deps), p[k - 1], p[k - 1 + 1]);
      IdEdge(deps, p[k - 1], p[k]);
      assert Ready(deps, {} + Up(log[..before]), log[before].id);
      assert p[k] in Up(log[..before]);
      at :| 0 <= at < |log[..before]| && log[..before][at].up && log[..before][at].id == p[k];
    }
  }

  // The starts of an ideal host: every attempt succeeds. The resources of the path are being
  // started already.
  lemma BringUp(deps: Deps, from: Id, path: seq<Id>, id: Id, log: seq<Attempt>) returns (after: seq<Attempt>)
    requires HasNoErrors(deps, from) && id in deps && OrderedFrom(deps, {}, log)
    requires IsPath(IdGraph(deps), path + [id]) && (path + [id])[0] == from
    ensures OrderedFrom(deps, {}, after) && Up(log) <= Up(after) && id in Up(after)
    decreases deps.Keys - Members(path), 1, 0
  {
    after := log;
    if id !in Up(after) {
      after := BringUpDependencies(deps, from, path, id, |deps[id]|, log);
    }
    if id !in Up(after) {
      var a := Attempt(id, true, true);
      assert {} + Up(after) == Up(after);
      assert Ready(deps, {} + Up(after), id);
      OrderedAppend(deps, {}, after, a);
      UpAppend(after, a);
      after := after + [a];
    }
  }

  lemma BringUpDependencies(deps: Deps, from: Id, path: seq<Id>, id: Id, n: nat, log: seq<Attempt>)
    returns (after: seq<Attempt>)
    requires HasNoErrors(deps, from) && id in deps && n <= |deps[id]| && OrderedFrom(deps, {}, log)
    requires IsPath(IdGraph(deps), path + [id]) && (path + [id])[0] == from
    ensures OrderedFrom(deps, {}, after) && Up(log) <= Up(after)
    ensures forall k :: 0 <= k < n ==> Resolve(deps, deps[id][k]).Some? && Resolve(deps, deps[id][k]).value in Up(after)
    decreases deps.Keys - Members(path), 0, n
  {
    after := log;
    if n > 0 {
      var before := BringUpDependencies(deps, from, path, id, n - 1, log);
      var b := NextOnPath(deps, from, path, id, deps[id][n - 1]);
      after := BringUp(deps, from, path + [id], b, before);
    }
  }

  // Without errors, a dependency exists, and the path has not been through its resource.
  lemma NextOnPath(deps: Deps, from: Id, path: seq<Id>, id: Id, n: string) returns (b: Id)
    requires HasNoErrors(deps, from) && DependsOn(deps, id, n)
    requires IsPath(IdGraph(deps), path + [id]) && (path + [id])[0] == from
    ensures Resolve(deps, n) == Some(b) && IsPath(IdGraph(deps), path + [id] + [b])
    ensures (path + [id] + [b])[0] == from
    ensures Members(path + [id]) == Members(path) + {id} && id !in path
  {
    DependencyResolves(deps, from, path + [id], n);
    b := Resolve(deps, n).value;
    IdEdge(deps, id, b);
    PathExtend(IdGraph(deps), path + [id], b);
    IsNewOnPath(deps, from, path, id);
  }

  lemma DependencyResolves(deps: Deps, from: Id, p: seq<Id>, n: string)
    requires HasNoErrors(deps, from) && IsPath(IdGraph(deps), p) && p[0] == from && DependsOn(deps, p[|p| - 1], n)
    ensures Resolve(deps, n).Some?
  {
    assert !LeadsToUnknown(deps, from, n);
    assert !DeadEnd(deps, from, n, p);
  }

  lemma IsNewOnPath(deps: Deps, from: Id, path: seq<Id>, id: Id)
    requires HasNoErrors(deps, from) && IsPath(IdGraph(deps), path + [id]) && (path + [id])[0] == from
    ensures id !in path && Members(path + [id]) == Members(path) + {id}
  {
    assert !RunsInCircle(deps, from, id.name);
    forall k | 0 <= k < |path|
      ensures path[k] != id
    {
      assert !Lasso(deps, from, id.name, path + [id], k);
    }
  }

  ghost function Names(ids: seq<Id>): set<string> {
    set id | id in ids :: id.name
  }

  ghost function ExistingNames(deps: Deps): set<string> {
    set id | id in deps :: id.name
  }

  // The attempts of `after` that are not in `before` start resources below `from`, none of
  // them under a barred name, and only the last can have failed.
  ghost predicate Extends(
    deps: Deps, from: Id, barred: set<string>, before: seq<Attempt>, after: seq<Attempt>, all: bool)
  {
    && before <= after
    && (forall i :: |before| <= i < |after| ==>
          Reachable(IdGraph(deps), from, after[i].id) && after[i].id.name !in barred)
    && (forall i :: |before| <= i < |after| - 1 ==> after[i].ok)
    && (all && |after| > |before| ==> after[|after| - 1].ok)
  }

  lemma ExtendsTwice(
    deps: Deps, from: Id, barred: set<string>, a: seq<Attempt>, b: seq<Attempt>, c: seq<Attempt>, all: bool)
    requires Extends(deps, from, barred, a, b, true) && Extends(deps, from, barred, b, c, all)
    ensures Extends(deps, from, barred, a, c, all)
  {
    assert forall i :: 0 <= i < |b| ==> c[i] == b[i];
  }

  lemma ExtendsOnce(
    deps: Deps, from: Id, barred: set<string>, a: seq<Attempt>, b: seq<Attempt>, c: seq<Attempt>)
    requires Extends(deps, from, barred, a, b, true)
    requires b <= c && |c| == |b| + 1 && c[|b|].id == from && from.name !in barred
    ensures Extends(deps, from, barred, a, c, c[|b|].ok)
  {
    ReachableRefl(IdGraph(deps), from);
    assert forall i :: 0 <= i < |b| ==> c[i] == b[i];
  }

  lemma ExtendsLess(
    deps: Deps, from: Id, barred: set<string>, fewer: set<string>, a: seq<Attempt>, b: seq<Attempt>, all: bool)
    requires Extends(deps, from, barred, a, b, all) && fewer <= barred
    ensures Extends(deps, from, fewer, a, b, all)
  {
  }

  lemma ExtendsAbove(
    deps: Deps, from: Id, to: Id, barred: set<string>, a: seq<Attempt>, b: seq<Attempt>, all: bool)
    requires Extends(deps, to, barred, a, b, all) && Edge(IdGraph(deps), from, to)
    ensures Extends(deps, from, barred, a, b, all)
  {
    forall i | |a| <= i < |b|
      ensures Reachable(IdGraph(deps), from, b[i].id)
    {
      ReachableStep(IdGraph(deps), from, to, b[i].id);
    }
  }

  // The last attempt is a failed one of this resource.
  predicate FailedLast(log: seq<Attempt>, id: Id) {
    log != [] && log[|log| - 1].id == id && !log[|log| - 1].ok
  }

  // ---- The host ----

  // One `start_inner`, as it turns out for a resource that exists: whether it reports success,
  // and whether a failed one leaves its resource up.
  datatype Fate = Fate(ok: bool, up: bool)

  // How the calls of one request or one boot turn out: each `start_inner` and each existence test
  // of a VM, by its number, and the VMs whose configuration cannot be read.
  datatype Calls = Calls(starts: nat -> Fate, overlooks: nat -> bool, unreadable: set<Id>)

  function AttemptOf(deps: Deps, id: Id, fate: Fate): Attempt {
    Attempt(id, fate.ok && id in deps, (fate.ok || fate.up) && id in deps)
  }

  // A VM's configuration can be read.
  predicate Readable(deps: Deps, calls: Calls, id: Id) {
    id in deps && id !in calls.unreadable
  }

  // The i-th attempt went as it had to, and if it was for a VM, that one's configuration was
  // read.
  ghost predicate Happened(deps: Deps, calls: Calls, log: seq<Attempt>, i: nat)
    requires i < |log|
  {
    && log[i] == AttemptOf(deps, log[i].id, calls.starts(i))
    && (log[i].id.kind == Vm ==> Readable(deps, calls, log[i].id))
  }

  ghost predicate AllHappened(deps: Deps, calls: Calls, log: seq<Attempt>) {
    forall i :: 0 <= i < |log| ==> Happened(deps, calls, log, i)
  }

  lemma HappenedAppend(deps: Deps, calls: Calls, log: seq<Attempt>, a: Attempt)
    requires AllHappened(deps, calls, log) && a == AttemptOf(deps, a.id, calls.starts(|log|))
    requires a.id.kind == Vm ==> Readable(deps, calls, a.id)
    ensures AllHappened(deps, calls, log + [a])
  {
    forall i | 0 <= i < |log|
      ensures Happened(deps, calls, log + [a], i)
    {
      assert Happened(deps, calls, log, i);
    }
  }

  lemma NoneFailed(deps: Deps, calls: Calls, log: seq<Attempt>)
    requires AllHappened(deps, calls, log) && forall i: nat :: calls.starts(i).ok
    ensures forall i :: 0 <= i < |log| && log[i].id in deps ==> log[i].ok
  {
    forall i | 0 <= i < |log| && log[i].id in deps
      ensures log[i].ok
    {
      assert Happened(deps, calls, log, i);
    }
  }

  // `deps` are the existing resources with their dependency lists as far as they can be read
  // during one request or one boot: a list that cannot be read counts as empty. No list is
  // read twice, for a resource that was read is up afterwards or ends the request. The stored
  // lists do not change meanwhile, and resources that are up stay up.
  class Host {
    const deps: Deps
    const calls: Calls
    ghost const initial: set<Id>
    var running: set<Id>
    var stack: set<string>
    // What has been run, and how many existence tests have been made.
    var log: seq<Attempt>
    var tests: nat

    constructor (deps: Deps, running: set<Id>, calls: Calls)
      requires running <= deps.Keys
      ensures this.deps == deps && this.calls == calls && this.initial == running == this.running
      ensures log == [] && tests == 0 && Recorded()
    {
      this.deps, this.calls, this.initial := deps, calls, running;
      this.running, this.stack, this.log, this.tests := running, {}, [], 0;
    }

    ghost predicate Recorded()
      reads this
    {
      && running == initial + Up(log) && running <= deps.Keys && OrderedFrom(deps, initial, log)
      && AllHappened(deps, calls, log)
    }

    // The last existence test has failed.
    predicate LastTestFailed()
      reads this
    {
      tests > 0 && calls.overlooks(tests - 1)
    }

    // No call fails.
    ghost predicate AllWork() {
      && (forall i: nat :: calls.starts(i).ok) && (forall k: nat :: !calls.overlooks(k))
      && calls.unreadable == {}
    }

    // `path` is the chain of starts in progress; the stack holds their names.
    ghost predicate MayEnter(id: Id, path: seq<Id>)
      reads this
    {
      && Recorded()
      && IsPath(IdGraph(deps), path + [id])
      && stack == Names(path)
    }

    // What every recursive start guarantees, whatever its outcome: nothing is stopped,
    // everything is started in order, below `id` and off the stack, and nothing is tried
    // after a failure.
    twostate predicate Exited(id: Id, path: seq<Id>, r: Outcome)
      reads this
    {
      && Recorded()
      && old(running) <= running && old(tests) <= tests
      && Extends(deps, id, old(stack), old(log), log, r.Started?)
      && Explained((path + [id])[0], r)
    }

    // For a VM that is down and whose configuration cannot be read, nothing is started.
    twostate predicate UnreadStartsNothing(id: Id, r: Outcome)
      reads this
    {
      old(id !in running && id.name !in stack) && !Readable(deps, calls, id) ==> r == Broken(id) && log == old(log)
    }

    ghost predicate Explained(from: Id, r: Outcome)
      reads this
    {
      match r
      case Started => true
      case CycleAt(name) => RunsInCircle(deps, from, name)
      case NoSuch(name) => LeadsToUnknown(deps, from, name) || (LastTestFailed() && Id(Vm, name) in deps)
      case Broken(broken) => Reachable(IdGraph(deps), from, broken) && Breaks(broken)
    }

    // The attempt that was the last one, or the reading of a VM's configuration, has failed.
    predicate Breaks(id: Id)
      reads this
    {
      FailedLast(log, id) || (id.kind == Vm && !Readable(deps, calls, id))
    }

    // A start that has stopped for something other than the graph had a failing call.
    ghost predicate StopIsExplained(r: Outcome)
      reads this
    {
      match r
      case Started => false
      case CycleAt(_) => true
      case NoSuch(name) => (forall id :: id in deps ==> id.name != name) || (LastTestFailed() && Id(Vm, name) in deps)
      case Broken(id) => Breaks(id)
    }

    // The existence test of a VM; a failed `zfs list` reads as absence.
    method VmFound(name: string) returns (found: bool)
      modifies `tests
      ensures tests == old(tests) + 1 && (found <==> Id(Vm, name) in deps && !LastTestFailed())
    {
      found := Id(Vm, name) in deps && !calls.overlooks(tests);
      tests := tests + 1;
    }

    // `read_config`, which fails for a VM that does not exist.
    method ReadConfig(id: Id) returns (readable: bool)
      ensures readable <==> Readable(deps, calls, id)
    {
      readable := id in deps && id !in calls.unreadable;
    }

    // `start_inner`, seen from outside: it succeeds and the resource is up, or it fails
    // and the resource may be up or not. What does not exist does not come up.
    method StartInner(id: Id) returns (ok: bool)
      requires Recorded() && Ready(deps, running, id) && (id.kind == Vm ==> Readable(deps, calls, id))
      modifies `running, `log
      ensures Recorded() && old(running) <= running
      ensures log == old(log) + [AttemptOf(deps, id, calls.starts(|old(log)|))]
      ensures ok == log[|log| - 1].ok && (ok ==> id in running)
    {
      var attempt := AttemptOf(deps, id, calls.starts(|log|));
      UpAppend(log, attempt);
      OrderedAppend(deps, initial, log, attempt);
      HappenedAppend(deps, calls, log, attempt);
      log := log + [attempt];
      if attempt.up {
        running := running + {id};
      }
      ok := attempt.ok;
    }

    // `jail::start_with_stack`.
    method StartJail(name: string, ghost path: seq<Id>) returns (r: Outcome)
      requires MayEnter(Id(Jail, name), path)
      modifies `running, `stack, `log, `tests
      ensures Exited(Id(Jail, name), path, r)
      ensures r.Started? ==> stack == old(stack) && Id(Jail, name) in running
      decreases ExistingNames(deps) + {name} - stack, 0
    {
      var id := Id(Jail, name);
      if id in running {
        return Started;
      }
      if name in stack {
        ClosesLasso(id, path);
        return CycleAt(name);
      }
      stack := stack + {name};
      ghost var barred := stack;
      r := StartDependencies(id, path);
      ExtendsLess(deps, id, barred, old(stack), old(log), log, r.Started?);
      if !r.Started? {
        return;
      }
      EndIsReachable(IdGraph(deps), path, id);
      ghost var before := log;
      var ok := StartInner(id);
      ExtendsOnce(deps, id, old(stack), old(log), before, log);
      stack := stack - {name};
      return if ok then Started else Broken(id);
    }

    // `bhyve::start_with_stack_mode`.
    method StartVm(name: string, ghost path: seq<Id>) returns (r: Outcome)
      requires MayEnter(Id(Vm, name), path)
      modifies `running, `stack, `log, `tests
      ensures Exited(Id(Vm, name), path, r)
      ensures r.Started? ==> stack == old(stack) && Id(Vm, name) in running
      ensures UnreadStartsNothing(Id(Vm, name), r)
      decreases ExistingNames(deps) + {name} - stack, 0
    {
      var id := Id(Vm, name);
      if id in running {
        return Started;
      }
      if name in stack {
        ClosesLasso(id, path);
        return CycleAt(name);
      }
      stack := stack + {name};
      EndIsReachable(IdGraph(deps), path, id);
      var readable := ReadConfig(id);
      if !readable {
        return Broken(id);
      }
      ghost var barred := stack;
      r := StartDependencies(id, path);
      ExtendsLess(deps, id, barred, old(stack), old(log), log, r.Started?);
      if !r.Started? {
        return;
      }
      ghost var before := log;
      var ok := StartInner(id);
      ExtendsOnce(deps, id, old(stack), old(log), before, log);
      stack := stack - {name};
      return if ok then Started else Broken(id);
    }

    // The loop over the dependencies, which both functions contain.
    method StartDependencies(id: Id, ghost path: seq<Id>) returns (r: Outcome)
      requires Recorded() && IsPath(IdGraph(deps), path + [id])
      requires stack == Names(path + [id]) && id !in running
      modifies `running, `stack, `log, `tests
      ensures Exited(id, path, r)
      ensures r.Started? ==> stack == old(stack) && Ready(deps, running, id)
      decreases ExistingNames(deps) - stack, 2
    {
      var dependencies := DepsOf(deps, id);
      var i := 0;
      while i < |dependencies|
        invariant 0 <= i <= |dependencies|
        invariant Exited(id, path, Started) && stack == old(stack)
        invariant forall j :: 0 <= j < i ==>
                    Resolve(deps, dependencies[j]).Some? && Resolve(deps, dependencies[j]).value in running
      {
        assert DependsOn(deps, id, dependencies[i]);
        ghost var before := log;
        r := StartDependency(id, path, dependencies[i]);
        ExtendsTwice(deps, id, old(stack), old(log), before, log, r.Started?);
        if !r.Started? {
          return;
        }
        i := i + 1;
      }
      assert id !in running by {
        assert id in path + [id];
      }
      return Started;
    }

    method StartDependency(id: Id, ghost path: seq<Id>, dependency: string) returns (r: Outcome)
      requires Recorded() && IsPath(IdGraph(deps), path + [id]) && stack == Names(path + [id])
      requires DependsOn(deps, id, dependency)
      modifies `running, `stack, `log, `tests
      ensures Exited(id, path, r)
      ensures r.Started? ==> stack == old(stack)
      ensures r.Started? ==> Resolve(deps, dependency).Some? && Resolve(deps, dependency).value in running
      decreases ExistingNames(deps) - stack, 1
    {
      if Id(Jail, dependency) in deps {
        DescendTo(id, path, Id(Jail, dependency));
        r := StartJail(dependency, path + [id]);
        ExtendsAbove(deps, id, Id(Jail, dependency), old(stack), old(log), log, r.Started?);
        return;
      }
      var found := VmFound(dependency);
      if found {
        DescendTo(id, path, Id(Vm, dependency));
        r := StartVm(dependency, path + [id]);
        ExtendsAbove(deps, id, Id(Vm, dependency), old(stack), old(log), log, r.Started?);
      } else {
        if Id(Vm, dependency) !in deps {
          assert DeadEnd(deps, (path + [id])[0], dependency, path + [id]);
        }
        return NoSuch(dependency);
      }
    }

    lemma DescendTo(id: Id, path: seq<Id>, b: Id)
      requires IsPath(IdGraph(deps), path + [id])
      requires DependsOn(deps, id, b.name) && Resolve(deps, b.name) == Some(b)
      ensures Edge(IdGraph(deps), id, b) && IsPath(IdGraph(deps), path + [id] + [b])
      ensures b.name in ExistingNames(deps)
    {
      IdEdge(deps, id, b);
      PathExtend(IdGraph(deps), path + [id], b);
    }

    lemma ClosesLasso(id: Id, path: seq<Id>)
      requires IsPath(IdGraph(deps), path + [id]) && id.name in Names(path)
      ensures RunsInCircle(deps, (path + [id])[0], id.name)
    {
      var k :| 0 <= k < |path| && path[k].name == id.name;
      assert Lasso(deps, (path + [id])[0], id.name, path + [id], k);
    }

    lemma SoundIsExplained(id: Id, r: Outcome)
      requires Explained(id, r) && Sound(deps) && id in deps
      ensures HasNoErrors(deps, id) && (r.Started? || r.Broken? || (r.NoSuch? && LastTestFailed()))
    {
      forall name
        ensures !RunsInCircle(deps, id, name) && !LeadsToUnknown(deps, id, name)
      {
        SoundHasNoErrors(deps, id, name);
      }
    }

    // Where no call fails, a resource starts if no chain of dependencies from it circles or
    // reaches an unknown name.
    lemma WorkingIsExplained(id: Id, r: Outcome)
      requires Recorded() && Explained(id, r) && AllWork() && id in deps
      ensures HasNoErrors(deps, id) ==> r.Started?
      ensures !r.Broken? && !LastTestFailed()
    {
      if r.Broken? {
        ReachedExists(deps, id, r.id);
        NoneFailed(deps, calls, log);
      }
    }

    // `jail::start` and `bhyve::start`: a fresh stack for every request.
    method Start(id: Id) returns (r: Outcome)
      requires Recorded()
      modifies `running, `stack, `log, `tests
      ensures Recorded() && Explained(id, r) && old(log) <= log && old(running) <= running
      ensures forall i :: |old(log)| <= i < |log| ==> Reachable(IdGraph(deps), id, log[i].id)
      ensures r.Started? ==> id in running && stack == {} && forall i :: |old(log)| <= i < |log| ==> log[i].ok
      ensures Sound(deps) && id in deps ==> r.Started? || r.Broken? || (r.NoSuch? && LastTestFailed())
      ensures initial == {} && !Startable(deps, id) ==> !r.Started?
      ensures id.kind == Vm && id !in old(running) && !Readable(deps, calls, id) ==> r == Broken(id) && log == old(log)
      ensures AllWork() && id in deps && HasNoErrors(deps, id) ==> r.Started?
    {
      stack := {};
      assert IsPath(IdGraph(deps), [] + [id]) && Names([]) == {};
      IdCases(id);
      if id.kind == Jail {
        r := StartJail(id.name, []);
      } else {
        r := StartVm(id.name, []);
      }
      if Sound(deps) && id in deps { SoundIsExplained(id, r); }
      if AllWork() && id in deps { WorkingIsExplained(id, r); }
      RunningIsStartable(id);
    }

    lemma RunningIsStartable(id: Id)
      requires Recorded()
      ensures initial == {} && id in running ==> Startable(deps, id)
    {
    }

    lemma BootIsExplained(
      pool: Pool, graph: Graph<string>, missed: set<Id>, unread: set<Id>, failed: Id, r: Outcome)
      requires failed in pool.Listing() && deps == pool.DepsRead(unread)
      requires IsListedGraph(graph, pool.DepsSeen(missed), pool.Listing()) && Closed(graph) && Acyclic(graph)
      requires Explained(failed, r) && !r.Started?
      ensures BootIsCovered(pool, missed, unread) ==> r.Broken? || (r.NoSuch? && LastTestFailed())
    {
      if BootIsCovered(pool, missed, unread) && (r.CycleAt? || r.NoSuch?) {
        BootHasNoErrors(pool, graph, missed, unread, failed, r.name);
      }
    }

    // The boot sequence: validate everything, collect what is enabled, start it. Validation
    // does not get to read the lists of `missed`, the next step not the `enabled` properties of
    // `unread`, and the starts not the lists of `unreadLists`.
    method StartEnabled(zfs: Zfs, missed: set<Id>, unread: set<Id>, ghost unreadLists: set<Id>)
      returns (r: BootOutcome)
      requires Recorded() && log == [] && initial == {} && deps == zfs.pool.DepsRead(unreadLists)
      modifies `running, `stack, `log, `tests
      ensures Recorded()
      ensures forall i :: 0 <= i < |log| ==> ReachedFrom(deps, EnabledIds(zfs.pool, unread), log[i].id)
      ensures r.Booted? ==> running == Needed(deps, EnabledIds(zfs.pool, unread))
      ensures r.Booted? ==> forall i :: 0 <= i < |log| ==> log[i].ok
      ensures r.Booted? ==> forall id :: id in EnabledIds(zfs.pool, unread) ==> Startable(deps, id)
      ensures r.Rejected? || r.Unreadable? ==> running == {}
      ensures r.Rejected? <==> !Validates(zfs.pool, missed)
      ensures r.Unreadable? ==> HasBadFlag(zfs.pool, unread, r.id)
      ensures r.Stopped? ==> StopIsExplained(r.outcome)
      ensures r.Stopped? && BootIsCovered(zfs.pool, missed, unreadLists) ==>
                r.outcome.Broken? || (r.outcome.NoSuch? && LastTestFailed())
      ensures r.Stopped? && BootIsCovered(zfs.pool, missed, unreadLists) ==> !AllWork()
      ensures zfs.pool.Invariant() && zfs.pool.ListsEverything() ==> !r.Rejected?
    {
      var valid; ghost var graph;
      valid, graph := ValidateAll(zfs, missed);
      if !valid {
        return Rejected;
      }
      var outcome; ghost var failed;
      r, outcome, failed := StartListed(zfs.pool, unread);
      if r.Stopped? {
        BootIsExplained(zfs.pool, graph, missed, unreadLists, failed, outcome);
        if AllWork() && failed in deps { WorkingIsExplained(failed, outcome); }
      }
    }

    // The part of the boot after validation.
    method StartListed(pool: Pool, unread: set<Id>)
      returns (r: BootOutcome, outcome: Outcome, ghost failed: Id)
      requires Recorded() && log == [] && initial == {}
      modifies `running, `stack, `log, `tests
      ensures Recorded() && !r.Rejected?
      ensures forall i :: 0 <= i < |log| ==> ReachedFrom(deps, EnabledIds(pool, unread), log[i].id)
      ensures r.Booted? ==> running == Needed(deps, EnabledIds(pool, unread))
      ensures r.Booted? ==> forall i :: 0 <= i < |log| ==> log[i].ok
      ensures r.Booted? ==> forall id :: id in EnabledIds(pool, unread) ==> Startable(deps, id)
      ensures r.Unreadable? ==> running == {} && HasBadFlag(pool, unread, r.id)
      ensures r.Stopped? ==> r == Stopped(outcome) && !outcome.Started? && failed in pool.Listing()
      ensures r.Stopped? ==> Explained(failed, outcome)
    {
      outcome, failed := Started, Id(Jail, "");
      var enabled: set<Id>;
      r, enabled := CollectEnabled(pool, unread);
      if !r.Booted? {
        return;
      }
      outcome, failed := StartAll(enabled);
      r := if outcome.Started? then Booted else Stopped(outcome);
    }

    method StartAll(enabled: set<Id>) returns (r: Outcome, ghost failed: Id)
      requires Recorded() && log == []
      modifies `running, `stack, `log, `tests
      ensures Recorded()
      ensures forall i :: 0 <= i < |log| ==> ReachedFrom(deps, enabled, log[i].id)
      ensures r.Started? ==> enabled <= running && forall i :: 0 <= i < |log| ==> log[i].ok
      ensures r.Started? && initial == {} ==>
                running == Needed(deps, enabled) && forall id :: id in enabled ==> Startable(deps, id)
      ensures !r.Started? ==> failed in enabled && Explained(failed, r)
    {
      var todo := enabled;
      failed := Id(Jail, "");
      while todo != {}
        invariant Recorded() && todo <= enabled && enabled - todo <= running
        invariant forall i :: 0 <= i < |log| ==> log[i].ok && ReachedFrom(deps, enabled, log[i].id)
        decreases todo
      {
        var id :| id in todo;
        r := Start(id);
        if !r.Started? {
          return r, id;
        }
        todo := todo - {id};
      }
      r := Started;
      if initial == {} { BootedExactly(deps, enabled, log); }
    }

    // `dependency::enabled`: a property that is neither missing nor a boolean is an error, one
    // that cannot be read counts as missing.
    method CollectEnabled(pool: Pool, unread: set<Id>) returns (r: BootOutcome, enabled: set<Id>)
      ensures r.Booted? || r.Unreadable?
      ensures r.Booted? ==> enabled == EnabledIds(pool, unread) && forall id :: !HasBadFlag(pool, unread, id)
      ensures r.Unreadable? ==> HasBadFlag(pool, unread, r.id)
    {
      enabled := {};
      var listing := pool.Listing();
      var todo := listing;
      while todo != {}
        invariant todo <= listing && enabled == EnabledIds(pool, unread) - todo
        invariant forall id :: id in listing - todo ==> !HasBadFlag(pool, unread, id)
        decreases todo
      {
        var id :| id in todo;
        var set_ := id !in unread && id in pool.datasets;
        var flag := if set_ then ReadBool(pool.datasets[id].enabled, true) else Some(true);
        if flag.None? {
          return Unreadable(id), {};
        }
        if flag.value {
          enabled := enabled + {id};
        }
        todo := todo - {id};
      }
      return Booted, enabled;
    }
  }

  // A listed resource whose `enabled` property is read as something else than a boolean.
  predicate HasBadFlag(pool: Pool, unread: set<Id>, id: Id) {
    && id in pool.Listing() && id !in unread && id in pool.datasets
    && ReadBool(pool.datasets[id].enabled, true).None?
  }

  // The graph of what is listed, as far as it can be read, is closed and acyclic.
  ghost predicate Validates(pool: Pool, missed: set<Id>) {
    exists g :: IsListedGraph(g, pool.DepsSeen(missed), pool.Listing()) && Closed(g) && Acyclic(g)
  }

  lemma ValidatesIff(pool: Pool, missed: set<Id>, g: Graph<string>)
    requires IsListedGraph(g, pool.DepsSeen(missed), pool.Listing())
    ensures Validates(pool, missed) <==> Closed(g) && Acyclic(g)
  {
    if Validates(pool, missed) {
      var h :| IsListedGraph(h, pool.DepsSeen(missed), pool.Listing()) && Closed(h) && Acyclic(h);
      ListedGraphIsUnique(pool.DepsSeen(missed), pool.Listing(), g, h);
    }
  }

  // `dependency::validate_all`, which cannot read the lists of `missed`.
  method ValidateAll(zfs: Zfs, missed: set<Id>) returns (valid: bool, ghost graph: Graph<string>)
    ensures IsListedGraph(graph, zfs.pool.DepsSeen(missed), zfs.pool.Listing())
    ensures valid <==> Closed(graph) && Acyclic(graph)
    ensures valid <==> Validates(zfs.pool, missed)
    ensures zfs.pool.Invariant() && zfs.pool.ListsEverything() ==> valid
  {
    var listed := zfs.BuildGraph(missed);
    var verdict, _ := ValidateGraph(listed);
    ValidatesIff(zfs.pool, missed, listed);
    if zfs.pool.Invariant() && zfs.pool.ListsEverything() {
      FullListingIsAccepted(zfs.pool, missed, listed);
    }
    return verdict.Valid?, listed;
  }

  // What counts as enabled if the properties of `unread` cannot be read. A directory without
  // a VM has none.
  function EnabledIds(pool: Pool, unread: set<Id>): set<Id> {
    set id | id in pool.Listing() &&
      (id in unread || id !in pool.datasets || ReadBool(pool.datasets[id].enabled, true) == Some(true))
  }

  ghost predicate ReachedFrom(deps: Deps, roots: set<Id>, id: Id) {
    exists root :: root in roots && Reachable(IdGraph(deps), root, id)
  }

  // The enabled resources together with everything they transitively depend on.
  ghost function Needed(deps: Deps, roots: set<Id>): set<Id> {
    set id | id in deps && ReachedFrom(deps, roots, id)
  }

  lemma ReachedExists(deps: Deps, root: Id, id: Id)
    requires root in deps && Reachable(IdGraph(deps), root, id)
    ensures id in deps
  {
    var p :| PathBetween(IdGraph(deps), root, id, p);
    forall a, b | a in deps.Keys && Edge(IdGraph(deps), a, b)
      ensures b in deps.Keys
    {
      IdEdge(deps, a, b);
    }
    ClosedSetContainsPath(IdGraph(deps), deps.Keys, p);
  }

  lemma BootedExactly(deps: Deps, enabled: set<Id>, log: seq<Attempt>)
    requires enabled <= deps.Keys && OrderedFrom(deps, {}, log)
    requires enabled <= {} + Up(log)
    requires forall i :: 0 <= i < |log| ==> ReachedFrom(deps, enabled, log[i].id)
    ensures {} + Up(log) == Needed(deps, enabled)
    ensures forall id :: id in enabled ==> Startable(deps, id)
  {
    UpIsStartable(deps, log, enabled);
    OrderedIsDependencyClosed(deps, {}, log);
    forall id | id in Needed(deps, enabled)
      ensures id in {} + Up(log)
    {
      var root :| root in enabled && Reachable(IdGraph(deps), root, id);
      ClosedContainsReachable(deps, {} + Up(log), root, id);
    }
    forall id | id in Up(log)
      ensures id in Needed(deps, enabled)
    {
      var root :| root in enabled && Reachable(IdGraph(deps), root, id);
      ReachedExists(deps, root, id);
    }
  }

  // Lists that validation did not read only take edges away.
  lemma FullListingIsAccepted(pool: Pool, missed: set<Id>, graph: Graph<string>)
    requires pool.ListsEverything() && Sound(pool.Deps())
    requires IsListedGraph(graph, pool.DepsSeen(missed), pool.Listing())
    ensures Closed(graph) && Acyclic(graph)
  {
    SeenIsFewer(pool, missed);
    ListedGraphIsAccepted(pool.Deps(), pool.DepsSeen(missed), graph);
  }

  lemma ListedGraphIsAccepted(stored: Deps, seen: Deps, graph: Graph<string>)
    requires Sound(stored) && seen.Keys == stored.Keys && IsListedGraph(graph, seen, seen.Keys)
    requires forall d :: d in stored ==> seen[d] == stored[d] || seen[d] == []
    ensures Closed(graph) && Acyclic(graph)
  {
    FewerListsSound(stored, seen);
    FullListingIsNameGraph(seen, graph);
  }

  lemma FullListingIsNameGraph(deps: Deps, graph: Graph<string>)
    requires NamesDistinct(deps) && IsListedGraph(graph, deps, deps.Keys)
    ensures graph == NameGraph(deps)
  {
    forall n
      ensures n in graph <==> n in NameGraph(deps)
      ensures n in graph ==> graph[n] == NameGraph(deps)[n]
    {
      if n in graph {
        Listed(deps, if Id(Vm, n) in deps then Id(Vm, n) else Id(Jail, n));
      }
    }
  }

  // Validation sees every list that is read when the resources are started.
  lemma BootGraphCovers(pool: Pool, graph: Graph<string>, missed: set<Id>, unread: set<Id>)
    requires IsListedGraph(graph, pool.DepsSeen(missed), pool.Listing()) && missed <= unread
    requires pool.Listing() <= pool.datasets.Keys && NamesDistinct(pool.DepsRead(unread))
    ensures CoversLists(graph, pool.DepsRead(unread), pool.Listing())
  {
    forall a, n | a in pool.Listing() && DependsOn(pool.DepsRead(unread), a, n)
      ensures Edge(graph, a.name, n)
    {
      IdCases(a);
      assert a in pool.DepsRead(unread) && Id(Vm, a.name) in pool.Listing() ==> Id(Vm, a.name) in pool.DepsRead(unread);
      assert graph[a.name] == pool.DepsSeen(missed)[a];
    }
  }

  // A boot reads no dependency that validation has not seen, or the stored graph is sound
  // anyway.
  ghost predicate BootIsCovered(pool: Pool, missed: set<Id>, unread: set<Id>) {
    && pool.Listing() <= pool.datasets.Keys
    && (pool.Invariant() || (NamesDistinct(pool.Deps()) && missed <= unread))
  }

  lemma BootHasNoErrors(
    pool: Pool, graph: Graph<string>, missed: set<Id>, unread: set<Id>, from: Id, name: string)
    requires BootIsCovered(pool, missed, unread) && from in pool.Listing()
    requires IsListedGraph(graph, pool.DepsSeen(missed), pool.Listing()) && Closed(graph) && Acyclic(graph)
    ensures !RunsInCircle(pool.DepsRead(unread), from, name) && !LeadsToUnknown(pool.DepsRead(unread), from, name)
  {
    if pool.Invariant() {
      SoundAsRead(pool, unread);
      SoundHasNoErrors(pool.DepsRead(unread), from, name);
    } else {
      DistinctAsRead(pool, unread);
      BootGraphCovers(pool, graph, missed, unread);
      ValidatedHasNoErrors(pool.DepsRead(unread), pool.Listing(), graph, from, name);
    }
  }

  lemma SoundAsRead(pool: Pool, unread: set<Id>)
    requires pool.Invariant()
    ensures Sound(pool.DepsRead(unread))
  {
    FewerListsSound(pool.Deps(), pool.DepsRead(unread));
  }

  lemma DistinctAsRead(pool: Pool, unread: set<Id>)
    requires NamesDistinct(pool.Deps())
    ensures NamesDistinct(pool.DepsRead(unread))
  {
    assert pool.DepsRead(unread).Keys == pool.Deps().Keys;
  }

  // ---- What failed reads cost ----

  // Everything that `id` depends on by the stored lists is among the resources `up`.
  ghost predicate Satisfied(pool: Pool, up: set<Id>, id: Id) {
    forall n :: n in DepsOf(pool.Deps(), id) ==>
      Resolve(pool.Deps(), n).Some? && Resolve(pool.Deps(), n).value in up
  }

  ghost predicate OrderedByStored(pool: Pool, unread: set<Id>, initial: set<Id>) {
    forall log :: OrderedFrom(pool.DepsRead(unread), initial, log) ==> OrderedFrom(pool.Deps(), initial, log)
  }

  // Whatever is started from where only `initial` is up, every start comes after what the
  // resource depends on by the stored lists, exactly if all that is down and cannot be read
  // has its dependencies up to begin with.
  lemma OrderedByStoredIff(pool: Pool, unread: set<Id>, initial: set<Id>)
    ensures OrderedByStored(pool, unread, initial) <==>
            forall id :: id in unread && id !in initial ==> Satisfied(pool, initial, id)
  {
    if id :| id in unread && id !in initial && !Satisfied(pool, initial, id) {
      StartsEarly(pool, unread, initial, id);
    } else {
      forall log | OrderedFrom(pool.DepsRead(unread), initial, log)
        ensures OrderedFrom(pool.Deps(), initial, log)
      {
        StaysOrdered(pool, unread, initial, log);
      }
    }
  }

  // The first thing started may be the resource whose list was not read.
  lemma StartsEarly(pool: Pool, unread: set<Id>, initial: set<Id>, id: Id)
    requires id in unread && id !in initial && !Satisfied(pool, initial, id)
    ensures !OrderedByStored(pool, unread, initial)
  {
    var log := [Attempt(id, true, true)];
    OrderedAlone(pool.DepsRead(unread), initial, id, log);
    OrderedAlone(pool.Deps(), initial, id, log);
  }

  lemma OrderedAlone(deps: Deps, initial: set<Id>, id: Id, log: seq<Attempt>)
    requires log == [Attempt(id, true, true)]
    ensures OrderedFrom(deps, initial, log) <==> Ready(deps, initial, id)
  {
    assert log[..0] == [] && initial + Up(log[..0]) == initial;
    if Ready(deps, initial, id) {
      assert OrderedFrom(deps, initial, log);
    } else {
      assert !Ready(deps, initial + Up(log[..0]), log[0].id);
    }
  }

  lemma StaysOrdered(pool: Pool, unread: set<Id>, initial: set<Id>, log: seq<Attempt>)
    requires OrderedFrom(pool.DepsRead(unread), initial, log)
    requires forall id :: id in unread && id !in initial ==> Satisfied(pool, initial, id)
    ensures OrderedFrom(pool.Deps(), initial, log)
  {
    SameResolution(pool, unread);
    forall i | 0 <= i < |log|
      ensures Ready(pool.Deps(), initial + Up(log[..i]), log[i].id)
    {
      var id, up := log[i].id, initial + Up(log[..i]);
      assert Ready(pool.DepsRead(unread), up, id);
      if id in unread {
        assert Satisfied(pool, initial, id);
      }
    }
  }

  // So starts are in stored order from any beginning, as at boot, exactly if everything that
  // cannot be read has no dependencies.
  lemma AlwaysOrderedByStoredIff(pool: Pool, unread: set<Id>)
    ensures OrderedByStored(pool, unread, {}) <==> forall id :: id in unread ==> DepsOf(pool.Deps(), id) == []
    ensures (forall initial :: OrderedByStored(pool, unread, initial)) <==> OrderedByStored(pool, unread, {})
  {
    OrderedByStoredIff(pool, unread, {});
    forall id
      ensures Satisfied(pool, {}, id) <==> DepsOf(pool.Deps(), id) == []
    {
      var names := DepsOf(pool.Deps(), id);
      assert names != [] ==> names[0] in names;
    }
    if OrderedByStored(pool, unread, {}) {
      forall initial
        ensures OrderedByStored(pool, unread, initial)
      {
        OrderedByStoredIff(pool, unread, initial);
      }
    }
  }

  lemma SameResolution(pool: Pool, unread: set<Id>)
    ensures forall n :: Resolve(pool.Deps(), n) == Resolve(pool.DepsRead(unread), n)
    ensures forall id :: id !in unread ==> DepsOf(pool.Deps(), id) == DepsOf(pool.DepsRead(unread), id)
  {
  }

  // What counts as enabled is what is enabled exactly if every property that was not read
  // would have said so.
  lemma EnabledAsStoredIff(pool: Pool, unread: set<Id>)
    requires unread <= pool.Listing()
    ensures EnabledIds(pool, unread) == EnabledIds(pool, {}) <==>
            forall id :: id in unread && id in pool.datasets ==> ReadBool(pool.datasets[id].enabled, true) == Some(true)
  {
    forall id | id in unread && id in pool.datasets && ReadBool(pool.datasets[id].enabled, true) != Some(true)
      ensures EnabledIds(pool, unread) != EnabledIds(pool, {})
    {
      assert id in EnabledIds(pool, unread) && id !in EnabledIds(pool, {});
    }
  }

  // A jail whose list cannot be read comes up without the jail it depends on.
  lemma UnreadListStartsEarly(pool: Pool, a: Id, b: Id)
    requires a in pool.datasets && DependsOn(pool.Deps(), a, b.name) && a != b
    ensures var log := [Attempt(a, true, true)];
            OrderedFrom(pool.DepsRead({a}), {}, log) && !OrderedFrom(pool.Deps(), {}, log)
  {
    var log := [Attempt(a, true, true)];
    OrderedAlone(pool.DepsRead({a}), {}, a, log);
    OrderedAlone(pool.Deps(), {}, a, log);
    assert b.name in DepsOf(pool.Deps(), a);
  }

  // A disabled resource is started at boot if its property cannot be read.
  lemma UnreadFlagEnables(pool: Pool, id: Id)
    requires id in pool.Listing() && id in pool.datasets && ReadBool(pool.datasets[id].enabled, true) == Some(false)
    ensures id in EnabledIds(pool, {id}) && id !in EnabledIds(pool, {})
  {
  }

  lemma EndIsReachable<T(!new)>(g: Graph<T>, path: seq<T>, a: T)
    requires IsPath(g, path + [a])
    ensures Reachable(g, (path + [a])[0], a)
  {
    assert PathBetween(g, (path + [a])[0], a, path + [a]);
  }
}
