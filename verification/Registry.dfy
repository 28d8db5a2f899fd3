/**
 The managed resources as ZFS stores them, and the commands that edit them: creating a
 jail, base jail or VM, setting dependencies, enabling, destroying. Every external call may
 fail. A failed write stops the command. A failed read does not: an unread property counts as
 unset, and a VM whose existence test failed counts as missing.
 */
module Registry {
  import opened Wrappers
  import opened Text
  import opened Graphs
  import opened Dependency
  import opened Catalog
  import opened Runs

  // The user properties kept as text; an unset property is the empty text. A jail may also
  // be a directory without a dataset, which has no properties either.
  datatype Dataset = Dataset(dependencies: string, enabled: string)

  /**
   `bases` are the names under the base jail directory; one hides the jail of the same name
   from the listing. `vmDirs` are the directories under the VM base path. Nothing here makes or
   removes those; VMs themselves are volumes.
   */
  datatype Pool = Pool(datasets: map<Id, Dataset>, bases: set<string>, vmDirs: set<string>)
  {
    function Deps(): (deps: Deps)
      ensures deps.Keys == datasets.Keys
    {
      map id | id in datasets :: ReadList(datasets[id].dependencies)
    }

    // The lists as they are read if reading those of `unread` fails.
    function DepsRead(unread: set<Id>): (deps: Deps)
      ensures deps.Keys == datasets.Keys
    {
      map id | id in datasets :: if id in unread then [] else ReadList(datasets[id].dependencies)
    }

    // The same with the listing's VM directories that belong to no VM.
    function DepsSeen(unread: set<Id>): (deps: Deps)
      ensures deps.Keys == datasets.Keys + Listing()
    {
      map id | id in datasets.Keys + Listing() :: if id in datasets then DepsRead(unread)[id] else []
    }

    // The listing reads the entries of two directories, not what is below them.
    function Listing(): (listing: set<Id>)
      ensures forall id :: id in listing ==> '/' !in id.name
    {
      (set id | id in datasets && id.kind == Jail && '/' !in id.name && id.name !in bases)
      + (set n | n in vmDirs && '/' !in n :: Id(Vm, n))
    }

    // Hypotheses on the outside world: every VM has its directory and every such directory
    // its VM, no base jail has the name of a jail, and no jail lies below another.
    predicate ListsEverything() {
      Listing() == datasets.Keys
    }

    // What every run keeps: sound decoded dependencies, all on names at the top level that
    // survive rewriting.
    ghost predicate Invariant() {
      Sound(Deps()) && AllReferable(Deps())
    }
  }

  predicate Referable(name: string) {
    Clean(name) && '/' !in name
  }

  ghost predicate AllReferable(deps: Deps) {
    forall id, n :: DependsOn(deps, id, n) ==> Referable(n)
  }

  function OfKind(ids: set<Id>, kind: Kind): (some: set<Id>)
    ensures forall id :: id in some <==> id in ids && id.kind == kind
  {
    set id | id in ids && id.kind == kind
  }

  // The datasets above that of `name`, which `zfs create -p` makes as well.
  function Parents(name: string): (parents: set<string>)
    ensures forall p :: p in parents <==> IsParent(p, name)
  {
    var cuts := set i | 0 < i < |name| && name[i] == '/' :: name[..i];
    assert forall p :: IsParent(p, name) ==> p == name[..|p|];
    cuts
  }

  predicate IsParent(p: string, name: string) {
    p != "" && |p| < |name| && p == name[..|p|] && name[|p|] == '/'
  }

  // What a recursive destroy of `id` takes along.
  predicate IsUnder(other: Id, id: Id) {
    other == id || (id.kind == Jail && other.kind == Jail && IsParent(id.name, other.name))
  }

  function Under(ids: set<Id>, id: Id): set<Id> {
    set other | other in ids && IsUnder(other, id)
  }

  function Without(names: seq<string>, name: string): (kept: seq<string>)
    ensures forall n :: n in kept <==> n in names && n != name
    ensures |kept| <= |names|
    ensures |kept| == |names| <==> name !in names
  {
    if names == [] then []
    else (if names[0] == name then [] else [names[0]]) + Without(names[1..], name)
  }

  function CleanedDataset(dataset: Dataset, name: string): Dataset {
    var current := ReadList(dataset.dependencies);
    if name in current then dataset.(dependencies := Join(Without(current, name), ',')) else dataset
  }

  // The pool after the dependency property of one resource has been written.
  function Storing(pool: Pool, id: Id, text: string): Pool
    requires id in pool.datasets
  {
    pool.(datasets := pool.datasets[id := pool.datasets[id].(dependencies := text)])
  }

  // The pool after the references to `name` have been removed from the resources `done`.
  function ClearReferences(pool: Pool, name: string, done: set<Id>): Pool {
    pool.(datasets := map id | id in pool.datasets ::
            if id in done then CleanedDataset(pool.datasets[id], name) else pool.datasets[id])
  }

  // The pool without the datasets `gone`; of those in `left` the directory stays behind.
  function RemoveDatasets(pool: Pool, gone: set<Id>, left: set<Id>): Pool {
    pool.(datasets := map id | id in pool.datasets && (id !in gone || id in left) ::
            if id in left then Dataset("", "") else pool.datasets[id])
  }

  // The commands, together with the reads that fail while they execute: the existence test of
  // a VM, or the dependency lists of the resources `unread`. The last one is the host's own
  // doing.
  datatype Command =
    | CreateJail(name: string, overlooked: bool)
    | CreateBase(name: string)
    | CreateVm(name: string)
    | SetDependencies(id: Id, argument: string, unread: set<Id>)
    | SetEnabled(id: Id, enabled: bool)
    | Destroy(id: Id, unread: set<Id>)
    | DestroyBase(name: string)
    | VmDirectoriesChange

  // What a command may leave behind, whether it succeeds or stops at any failing call.
  ghost predicate Step(pool: Pool, command: Command, next: Pool) {
    match command
    case CreateJail(name, overlooked) =>
      next == pool || ((Id(Vm, name) in pool.datasets ==> overlooked) && JailsMade(pool, name, next))
    case CreateBase(name) =>
      next == pool || exists made :: made <= Parents(name) + {name} && next == pool.(bases := pool.bases + made)
    case CreateVm(name) =>
      next == pool || VmMade(pool, name, next)
    case SetDependencies(id, argument, unread) =>
      next == pool || DependenciesSet(pool, id, ParseList(argument), unread, next)
    case SetEnabled(id, enabled) =>
      || next == pool
      || (&& id in pool.datasets
          && next == pool.(datasets := pool.datasets[id := pool.datasets[id].(enabled := BoolText(enabled))]))
    case Destroy(id, unread) =>
      DestroyStopped(pool, id, unread, next) || exists left :: Destroyed(pool, id, unread, left, next)
    case DestroyBase(name) =>
      exists gone :: next == pool.(bases := pool.bases - gone)
    case VmDirectoriesChange =>
      next == pool.(vmDirs := next.vmDirs)
  }

  // A creation that got past its checks: the jail, jails above it that did not exist, or only
  // some of those; some or all properties may be written.
  ghost predicate JailsMade(pool: Pool, name: string, next: Pool) {
    && next == pool.(datasets := next.datasets) && pool.datasets.Keys <= next.datasets.Keys
    && (forall id :: id in pool.datasets ==> next.datasets[id] == pool.datasets[id])
    && (forall id :: id in next.datasets && id !in pool.datasets ==>
          && id.kind == Jail && (id.name == name || id.name in Parents(name))
          && next.datasets[id].dependencies == "")
  }

  ghost predicate VmMade(pool: Pool, name: string, next: Pool) {
    var id := Id(Vm, name);
    && '/' !in name && Id(Jail, name) !in pool.datasets && id !in pool.datasets
    && id in next.datasets && next.datasets[id].dependencies == ""
    && next == pool.(datasets := pool.datasets[id := next.datasets[id]])
  }

  ghost predicate Accepted(pool: Pool, name: string, values: seq<string>, unread: set<Id>) {
    exists g :: IsListedGraph(g, pool.DepsSeen(unread), pool.Listing()) &&
      Closed(g[name := values]) && Acyclic(g[name := values])
  }

  ghost predicate DependenciesSet(pool: Pool, id: Id, values: seq<string>, unread: set<Id>, next: Pool) {
    && id in pool.datasets && Accepted(pool, id.name, values, unread)
    && next == Storing(pool, id, Join(values, ','))
  }

  // A destroy that stopped while it dropped references, or after that when it had removed some
  // of the jails below its victim.
  ghost predicate DestroyStopped(pool: Pool, id: Id, unread: set<Id>, next: Pool) {
    exists done, gone, left :: StoppedAt(pool, id, unread, done, gone, left, next)
  }

  ghost predicate StoppedAt(
    pool: Pool, id: Id, unread: set<Id>, done: set<Id>, gone: set<Id>, left: set<Id>, next: Pool)
  {
    var reached := pool.Listing() - unread;
    && done <= reached && (gone != {} ==> done == reached)
    && gone <= Under(pool.datasets.Keys, id) - {id} && left <= gone
    && next == RemoveDatasets(ClearReferences(pool, id.name, done), gone, left)
  }

  ghost predicate Destroyed(pool: Pool, id: Id, unread: set<Id>, left: set<Id>, next: Pool) {
    var gone := Under(pool.datasets.Keys, id);
    && id in pool.datasets && left <= gone && (id.kind == Vm ==> left == {})
    && next == RemoveDatasets(ClearReferences(pool, id.name, pool.Listing() - unread), gone, left)
  }

  // Whoever depends on `id` and is not destroyed with it is listed, and its list was read.
  ghost predicate DependentsReached(pool: Pool, id: Id, unread: set<Id>) {
    forall other :: DependsOn(pool.Deps(), other, id.name) && !IsUnder(other, id) ==>
      other in pool.Listing() && other !in unread
  }

  // ---- Single steps ----

  // A creation keeps the invariant exactly if no jail that it makes, wanted or above the
  // wanted one, is named like a VM.
  lemma CreateJailKeepsInvariantIff(pool: Pool, name: string, next: Pool)
    requires pool.Invariant() && JailsMade(pool, name, next)
    ensures next.Invariant() <==>
            forall id :: id in next.datasets && id !in pool.datasets ==> Id(Vm, id.name) !in pool.datasets
  {
    var deps, deps' := pool.Deps(), next.Deps();
    NothingNew(pool, next);
    if id :| id in next.datasets && id !in pool.datasets && Id(Vm, id.name) in pool.datasets {
      assert id in deps' && Id(Vm, id.name) in deps';
      assert id.kind == Jail && !NamesDistinct(deps');
    } else {
      forall a, b | a in deps' && b in deps' && a.name == b.name
        ensures a == b
      {
        IdCases(a);
        IdCases(b);
      }
      AddedSound(deps, deps');
    }
  }

  lemma CreateVmKeepsInvariant(pool: Pool, name: string, next: Pool)
    requires pool.Invariant() && VmMade(pool, name, next)
    ensures next.Invariant()
  {
    var deps, deps' := pool.Deps(), next.Deps();
    NothingNew(pool, next);
    forall a, b | a in deps' && b in deps' && a.name == b.name
      ensures a == b
    {
      IdCases(a);
      IdCases(b);
    }
    AddedSound(deps, deps');
  }

  // New datasets without dependencies.
  lemma NothingNew(pool: Pool, next: Pool)
    requires pool.datasets.Keys <= next.datasets.Keys
    requires forall id :: id in pool.datasets ==> next.datasets[id] == pool.datasets[id]
    requires forall id :: id in next.datasets && id !in pool.datasets ==> next.datasets[id].dependencies == ""
    ensures forall id :: id in pool.datasets ==> next.Deps()[id] == pool.Deps()[id]
    ensures forall id :: id in next.datasets && id !in pool.datasets ==> next.Deps()[id] == []
  {
    ReadListOfJoin([]);
  }

  lemma AddedSound(deps: Deps, next: Deps)
    requires Sound(deps) && AllReferable(deps) && NamesDistinct(next) && deps.Keys <= next.Keys
    requires forall id :: id in deps ==> next[id] == deps[id]
    requires forall id :: id in next && id !in deps ==> next[id] == []
    ensures Sound(next) && AllReferable(next)
  {
    forall d, n | DependsOn(next, d, n)
      ensures DependsOn(deps, d, n) && HasName(next, n)
    {
      DependencyExists(deps, d, n);
      assert Resolve(deps, n).value in next;
    }
    FewerDependencies(deps, next);
  }

  lemma StoredList(pool: Pool, id: Id, values: seq<string>) returns (stored: seq<string>)
    requires id in pool.datasets && AllClean(values)
    ensures stored == if values == ["-"] then [] else values
    ensures Storing(pool, id, Join(values, ',')).Deps() == pool.Deps()[id := stored]
  {
    ReadListOfJoin(values);
    stored := ReadList(Join(values, ','));
  }

  // A change of dependencies that was accepted keeps the invariant exactly if every new
  // dependency exists and none leads back to the resource.
  lemma SetDependenciesKeepsInvariantIff(pool: Pool, id: Id, values: seq<string>, unread: set<Id>, next: Pool)
    requires pool.Invariant() && DependenciesSet(pool, id, values, unread, next) && AllClean(values)
    ensures id in next.Deps() && (next.Invariant() <==> LeadsForward(pool.Deps(), id, next.Deps()[id]))
  {
    var stored := StoredList(pool, id, values);
    ReplaceSoundIff(pool.Deps(), id, stored);
    if Sound(next.Deps()) {
      AcceptedNamesListed(pool, id, values, unread);
      forall n | n in stored
        ensures Referable(n)
      {
        DependencyExists(next.Deps(), id, n);
      }
      StoredNamesReferable(pool.Deps(), id, stored);
    }
  }

  lemma AcceptedNamesListed(pool: Pool, id: Id, values: seq<string>, unread: set<Id>)
    requires Accepted(pool, id.name, values, unread)
    ensures forall n :: n in values && n != id.name ==> '/' !in n
  {
    var g :| IsListedGraph(g, pool.DepsSeen(unread), pool.Listing()) &&
      Closed(g[id.name := values]) && Acyclic(g[id.name := values]);
    forall n | n in values && n != id.name
      ensures '/' !in n
    {
      assert Edge(g[id.name := values], id.name, n);
      assert n in g;
    }
  }

  lemma StoredNamesReferable(deps: Deps, id: Id, stored: seq<string>)
    requires AllReferable(deps) && forall n :: n in stored ==> Referable(n)
    ensures AllReferable(deps[id := stored])
  {
    var deps' := deps[id := stored];
    forall d, n | DependsOn(deps', d, n)
      ensures Referable(n)
    {
      assert d != id ==> DependsOn(deps, d, n);
    }
  }

  // If every list was read and every listed name is a resource, acceptance is enough.
  lemma FullyReadIsForward(pool: Pool, id: Id, values: seq<string>, next: Pool)
    requires pool.Invariant() && DependenciesSet(pool, id, values, {}, next) && AllClean(values)
    requires pool.Listing() <= pool.datasets.Keys
    ensures id in next.Deps() && LeadsForward(pool.Deps(), id, next.Deps()[id])
  {
    var stored := StoredList(pool, id, values);
    AllSeen(pool);
    AcceptedIsForward(pool.Deps(), pool.Listing(), id, values, stored);
  }

  lemma SeenIsFewer(pool: Pool, missed: set<Id>)
    requires pool.ListsEverything()
    ensures pool.DepsSeen(missed).Keys == pool.Listing() == pool.Deps().Keys
    ensures forall d :: d in pool.Deps() ==>
              pool.DepsSeen(missed)[d] == pool.Deps()[d] || pool.DepsSeen(missed)[d] == []
  {
  }

  lemma AllSeen(pool: Pool)
    requires pool.Listing() <= pool.datasets.Keys
    ensures pool.DepsSeen({}) == pool.Deps()
  {
  }

  lemma AcceptedIsForward(deps: Deps, listing: set<Id>, id: Id, values: seq<string>, stored: seq<string>)
    requires Sound(deps) && id in deps && forall n :: n in stored ==> n in values
    requires exists g :: IsListedGraph(g, deps, listing) &&
               Closed(g[id.name := values]) && Acyclic(g[id.name := values])
    ensures LeadsForward(deps, id, stored)
  {
    var g :| IsListedGraph(g, deps, listing) && Closed(g[id.name := values]) && Acyclic(g[id.name := values]);
    ReplaceValidated(deps, listing, g, id, values, stored);
    ReplaceSoundIff(deps, id, stored);
  }

  // Rewriting properties without a name leaves at most the other names to read.
  lemma ReferencesCleared(pool: Pool, name: string, done: set<Id>)
    requires AllReferable(pool.Deps())
    ensures Cleared(pool.Deps(), ClearReferences(pool, name, done).Deps(), name, done)
  {
    var next := ClearReferences(pool, name, done);
    forall id | id in pool.datasets
      ensures id !in done ==> next.Deps()[id] == pool.Deps()[id]
      ensures id in done ==> name !in next.Deps()[id]
      ensures forall n :: n in next.Deps()[id] ==> DependsOn(pool.Deps(), id, n)
    {
      var names := ReadList(pool.datasets[id].dependencies);
      forall n | n in names
        ensures Clean(n)
      {
        assert DependsOn(pool.Deps(), id, n);
      }
      ReadListOfJoin(Without(names, name));
    }
  }

  // However far the reference removal of a destroy got, and whatever it could not read, the
  // graph stays closed and acyclic: this is every intermediate state of a destroy.
  lemma ClearReferencesKeepsInvariant(pool: Pool, name: string, done: set<Id>)
    requires pool.Invariant()
    ensures ClearReferences(pool, name, done).Invariant()
  {
    ReferencesCleared(pool, name, done);
    ClearedSound(pool.Deps(), ClearReferences(pool, name, done).Deps(), name, done);
  }

  // So it does if the recursive destroy of the dataset fails after it has removed jails below:
  // nothing depends on those.
  lemma StoppedKeepsInvariant(
    pool: Pool, id: Id, unread: set<Id>, done: set<Id>, gone: set<Id>, left: set<Id>, next: Pool)
    requires pool.Invariant() && StoppedAt(pool, id, unread, done, gone, left, next)
    ensures next.Invariant() && (id in pool.datasets ==> id in next.datasets)
  {
    var cleared := ClearReferences(pool, id.name, done);
    ClearReferencesKeepsInvariant(pool, id.name, done);
    NothingDependsBelow(cleared, id);
    assert cleared.datasets.Keys == pool.datasets.Keys;
    UnusedRemovalSound(cleared.Deps(), gone, left);
    DepsAfterRemoval(cleared, gone, left, next);
    AfterRemovalReferable(cleared.Deps(), gone, left);
  }

  lemma AfterRemovalReferable(deps: Deps, gone: set<Id>, left: set<Id>)
    requires AllReferable(deps)
    ensures AllReferable(AfterRemoval(deps, gone, left))
  {
    forall d, n | DependsOn(AfterRemoval(deps, gone, left), d, n)
      ensures Referable(n)
    {
      assert DependsOn(deps, d, n);
    }
  }

  // A destroy that runs to its end keeps the invariant exactly if the victim's directory
  // stays behind or all its dependents were reached.
  lemma DestroyKeepsInvariantIff(pool: Pool, id: Id, unread: set<Id>, left: set<Id>, next: Pool)
    requires pool.Invariant() && Destroyed(pool, id, unread, left, next)
    ensures next.Invariant() <==> id in left || DependentsReached(pool, id, unread)
    ensures Sound(next.Deps()) <==> id in left || DependentsReached(pool, id, unread)
  {
    var deps, done, gone := pool.Deps(), pool.Listing() - unread, Under(pool.datasets.Keys, id);
    var cleared := ClearReferences(pool, id.name, done);
    ReferencesCleared(pool, id.name, done);
    NothingDependsBelow(pool, id);
    RemovalSoundIff(deps, cleared.Deps(), id, gone, left, done);
    DepsAfterRemoval(cleared, gone, left, next);
    RemovalKeepsReferable(deps, cleared.Deps(), id, gone, left, done);
    ReachedIff(pool, id, unread, gone, done);
  }

  lemma ReachedIff(pool: Pool, id: Id, unread: set<Id>, gone: set<Id>, done: set<Id>)
    requires gone == Under(pool.datasets.Keys, id) && done == pool.Listing() - unread
    ensures DependentsReached(pool, id, unread) <==>
            forall d :: DependsOn(pool.Deps(), d, id.name) && d !in gone ==> d in done
  {
  }

  lemma NothingDependsBelow(pool: Pool, id: Id)
    requires AllReferable(pool.Deps())
    ensures forall d, g :: g in Under(pool.datasets.Keys, id) && DependsOn(pool.Deps(), d, g.name) ==> g == id
  {
    forall d, g | g in Under(pool.datasets.Keys, id) && g != id
      ensures !DependsOn(pool.Deps(), d, g.name)
    {
      assert g.name[|id.name|] == '/';
    }
  }

  lemma DepsAfterRemoval(pool: Pool, gone: set<Id>, left: set<Id>, next: Pool)
    requires next == RemoveDatasets(pool, gone, left)
    ensures next.Deps() == AfterRemoval(pool.Deps(), gone, left)
  {
    ReadListOfJoin([]);
    var deps, after := pool.Deps(), AfterRemoval(pool.Deps(), gone, left);
    assert next.Deps().Keys == after.Keys;
    forall d | d in after
      ensures next.Deps()[d] == after[d]
    {
      assert d in left ==> next.datasets[d] == Dataset("", "");
    }
  }

  lemma RemovalKeepsReferable(deps: Deps, cleared: Deps, id: Id, gone: set<Id>, left: set<Id>, done: set<Id>)
    requires AllReferable(deps) && Cleared(deps, cleared, id.name, done)
    ensures AllReferable(AfterRemoval(cleared, gone, left))
  {
    forall d, n | DependsOn(cleared, d, n)
      ensures Referable(n)
    {
      assert DependsOn(deps, d, n);
    }
    AfterRemovalReferable(cleared, gone, left);
  }

  lemma SameDeps(pool: Pool, next: Pool)
    requires next.datasets.Keys == pool.datasets.Keys
    requires forall id :: id in pool.datasets ==> next.datasets[id].dependencies == pool.datasets[id].dependencies
    ensures next.Deps() == pool.Deps()
  {
  }

  // What a step must not do: make a jail that is named like a VM, store a dependency that
  // does not exist or leads back, or complete the destroy of a resource without having
  // reached all its dependents.
  ghost predicate SafeStep(pool: Pool, command: Command, next: Pool) {
    match command
    case CreateJail(_, _) =>
      forall id :: id in next.datasets && id !in pool.datasets ==> Id(Vm, id.name) !in pool.datasets
    case SetDependencies(id, _, _) =>
      next != pool ==> id in next.Deps() && LeadsForward(pool.Deps(), id, next.Deps()[id])
    case Destroy(id, unread) =>
      id in pool.datasets && id !in next.datasets ==> DependentsReached(pool, id, unread)
    case _ => true
  }

  lemma StepKeepsInvariantIff(pool: Pool, command: Command, next: Pool)
    requires pool.Invariant() && Step(pool, command, next)
    ensures next.Invariant() <==> SafeStep(pool, command, next)
  {
    match command {
      case CreateJail(name, overlooked) => CreateJailStepKeepsInvariantIff(pool, name, overlooked, next);
      case CreateVm(name) => if next != pool { CreateVmKeepsInvariant(pool, name, next); }
      case SetDependencies(id, argument, unread) =>
        SetDependenciesStepKeepsInvariantIff(pool, id, argument, unread, next);
      case Destroy(id, unread) => DestroyStepKeepsInvariantIff(pool, id, unread, next);
      case _ => OtherStepsKeepDeps(pool, command, next);
    }
  }

  lemma OtherStepsKeepDeps(pool: Pool, command: Command, next: Pool)
    requires Step(pool, command, next)
    requires command.CreateBase? || command.SetEnabled? || command.DestroyBase? || command.VmDirectoriesChange?
    ensures next.Deps() == pool.Deps()
  {
    SameDeps(pool, next);
  }

  lemma CreateJailStepKeepsInvariantIff(pool: Pool, name: string, overlooked: bool, next: Pool)
    requires pool.Invariant() && Step(pool, CreateJail(name, overlooked), next)
    ensures next.Invariant() <==> SafeStep(pool, CreateJail(name, overlooked), next)
  {
    if next != pool {
      CreateJailKeepsInvariantIff(pool, name, next);
    }
  }

  lemma SetDependenciesStepKeepsInvariantIff(pool: Pool, id: Id, argument: string, unread: set<Id>, next: Pool)
    requires pool.Invariant() && Step(pool, SetDependencies(id, argument, unread), next)
    ensures next.Invariant() <==> SafeStep(pool, SetDependencies(id, argument, unread), next)
  {
    ParseListIsClean(argument);
    if next != pool {
      SetDependenciesKeepsInvariantIff(pool, id, ParseList(argument), unread, next);
    }
  }

  lemma DestroyStepKeepsInvariantIff(pool: Pool, id: Id, unread: set<Id>, next: Pool)
    requires pool.Invariant() && Step(pool, Destroy(id, unread), next)
    ensures next.Invariant() <==> SafeStep(pool, Destroy(id, unread), next)
  {
    if DestroyStopped(pool, id, unread, next) {
      var done, gone, left :| StoppedAt(pool, id, unread, done, gone, left, next);
      StoppedKeepsInvariant(pool, id, unread, done, gone, left, next);
    } else {
      var left :| Destroyed(pool, id, unread, left, next);
      DestroyKeepsInvariantIff(pool, id, unread, left, next);
      assert id in next.datasets <==> id in left;
    }
  }

  // ---- Whole runs ----

  ghost predicate IsGood(pool: Pool) {
    pool.Invariant()
  }

  ghost predicate Run(pools: seq<Pool>, commands: seq<Command>) {
    AllSteps(pools, commands, Step)
  }

  ghost predicate SafeRun(pools: seq<Pool>, commands: seq<Command>) {
    AllSteps(pools, commands, SafeStep)
  }

  // Along every run from a good state, the stored graph stays closed and acyclic and no
  // jail shares its name with a VM, exactly as long as every step is safe.
  lemma RunKeepsInvariantIff(pools: seq<Pool>, commands: seq<Command>)
    requires Run(pools, commands) && pools[0].Invariant()
    ensures (forall i :: 0 <= i < |pools| ==> pools[i].Invariant()) <==> SafeRun(pools, commands)
  {
    forall p, c, q | IsGood(p) && Step(p, c, q)
      ensures IsGood(q) <==> SafeStep(p, c, q)
    {
      StepKeepsInvariantIff(p, c, q);
    }
    RunKeepsIff(pools, commands, Step, SafeStep, IsGood);
    assert forall i :: 0 <= i < |pools| ==> (IsGood(pools[i]) <==> pools[i].Invariant());
  }

  // No read fails, and no jail is created below another.
  predicate Ordinary(command: Command) {
    match command
    case CreateJail(name, overlooked) => !overlooked && '/' !in name
    case SetDependencies(_, _, unread) => unread == {}
    case Destroy(_, unread) => unread == {}
    case _ => true
  }

  // Such a command, where the listing is right for what it does with it: dependencies are
  // changed while no listed name lacks its resource, and resources are destroyed while none is
  // unlisted. A VM can be made, and its directory before or after it, at any time.
  ghost predicate OrdinaryStep(pool: Pool, command: Command, next: Pool) {
    && Ordinary(command)
    && (command.SetDependencies? ==> pool.Listing() <= pool.datasets.Keys)
    && (command.Destroy? ==> pool.datasets.Keys <= pool.Listing())
  }

  lemma OrdinaryIsSafe(pool: Pool, command: Command, next: Pool)
    requires pool.Invariant() && Step(pool, command, next) && OrdinaryStep(pool, command, next)
    ensures SafeStep(pool, command, next)
  {
    match command {
      case CreateJail(name, _) =>
        forall id | id in next.datasets && id !in pool.datasets
          ensures Id(Vm, id.name) !in pool.datasets
        {
          assert id.name in Parents(name) ==> '/' in name;
        }
      case SetDependencies(id, argument, _) =>
        ParseListIsClean(argument);
        if next != pool { FullyReadIsForward(pool, id, ParseList(argument), next); }
      case _ =>
    }
  }

  ghost predicate OrdinaryRun(pools: seq<Pool>, commands: seq<Command>) {
    AllSteps(pools, commands, OrdinaryStep)
  }

  // With ordinary steps all along, the invariant holds in every state of every run that starts
  // from a pool without resources.
  lemma OrdinaryRunKeepsInvariant(pools: seq<Pool>, commands: seq<Command>, i: nat)
    requires Run(pools, commands) && OrdinaryRun(pools, commands) && pools[0].datasets == map[] && i < |pools|
    ensures pools[i].Invariant()
  {
    OrderImpliesAcyclic(NameGraph(pools[0].Deps()), []);
    forall p, c, q | IsGood(p) && Step(p, c, q) && OrdinaryStep(p, c, q)
      ensures IsGood(q)
    {
      OrdinaryIsSafe(p, c, q);
      StepKeepsInvariantIff(p, c, q);
    }
    SafeRunKeeps(pools, commands, Step, OrdinaryStep, IsGood, i);
  }

  // ---- The daemon's commands ----

  // How the calls of a creation turn out: whether the existence test of the VM fails, whether
  // the datasets get made, or which of those above the wanted one, whether the properties get
  // written and what follows succeeds.
  datatype CreateCalls = CreateCalls(overlooks: bool, makes: bool, partly: set<string>, writes: bool, installs: bool)

  // How the calls of a destroy turn out. A recursive destroy that fails may have removed the
  // datasets `partly`; the directories `left` resist.
  datatype DestroyCalls = DestroyCalls(
    stops: bool, unread: set<Id>, unwritable: set<Id>, removes: bool, partly: set<Id>, left: set<Id>, finishes: bool)

  // The state behind `zfs get`, `zfs set`, `zfs list`, `zfs create` and `zfs destroy`. How each
  // call turns out is a parameter: the contracts hold for all of them.
  class Zfs {
    var pool: Pool

    // `metadata::get`: a failed read gives no value, like a property that is not set.
    method ReadDependencies(id: Id, works: bool) returns (dependencies: seq<string>)
      ensures dependencies == if works && id in pool.datasets then pool.Deps()[id] else []
    {
      dependencies := [];
      if works && id in pool.datasets {
        dependencies := ReadList(pool.datasets[id].dependencies);
      }
    }

    // `dependency::graph` over the listing: jails first, VMs second, so that a VM's entry
    // replaces that of a jail with the same name.
    method BuildGraph(unread: set<Id>) returns (graph: Graph<string>)
      ensures IsListedGraph(graph, pool.DepsSeen(unread), pool.Listing())
    {
      var listing := pool.Listing();
      var jails, vms := OfKind(listing, Jail), OfKind(listing, Vm);
      ghost var seen: Deps := map[];
      graph, seen := ReadKind(jails, unread, map[], {}, map[]);
      graph, seen := ReadKind(vms, unread, graph, jails, seen);
      assert jails + vms == listing;
      SeenIs(pool, listing, seen, unread);
    }

    // One pass of the listing, over the resources of one kind.
    method ReadKind(ids: set<Id>, unread: set<Id>, before: Graph<string>, ghost done: set<Id>, ghost seenBefore: Deps)
      returns (graph: Graph<string>, ghost seen: Deps)
      requires ids !! done && seenBefore.Keys == done && IsListedGraph(before, seenBefore, done)
      requires forall id, d :: id in ids && d in done + ids && d.kind == Vm ==> id.kind == Vm
      ensures seen.Keys == done + ids && IsListedGraph(graph, seen, done + ids)
      ensures forall d :: d in done ==> seen[d] == seenBefore[d]
      ensures forall d :: d in ids ==> seen[d] == if d in pool.datasets && d !in unread then pool.Deps()[d] else []
    {
      graph, seen := before, seenBefore;
      var todo := ids;
      ghost var soFar := done;
      while todo != {}
        invariant todo <= ids && soFar == done + (ids - todo)
        invariant seen.Keys == soFar && IsListedGraph(graph, seen, soFar)
        invariant forall d :: d in done ==> seen[d] == seenBefore[d]
        invariant forall d :: d in ids - todo ==>
                    seen[d] == if d in pool.datasets && d !in unread then pool.Deps()[d] else []
        decreases todo
      {
        var id :| id in todo;
        var dependencies := ReadDependencies(id, id !in unread);
        ListedGraphExtend(graph, seen, soFar, id, dependencies);
        graph, seen := graph[id.name := dependencies], seen[id := dependencies];
        todo, soFar := todo - {id}, soFar + {id};
      }
      assert soFar == done + ids;
    }

    // `dependencies <kind> <name> <list>`: parse, validate, write.
    method SetDependencies(id: Id, argument: string, unread: set<Id>, writes: bool) returns (ok: bool)
      modifies this
      ensures Step(old(pool), Command.SetDependencies(id, argument, unread), pool)
      ensures ok <==> writes && id in old(pool).datasets && Accepted(old(pool), id.name, ParseList(argument), unread)
      ensures !ok ==> pool == old(pool)
      ensures ok ==> ListStored(old(pool), id, ParseList(argument), pool)
    {
      var values := ParseList(argument);
      var valid := Validate(id.name, values, unread);
      ok := valid && writes && id in pool.datasets;
      if ok {
        ParseListIsClean(argument);
        ListIsStored(pool, id, values);
        pool := Storing(pool, id, Join(values, ','));
      }
    }

    // `dependency::validate`.
    method Validate(name: string, values: seq<string>, unread: set<Id>) returns (valid: bool)
      ensures valid <==> Accepted(pool, name, values, unread)
    {
      var graph := BuildGraph(unread);
      var verdict, _ := ValidateGraph(graph[name := values]);
      AcceptedIff(pool, name, values, unread, graph);
      valid := verdict.Valid?;
    }

    // `jail::set_enabled` and `bhyve::set_enabled`.
    method SetEnabled(id: Id, enabled: bool, writes: bool) returns (ok: bool)
      modifies this
      ensures Step(old(pool), Command.SetEnabled(id, enabled), pool)
      ensures ok <==> writes && id in old(pool).datasets
      ensures !ok ==> pool == old(pool)
      ensures ok ==> pool.Deps() == old(pool).Deps() && IsEnabled(pool, id) == Some(enabled)
      ensures ok ==> forall d :: d in pool.datasets && d != id ==> pool.datasets[d] == old(pool).datasets[d]
    {
      ok := writes && id in pool.datasets;
      if ok {
        FlagIsRead(enabled);
        pool := pool.(datasets := pool.datasets[id := pool.datasets[id].(enabled := BoolText(enabled))]);
        SameDeps(old(pool), pool);
      }
    }

    // `dependency::remove_references`: one resource at a time, stopping at a failed write.
    // What cannot be read is passed over.
    method RemoveReferences(name: string, unread: set<Id>, unwritable: set<Id>) returns (ok: bool, ghost done: set<Id>)
      modifies this
      ensures done <= old(pool).Listing() - unread && pool == ClearReferences(old(pool), name, done)
      ensures ok <==> forall d :: d in old(pool).Listing() - unread && d in unwritable ==>
                        !DependsOn(old(pool).Deps(), d, name)
      ensures ok ==> done == old(pool).Listing() - unread
      ensures AllReferable(old(pool).Deps()) ==> KeepsOthers(old(pool), pool, name, done)
    {
      done := {};
      var listing := pool.Listing();
      var todo := listing;
      assert pool == ClearReferences(pool, name, {});
      while todo != {}
        invariant todo <= listing && done == listing - todo - unread
        invariant pool == ClearReferences(old(pool), name, done)
        invariant forall d :: d in done && d in unwritable ==> !DependsOn(old(pool).Deps(), d, name)
        decreases todo
      {
        var id :| id in todo;
        ok := RewriteList(id, name, id !in unread, id !in unwritable, old(pool), done);
        if !ok {
          ClearedKeepsOthers(old(pool), name, done);
          return;
        }
        done := if id in unread then done else done + {id};
        todo := todo - {id};
      }
      ClearedKeepsOthers(old(pool), name, done);
      return true, done;
    }

    // One resource of that loop, after those in `done`.
    method RewriteList(id: Id, name: string, read: bool, writes: bool, ghost before: Pool, ghost done: set<Id>)
      returns (ok: bool)
      requires id !in done && pool == ClearReferences(before, name, done)
      modifies this
      ensures !ok ==> pool == old(pool)
      ensures ok ==> pool == ClearReferences(before, name, if read then done + {id} else done)
      ensures ok <==> (read && DependsOn(before.Deps(), id, name) ==> writes)
    {
      var current := ReadDependencies(id, read);
      assert read ==> current == DepsOf(before.Deps(), id);
      var filtered := Without(current, name);
      if |filtered| != |current| {
        if !writes {
          return false;
        }
        pool := Storing(pool, id, Join(filtered, ','));
      }
      if read { ClearOneMore(before, name, done, id, pool); }
      return true;
    }

    // `jail::destroy` and `bhyve::destroy`: stop, drop the references, drop the dataset with
    // everything below it. Directories may resist, and a recursive destroy that fails may have
    // removed some of what is below. In the end a jail's empty directory is removed, a full one
    // is not; a VM's seed volume may resist.
    method Destroy(id: Id, calls: DestroyCalls) returns (ok: bool)
      modifies this
      ensures Step(old(pool), Command.Destroy(id, calls.unread), pool)
      ensures ok <==> DestroySucceeds(old(pool), id, calls)
      ensures ok ==> Destroyed(old(pool), id, calls.unread, {}, pool)
      ensures ok && AllReferable(old(pool).Deps()) ==>
                DestroyKeepsOthers(old(pool), id, old(pool).Listing() - calls.unread, pool)
    {
      NothingStopped(pool, id, calls.unread, {}, pool);
      if id !in pool.datasets || !calls.stops {
        return false;
      }
      ghost var done;
      ok, done := RemoveReferences(id.name, calls.unread, calls.unwritable);
      NothingStopped(old(pool), id, calls.unread, done, pool);
      if !ok {
        return false;
      }
      ghost var cleared := pool;
      ghost var gone, left;
      ok, gone, left := DropDatasets(id, calls);
      DestroyEnds(old(pool), id, calls.unread, done, cleared, gone, left, pool);
    }

    // The recursive destroy of a dataset, and what follows.
    method DropDatasets(id: Id, calls: DestroyCalls) returns (ok: bool, ghost gone: set<Id>, ghost left: set<Id>)
      requires id in pool.datasets
      modifies this
      ensures pool == RemoveDatasets(old(pool), gone, left)
      ensures gone <= Under(old(pool).datasets.Keys, id) && left <= gone
      ensures id in gone <==> calls.removes
      ensures id in gone ==> gone == Under(old(pool).datasets.Keys, id) && (id.kind == Vm ==> left == {})
      ensures ok <==> calls.removes && calls.finishes
                      && (id.kind == Jail ==> calls.left !! Under(old(pool).datasets.Keys, id))
      ensures ok ==> left == {}
    {
      var all := Under(pool.datasets.Keys, id);
      if !calls.removes {
        var some := calls.partly * (all - {id});
        gone, left := some, calls.left * some;
        pool := RemoveDatasets(pool, some, calls.left * some);
        return false, gone, left;
      }
      var remain := if id.kind == Jail then calls.left * all else {};
      gone, left := all, remain;
      pool := RemoveDatasets(pool, all, remain);
      assert remain == {} <==> (id.kind == Jail ==> calls.left !! all) by {
        assert forall x :: x in calls.left * all <==> x in calls.left && x in all;
      }
      return remain == {} && calls.finishes, gone, left;
    }

    // `jail::create` for a jail or a base jail, up to its metadata; later steps of the
    // installation may fail but write nothing here. `cloned` says that it is made from a base.
    method CreateJail(name: string, base: bool, cloned: bool, calls: CreateCalls) returns (ok: bool)
      modifies this
      ensures Step(old(pool), if base then CreateBase(name) else Command.CreateJail(name, calls.overlooks), pool)
      ensures ok <==> CreationSucceeds(old(pool), name, base, cloned, calls)
      ensures ok && base ==> name in pool.bases && pool.datasets == old(pool).datasets
      ensures ok && !base ==> JailIsMade(old(pool), name, pool)
      ensures ok && !base && '/' !in name ==> Id(Jail, name) in pool.Listing()
    {
      ok := false;
      CreationNeedsJail(pool, name, base, cloned, calls);
      if if base then name in pool.bases else Id(Jail, name) in pool.datasets {
        return;
      }
      if !base && name in pool.bases {
        return;
      }
      var exists_ := VmExists(name, !calls.overlooks);
      if exists_ {
        return;
      }
      if base {
        ok := MakeBase(name, calls);
        assert Step(old(pool), CreateBase(name), pool);
      } else {
        ok := MakeJail(name, cloned, calls);
        assert Step(old(pool), Command.CreateJail(name, calls.overlooks), pool);
      }
    }

    method MakeBase(name: string, calls: CreateCalls) returns (ok: bool)
      modifies this
      ensures exists made :: made <= Parents(name) + {name} && pool == old(pool).(bases := old(pool).bases + made)
      ensures ok <==> calls.makes && calls.installs
      ensures ok ==> name in pool.bases
    {
      var made := if calls.makes then Parents(name) + {name} else calls.partly * Parents(name);
      pool := pool.(bases := pool.bases + made);
      ok := calls.makes && calls.installs;
    }

    // `zfs create -p` makes the missing datasets above, perhaps only some of them; a clone
    // fails without them.
    method MakeJail(name: string, cloned: bool, calls: CreateCalls) returns (ok: bool)
      requires Id(Jail, name) !in pool.datasets
      modifies this
      ensures JailsMade(old(pool), name, pool)
      ensures ok <==> JailSucceeds(old(pool), name, cloned, calls)
      ensures ok ==> JailIsMade(old(pool), name, pool)
    {
      ok := false;
      var missing := set p | p in Parents(name) && Id(Jail, p) !in pool.datasets;
      if cloned && missing != {} {
        return;
      }
      MakeJails(if calls.makes then missing + {name} else if cloned then {} else calls.partly * missing);
      if !calls.makes {
        return;
      }
      if !calls.writes {
        return;
      }
      ghost var made := pool;
      pool := pool.(datasets := pool.datasets[Id(Jail, name) := Dataset("", "true")]);
      NewJail(old(pool), name, made, pool);
      ok := calls.installs;
    }

    method MakeJails(names: set<string>)
      requires forall n :: n in names ==> Id(Jail, n) !in pool.datasets
      modifies this
      ensures pool == old(pool).(datasets := pool.datasets)
      ensures pool.datasets.Keys == old(pool).datasets.Keys + set n | n in names :: Id(Jail, n)
      ensures forall id :: id in pool.datasets ==>
                pool.datasets[id] == if id in old(pool).datasets then old(pool).datasets[id] else Dataset("", "")
    {
      var ids := set n | n in names :: Id(Jail, n);
      pool := pool.(datasets := pool.datasets + map id | id in ids :: Dataset("", ""));
    }

    // `bhyve::path_exists`: a failed `zfs list` reads as absence.
    method VmExists(name: string, works: bool) returns (found: bool)
      ensures found <==> Id(Vm, name) in pool.datasets && works
    {
      found := works && Id(Vm, name) in pool.datasets;
    }

    // `bhyve::create`, up to its metadata. A VM's name is a single path component. Making the
    // volume fails if it exists already, even if the test has overlooked it.
    method CreateVm(name: string, calls: CreateCalls) returns (ok: bool)
      modifies this
      ensures Step(old(pool), Command.CreateVm(name), pool)
      ensures ok <==> name != "" && '/' !in name
                      && Id(Jail, name) !in old(pool).datasets && Id(Vm, name) !in old(pool).datasets
                      && calls.makes && calls.writes && calls.installs
      ensures ok ==> pool.datasets.Keys == old(pool).datasets.Keys + {Id(Vm, name)}
                     && IsEnabled(pool, Id(Vm, name)) == Some(true) && pool.Deps()[Id(Vm, name)] == []
      ensures !ok && !calls.makes ==> pool == old(pool)
    {
      ok := false;
      if name == "" || '/' in name {
        return;
      }
      var found := VmExists(name, !calls.overlooks);
      if found || Id(Jail, name) in pool.datasets {
        return;
      }
      if !calls.makes || Id(Vm, name) in pool.datasets {
        return;
      }
      pool := pool.(datasets := pool.datasets[Id(Vm, name) := Dataset("", "")]);
      if !calls.writes {
        return;
      }
      pool := pool.(datasets := pool.datasets[Id(Vm, name) := Dataset("", "true")]);
      NewVm(old(pool), name, pool);
      ok := calls.installs;
    }
  }

  lemma NewJail(before: Pool, name: string, made: Pool, after: Pool)
    requires JailsMade(before, name, made) && Id(Jail, name) in made.datasets && Id(Jail, name) !in before.datasets
    requires forall p :: p in Parents(name) ==> Id(Jail, p) in made.datasets
    requires after == made.(datasets := made.datasets[Id(Jail, name) := Dataset("", "true")])
    ensures JailIsMade(before, name, after)
  {
    FlagIsRead(true);
  }

  lemma NewVm(before: Pool, name: string, after: Pool)
    requires after == before.(datasets := before.datasets[Id(Vm, name) := Dataset("", "true")])
    ensures after.datasets.Keys == before.datasets.Keys + {Id(Vm, name)}
    ensures IsEnabled(after, Id(Vm, name)) == Some(true) && after.Deps()[Id(Vm, name)] == []
  {
    FlagIsRead(true);
    ReadListOfJoin([]);
  }

  // ---- What the commands leave ----

  function IsEnabled(pool: Pool, id: Id): Option<bool> {
    if id in pool.datasets then ReadBool(pool.datasets[id].enabled, true) else None
  }

  lemma FlagIsRead(b: bool)
    ensures ReadBool(BoolText(b), true) == Some(b) && ReadBool(BoolText(b), false) == Some(b)
  {
    TrimResult("true");
    TrimResult("false");
  }

  lemma AcceptedIff(pool: Pool, name: string, values: seq<string>, unread: set<Id>, g: Graph<string>)
    requires IsListedGraph(g, pool.DepsSeen(unread), pool.Listing())
    ensures Accepted(pool, name, values, unread) <==> Closed(g[name := values]) && Acyclic(g[name := values])
  {
    forall h | IsListedGraph(h, pool.DepsSeen(unread), pool.Listing())
      ensures h == g
    {
      ListedGraphIsUnique(pool.DepsSeen(unread), pool.Listing(), g, h);
    }
  }

  // What a change of dependencies stores is read back as given, and nothing else changes.
  ghost predicate ListStored(before: Pool, id: Id, values: seq<string>, after: Pool) {
    && id in before.datasets && after == before.(datasets := after.datasets)
    && after.Deps() == before.Deps()[id := if values == ["-"] then [] else values]
    && forall d :: d in before.datasets ==> after.datasets[d].enabled == before.datasets[d].enabled
  }

  lemma ListIsStored(pool: Pool, id: Id, values: seq<string>)
    requires id in pool.datasets && AllClean(values)
    ensures ListStored(pool, id, values, Storing(pool, id, Join(values, ',')))
  {
    var stored := StoredList(pool, id, values);
  }

  // What remains of a list without a name; the one-element list of a dash is lost.
  function Remaining(names: seq<string>, name: string): seq<string> {
    var rest := Without(names, name);
    if name in names && rest == ["-"] then [] else rest
  }

  // Each other entry stays, in its place between those that stay.
  lemma WithoutKeepsOrder(before: seq<string>, n: string, after: seq<string>, name: string)
    ensures Without(before + [n] + after, name)
            == Without(before, name) + (if n == name then [] else [n]) + Without(after, name)
  {
    WithoutConcat(before + [n], after, name);
    WithoutConcat(before, [n], name);
    assert [n][1..] == [];
  }

  lemma {:induction false} WithoutConcat(a: seq<string>, b: seq<string>, name: string)
    ensures Without(a + b, name) == Without(a, name) + Without(b, name)
  {
    if a == [] {
      assert a + b == b;
    } else {
      var first := if a[0] == name then [] else [a[0]];
      WithoutConcat(a[1..], b, name);
      WithoutStep(a, name);
      assert (a + b)[1..] == a[1..] + b && (a + b)[0] == a[0];
      WithoutStep(a + b, name);
      Regroup(first, Without(a[1..], name), Without(b, name));
    }
  }

  lemma WithoutStep(names: seq<string>, name: string)
    requires names != []
    ensures Without(names, name) == (if names[0] == name then [] else [names[0]]) + Without(names[1..], name)
  {
  }

  lemma Regroup(a: seq<string>, b: seq<string>, c: seq<string>)
    ensures a + (b + c) == a + b + c
  {
  }

  lemma {:induction false} NothingWithout(names: seq<string>, name: string)
    requires name !in names
    ensures Without(names, name) == names
  {
    if names != [] {
      NothingWithout(names[1..], name);
    }
  }

  // Clearing references takes exactly the one name from the lists of `done`.
  ghost predicate KeepsOthers(before: Pool, after: Pool, name: string, done: set<Id>) {
    && after == before.(datasets := after.datasets) && after.datasets.Keys == before.datasets.Keys
    && forall d :: d in before.datasets ==>
         && after.datasets[d].enabled == before.datasets[d].enabled
         && after.Deps()[d] == if d in done then Remaining(before.Deps()[d], name) else before.Deps()[d]
  }

  lemma ClearedKeepsOthers(pool: Pool, name: string, done: set<Id>)
    ensures AllReferable(pool.Deps()) ==> KeepsOthers(pool, ClearReferences(pool, name, done), name, done)
  {
    if AllReferable(pool.Deps()) {
      forall d | d in pool.datasets && d in done
        ensures ReadList(CleanedDataset(pool.datasets[d], name).dependencies) == Remaining(pool.Deps()[d], name)
      {
        var names := pool.Deps()[d];
        forall n | n in names
          ensures Clean(n)
        {
          assert DependsOn(pool.Deps(), d, n);
        }
        ReadListOfJoin(Without(names, name));
        if name !in names { NothingWithout(names, name); }
      }
    }
  }

  // So does a completed destroy, for all that remains.
  ghost predicate DestroyKeepsOthers(before: Pool, id: Id, done: set<Id>, after: Pool) {
    && after == before.(datasets := after.datasets)
    && after.datasets.Keys == before.datasets.Keys - Under(before.datasets.Keys, id)
    && forall d :: d in after.datasets ==>
         && after.datasets[d].enabled == before.datasets[d].enabled
         && after.Deps()[d] == if d in done then Remaining(before.Deps()[d], id.name) else before.Deps()[d]
  }

  lemma RemovalKeepsOthers(before: Pool, cleared: Pool, id: Id, done: set<Id>, left: set<Id>, after: Pool)
    requires KeepsOthers(before, cleared, id.name, done)
    requires after == RemoveDatasets(cleared, Under(before.datasets.Keys, id), left)
    ensures left == {} ==> DestroyKeepsOthers(before, id, done, after)
  {
  }

  predicate DestroySucceeds(pool: Pool, id: Id, calls: DestroyCalls) {
    && id in pool.datasets && calls.stops && calls.removes && calls.finishes
    && (forall d :: d in pool.Listing() - calls.unread && d in calls.unwritable ==> !DependsOn(pool.Deps(), d, id.name))
    && (id.kind == Jail ==> calls.left !! Under(pool.datasets.Keys, id))
  }

  predicate JailSucceeds(pool: Pool, name: string, cloned: bool, calls: CreateCalls) {
    && Id(Jail, name) !in pool.datasets && calls.makes && calls.writes && calls.installs
    && (cloned ==> forall p :: p in Parents(name) ==> Id(Jail, p) in pool.datasets)
  }

  predicate CreationSucceeds(pool: Pool, name: string, base: bool, cloned: bool, calls: CreateCalls) {
    && name !in pool.bases && (Id(Vm, name) in pool.datasets ==> calls.overlooks)
    && if base then calls.makes && calls.installs else JailSucceeds(pool, name, cloned, calls)
  }

  lemma CreationNeedsJail(pool: Pool, name: string, base: bool, cloned: bool, calls: CreateCalls)
    ensures CreationSucceeds(pool, name, base, cloned, calls) ==>
            name !in pool.bases && (base || Id(Jail, name) !in pool.datasets)
  {
  }

  // The jail is there with everything above it, enabled and without dependencies.
  ghost predicate JailIsMade(before: Pool, name: string, after: Pool) {
    && JailsMade(before, name, after) && Id(Jail, name) in after.datasets
    && (forall p :: p in Parents(name) ==> Id(Jail, p) in after.datasets)
    && IsEnabled(after, Id(Jail, name)) == Some(true)
  }

  lemma SeenIs(pool: Pool, listing: set<Id>, seen: Deps, unread: set<Id>)
    requires listing == pool.Listing() == seen.Keys
    requires forall d :: d in listing ==> seen[d] == if d in pool.datasets && d !in unread then pool.Deps()[d] else []
    ensures forall d :: d in listing ==> seen[d] == pool.DepsSeen(unread)[d]
    ensures forall g :: IsListedGraph(g, seen, listing) ==> IsListedGraph(g, pool.DepsSeen(unread), listing)
  {
  }

  lemma DestroyEnds(
    before: Pool, id: Id, unread: set<Id>, done: set<Id>, cleared: Pool, gone: set<Id>, left: set<Id>, after: Pool)
    requires id in before.datasets && done == before.Listing() - unread
    requires cleared == ClearReferences(before, id.name, done) && after == RemoveDatasets(cleared, gone, left)
    requires gone <= Under(cleared.datasets.Keys, id) && left <= gone
    requires id in gone ==> gone == Under(cleared.datasets.Keys, id) && (id.kind == Vm ==> left == {})
    ensures Step(before, Command.Destroy(id, unread), after)
    ensures id in gone ==> Destroyed(before, id, unread, left, after)
    ensures id in gone && left == {} && KeepsOthers(before, cleared, id.name, done) ==>
              DestroyKeepsOthers(before, id, done, after)
  {
    assert cleared.datasets.Keys == before.datasets.Keys;
    if id in gone {
      assert Destroyed(before, id, unread, left, after);
      if KeepsOthers(before, cleared, id.name, done) { RemovalKeepsOthers(before, cleared, id, done, left, after); }
    } else {
      assert StoppedAt(before, id, unread, done, gone, left, after);
    }
  }

  lemma NothingStopped(pool: Pool, id: Id, unread: set<Id>, done: set<Id>, next: Pool)
    requires done <= pool.Listing() - unread && next == ClearReferences(pool, id.name, done)
    ensures DestroyStopped(pool, id, unread, next)
  {
    assert next == RemoveDatasets(ClearReferences(pool, id.name, done), {}, {});
    assert StoppedAt(pool, id, unread, done, {}, {}, next);
  }

  lemma ClearOneMore(before: Pool, name: string, done: set<Id>, id: Id, pool: Pool)
    requires id !in done
    requires var cleared := ClearReferences(before, name, done);
             pool == if id in before.datasets && name in ReadList(before.datasets[id].dependencies)
                     then cleared.(datasets := cleared.datasets[id := CleanedDataset(before.datasets[id], name)])
                     else cleared
    ensures pool == ClearReferences(before, name, done + {id})
  {
  }
}
