# A model of priosun

Priosun manages FreeBSD jails and bhyve virtual machines through a client and a daemon.
This project models the parts of it that carry state or decode what others have encoded,
and proves what they keep:

- the dependency graph of jails and VMs: its validation by depth-first search, the commands that
  edit it, what breaks it, and the starts that follow it (`Graphs`, `Dependency`, `Catalog`,
  `Runs`, `Registry`, `RegistryLimits`, `Startup`);
- what a jail acquires on the host and gives back, and the stop of a VM against its monitor thread
  (`JailNetwork`, `VmStop`);
- the wire: frames from several threads behind one lock, the course of one connection, both
  together, the console relay (`Wire`, `Session`, `Connection`, `Relay`);
- requests between argument vectors and trees (`Numbers`, `Text`, `Arguments`, `Nvtree`,
  `SetRequest`, `UpRequest`, `VmRequest`, `Requests`, `RequestTrees`, `RequestRoundTrip`);
- the passthrough list, PCI slots and provisioning (`Passthru`, `Provisioning`).

`dafny verify dfyconfig.toml` checks the whole project.

Code that changes state step by step is a class or a method with loops; its contract ties the
new state to the old one or to a specification function, and lemmas about that function state
what the code is for. Threads are interleaved steps of a state machine.

Calls to ZFS, the kernel and child processes may turn out in any way. How each one does is given
to the methods, as parameters (`Registry`, `Passthru`, `Provisioning`) or by the number of the call
(`Startup.Calls`, `JailNetwork.Kernel.works`); the contracts hold for all of these, and say when
an operation succeeds in terms of them and of the state alone. A failed write, creation or destroy
stops the command. A failed read does not: a property that `zfs get` cannot read counts as unset
(src/metadata.rs:27-29), and a VM that `zfs list` cannot find counts as missing
(src/bhyve.rs:1336-1342). The theorems about the dependency graph, the starts, the passthrough list
and provisioning say exactly what such a failure costs. In `VmStop` the calls whose outcome the code
discards may fail as well.

## Hypotheses

The code does not establish these; the theorems that need them say so in their contracts, except
for those marked as built in.

- Built in: the programs `zfs` and `umount` can be spawned, and the tests that a directory or file
  exists, that a jail or VM runs, and the reading of directories give the right answer. `VmStop`
  does allow a PID file to be misread, and `JailNetwork` the lookup of a jail to fail.
- Built in: commands that edit the graph take effect one at a time. Nothing locks between
  `dependency::validate` and `metadata::set` (src/jail.rs:395-404).
- The listing agrees with the existence tests, `Pool.ListsEverything`. `resources` reads the
  entries of two directories (src/dependency.rs:13-38). A VM exists as a volume
  (src/bhyve.rs:823-827), with or without a directory there; a base jail under a jail's name hides
  that jail, which `jail::create` prevents in one direction only (src/jail.rs:61-65); and a jail
  `a/b`, whose own name `jail::create` never validates, lies below the listed entries. The step
  and run theorems of `Registry` do without this hypothesis and give the exact condition instead;
  `OrdinaryRunKeepsInvariant` asks for the half it needs, and only where it needs it: no listed
  name without its resource when dependencies change, no unlisted resource when one is destroyed.
  In between VMs and their directories come and go (`OrdinaryRunWithVm`). `RegistryLimits` shows
  every way in which the hypothesis can fail.
- Built in: other tools make and remove only VM directories. The names of jails are relative paths
  without empty or dot components. A property that is not set reads as unset, although a jail
  `a/b` whose creation stopped before its properties were written inherits those of a jail `a`.
- Built in: while resources are being started, the stored dependency lists do not change, resources
  that are up stay up, and the configuration of a VM can be read at any time or never.
- Waits, pipe reads and the writing of responses do not fail, except in `AtMostOneResponse` and
  where `FailedReadAllowsLateEvent` and `LostResponseIsRetriedIff` say what happens if they do.
  After a failed write the socket takes no further bytes.
- Built in: the kernel never hands out an epair that exists already. One generation of one VM is
  looked at, and process ids are not reused during it.

## Where code and documentation differ

- README.md:209-213 of the repository speaks of dependency lists in configuration files. The code
  keeps them in a ZFS property (src/metadata.rs:10-37), and so does the model.
- `request_to_args` asks a jail creation for the field `cloud_init` (src/protocol.rs:289-291),
  which `encode_create` never adds to one (src/protocol.rs:660-671). The model keeps this:
  `JailNeverReturns`.

## False as first expected, with the exact condition

- A destroy keeps the graph sound exactly if the victim's directory stays behind or every
  dependent that is not destroyed with it is listed and its list was read:
  `DestroyKeepsInvariantIff`. It fails for a VM without a directory, a jail that shares its name
  with a base jail, a jail below another jail, and an unread list: `HiddenVmBreaksGraph`,
  `HiddenJailBreaksGraph`, `NestedJailBreaksGraph`, `UnreadListKeepsReference`.
- Dropping references keeps all other dependencies of every resource, in their order, except that
  a list of which only `-` remains reads as empty afterwards: `ClearedKeepsOthers`.
- An accepted change of dependencies keeps the graph sound exactly if every new dependency exists
  and none leads back: `SetDependenciesKeepsInvariantIff`. Acceptance is enough if every list was
  read and every listed name is a resource (`FullyReadIsForward`), otherwise not:
  `UnreadListAllowsCycle`, `StrayDirectoryIsAccepted`.
- The creation of a jail keeps names distinct exactly if no jail that it makes is named like a VM:
  `CreateJailKeepsInvariantIff`. It fails if the VM's existence test fails, or for a jail below a
  VM's name: `OverlookedVmLosesItsName`, `NestedJailTakesVmName`.
- Starts follow the lists that were read. Every order in which they can come is one of stored
  dependencies exactly if whatever is down and cannot be read has its dependencies up to begin
  with; at boot, exactly if it has none (`OrderedByStoredIff`, `AlwaysOrderedByStoredIff`,
  `UnreadListStartsEarly`). A boot starts what is enabled exactly if every unread property says so
  (`EnabledAsStoredIff`, `UnreadFlagEnables`).
- That validation at boot has succeeded rules out a dependency error in the starts, whatever is
  stored, exactly if validation read every list that a start may read: `ValidationSufficesIff`.
  Where no call fails, a start then succeeds: `Host.Start`. The two errors are all that can make a
  start impossible: `StartableIff`. A cycle that validation missed, accepted for the same reason when
  it was stored, stops a start: `MissedCycleStopsStart`. A sound stored graph needs no such
  condition: `Host.StartEnabled`.
- A stop of a VM that returned Ok means that the monitor has made every call and reaped every
  child, unless it misread the PID file; the tap and the socket are gone exactly if a call that
  removes them worked. Its wait for the PID file is in vain exactly if the monitor's removal has
  failed, or the monitor ended before it with the daemon: `StoppedMeansCleanedUp`,
  `CleanupIsBlockedIff`, `BlockedIsFinal`, with `MisreadLeavesVmAlive`, `FailedCallLeavesTap`,
  `FailedRemovalBlocksStop`, `RestartBlocksStop`.
- Adding a passthrough device keeps the others exactly if the list was read or held nothing else:
  `NothingLostIff`, `UnreadListIsLost`. A successful `up` of a provisioned service does not
  provision it again exactly if the property can be read: `Service.Up`.
- A dependency list arrives as typed exactly if its first name does not start with a dash; `["-"]`
  is lost, others are rejected: `JourneyKeepsNames`.
- A request, whatever it is, decodes from its own arguments exactly if `Fits` and `Survives` hold:
  `DecodesIff`. `Fits` asks for numbers in range, known kinds, clean lists and options that go
  together, and that a start called like one of its flags carries that flag; every accepted request
  that survives fits (`AcceptedFits`). `Survives` asks that a volume is not called `--size`, a VM
  whose settings change is not called like an option that takes a value, the directory of an `up` is
  not `--provisioner`, and so on; for `create vm` and `create base jail` that no free-form text names
  an option ahead of that option's own place, unless the argument after that text happens to be the
  option's value. Accepted requests that do not come back: `OptionNameExample`, `DirectoryExample`,
  `DisturbedExample`, `VolumeExample`, `BaseExample`, `ProvisionExample`.
- Frames decode to the messages exactly if none is above the read limit: `DecodeOfEncode`.
- The PCI slots are distinct and exist exactly up to 23 passthrough devices with VNC, 25 without:
  `AssignSlots`.
- A failed start of a jail leaves the host in balance exactly if all rollback calls worked, or all
  failed while the jail is up, and an epair with a malformed name is never given back:
  `Kernel.StartInner`. A failed stop does exactly if none of its releasing calls worked:
  `Kernel.Stop`.
- A finished connection has answered exactly unless an `attach` failed, or `provision` or
  `network-init` could not load the configuration: `SilentIff`.

## Model

| member | source | states |
|---|---|---|
| `Text.TrimResult` | src/metadata.rs:31 | trimming yields text without surrounding whitespace made of the argument's characters, and leaves trimmed text alone |
| `Text.TrimTakesWhitespace` | src/metadata.rs:31 | what trimming takes away is whitespace at the two ends, and no more |
| `Text.SplitOfJoin` | src/dependency.rs:46-51 | splitting at commas undoes joining for separator-free parts |
| `Text.JoinOfSplit` | src/bhyve.rs:474-480 | joining undoes splitting, for every text |
| `Text.ReadListOfJoin` | src/jail.rs:402-404 | a stored list of clean names is read back as written, except that `["-"]` reads as empty |
| `Text.ParseListIsClean` | src/main.rs:526-531 | decoding a command-line list yields only trimmed, non-empty, comma-free names |
| `Text.ParseListOfJoin` | src/protocol.rs:533-545 | decoding a joined list of clean names gives the list |
| `Text.JourneyKeepsNames` | src/protocol.rs:526-545 | a dependency list survives command line, request array, child argument, ZFS property and graph unchanged; the child rejects one whose first name starts with a dash, except that `["-"]` arrives empty |
| `Dependency.Search.Visit` | src/dependency.rs:86-106 | terminates; on success the name is visited, `visiting` is restored and `visited` grew in an order that puts targets first; on failure the named node lies on a cycle |
| `Dependency.ValidateGraph` | src/dependency.rs:70-84 | accepts exactly the closed acyclic graphs, whatever the order of the keys; names a missing dependency or a node on a cycle otherwise; the visiting order is topological |
| `Graphs.OrderImpliesAcyclic` | src/dependency.rs:97-105 | a graph whose nodes can be listed with all targets first has no cycle |
| `Graphs.PathClosesCycle` | src/dependency.rs:95-96 | meeting a node of the current path again means that it lies on a cycle |
| `Graphs.ReplaceAcyclicIff` | src/dependency.rs:54-56 | giving a node new targets keeps the graph acyclic exactly if none of them led to it |
| `Catalog.ReplaceValidated` | src/dependency.rs:60-63 | storing a list that was validated against the listing keeps the whole graph sound, hidden resources included |
| `Catalog.ReplaceSoundIff` | src/dependency.rs:60-63 | replacing one list keeps the whole graph sound exactly if every new name exists and none leads back |
| `Catalog.ClearedSound` | src/dependency.rs:108-126 | dropping references to one name, from any part of the resources, keeps the graph sound |
| `Catalog.RemovalSoundIff` | src/jail.rs:419-426 | removing a resource, with what lies below it, keeps the graph sound exactly if its name stays behind or every remaining dependent had its reference dropped |
| `Registry.CreateJailKeepsInvariantIff` | src/jail.rs:60-107 | a creation, stopped anywhere, keeps the graph closed and acyclic and names distinct exactly if no jail it makes, wanted or above the wanted one, is named like a VM |
| `Registry.CreateVmKeepsInvariant` | src/bhyve.rs:500-509 | a VM that got past the checks keeps the invariant, whether or not the existence test worked |
| `Registry.SetDependenciesKeepsInvariantIff` | src/jail.rs:395-404 | a change accepted against what could be read keeps the invariant exactly if every new dependency exists and none leads back |
| `Registry.FullyReadIsForward` | src/dependency.rs:60-63 | if every list was read and every listed name is a resource, acceptance is enough |
| `Registry.ReferencesCleared` | src/dependency.rs:108-126 | rewriting the properties removes the name, adds none and leaves the other resources alone, although the lists go through text |
| `Registry.ClearedKeepsOthers` | src/dependency.rs:116-122 | rewriting takes exactly that name: every cleared resource keeps its other dependencies in their order, with the one-dash list as the only exception; all others, and every `enabled`, stay as they are |
| `Registry.WithoutKeepsOrder` | src/dependency.rs:116-120 | every other entry of a list stays in its place among those that stay |
| `Registry.ClearReferencesKeepsInvariant` | src/dependency.rs:108-126 | every intermediate state of a destroy is sound, whatever it could not read |
| `Registry.StoppedKeepsInvariant` | src/jail.rs:419-424 | a destroy that stops while it drops references, or after it removed some of the jails below, keeps the invariant |
| `Registry.DestroyKeepsInvariantIff` | src/jail.rs:415-431 | a completed destroy keeps the graph sound exactly if the victim's directory stays behind or every dependent that is not destroyed with it is listed and was read |
| `Registry.RemovalKeepsOthers` | src/jail.rs:415-431 | a completed destroy removes exactly the victim and what lies below, and all that remains keeps its other dependencies in order, and its `enabled` |
| `Registry.StepKeepsInvariantIff` | src/bin/priosund.rs:635-655 | any command with any failing reads, stopping anywhere, keeps the invariant exactly if it makes no jail named like a VM, stores no dependency that is missing or leads back, and completes no destroy with an unreached dependent |
| `Registry.RunKeepsInvariantIff` | src/dependency.rs:60-63 | along every run of such commands the graph stays closed and acyclic and names distinct exactly as long as every step is safe |
| `Registry.OrdinaryIsSafe` | src/dependency.rs:13-38 | a command whose reads work and that makes no jail below another is safe, if no listed name lacks its resource when it sets dependencies and no resource is unlisted when it destroys one |
| `Registry.OrdinaryRunKeepsInvariant` | src/dependency.rs:13-38 | every run of such steps from nothing, with VMs and their directories made in any order, keeps the invariant in every state |
| `RegistryLimits.OrdinaryRunWithVm` | src/bhyve.rs:1344-1358 | there is such a run that makes a VM and a jail depending on it, and destroys the VM |
| `RegistryLimits.HiddenVmBreaksGraph` | src/dependency.rs:15-24 | a VM without a directory can be left depending on a destroyed jail |
| `RegistryLimits.HiddenJailBreaksGraph` | src/dependency.rs:25-29 | so can a jail that shares its name with a base jail |
| `RegistryLimits.NestedJailBreaksGraph` | src/dependency.rs:19-24 | so can a jail below another jail |
| `RegistryLimits.UnreadListKeepsReference` | src/dependency.rs:110-120 | so can any dependent whose list could not be read |
| `RegistryLimits.UnreadListAllowsCycle` | src/metadata.rs:27-29 | with an unread list, validation accepts a cycle |
| `RegistryLimits.StrayDirectoryIsAccepted` | src/dependency.rs:15-24 | a directory without a VM is accepted as a dependency |
| `RegistryLimits.OverlookedVmLosesItsName` | src/jail.rs:66-71 | after a failed existence test a jail gets the name of a VM |
| `RegistryLimits.NestedJailTakesVmName` | src/jail.rs:98 | a jail below the name of a VM makes a jail of that name |
| `Registry.Zfs.ReadDependencies` | src/metadata.rs:22-37 | the decoded list of an existing resource that could be read, the empty list otherwise |
| `Registry.Zfs.BuildGraph` | src/dependency.rs:40-58 | the graph has exactly the listed names, each with its list as far as it could be read; a VM's entry wins over a jail's of the same name |
| `Registry.Zfs.SetDependencies` | src/bhyve.rs:811-816 | succeeds exactly if the write works, the resource exists and the listed graph with the new list is closed and acyclic; then exactly that list is read back, but `["-"]` as empty; a failure changes nothing |
| `Registry.Zfs.Validate` | src/dependency.rs:60-63 | accepts exactly if the listed graph, as far as it was read, with the new list is closed and acyclic |
| `Registry.Zfs.SetEnabled` | src/bhyve.rs:818-821 | succeeds exactly if the write works and the resource exists; then that value is read back, and nothing else changes |
| `Registry.Zfs.RemoveReferences` | src/dependency.rs:108-126 | succeeds exactly if no dependent whose list was read is unwritable; then every listed resource whose list was read has lost exactly that name and kept the others in order; a failure has done so for a part of them; nothing else changes |
| `Registry.Zfs.Destroy` | src/jail.rs:415-431 | succeeds exactly under the stated outcomes of its calls; then exactly the victim and what lies below it are gone and every other resource keeps its other dependencies, in order, and its `enabled`; a failure ends in a state the `Step` relation allows |
| `Registry.Zfs.CreateJail` | src/jail.rs:59-107 | succeeds exactly if no jail, base jail or visible VM has the name and its calls work; then the jail exists, enabled and without dependencies, with all jails above it; otherwise ends in a state `Step` allows |
| `Registry.Zfs.MakeJail` | src/jail.rs:84-107 | succeeds exactly if its calls work and, for a clone, no jail above it is missing; makes the jail and the missing jails above it, or only some of these; a success leaves it enabled |
| `Registry.Zfs.VmExists` | src/bhyve.rs:1336-1342 | finds a VM exactly if it exists and the call worked |
| `Registry.Zfs.CreateVm` | src/bhyve.rs:498-551 | the same for a VM, whose name is a single path component; succeeds exactly if neither a jail nor a VM has the name and its calls work; then exactly the VM is new, enabled and without dependencies |
| `Startup.Host.StartInner` | src/jail.rs:541 | needs every direct dependency up and the resource down, goes as the number of the attempt says, and records it |
| `Startup.Host.StartJail` | src/jail.rs:520-543 | terminates on every graph, cyclic or dangling; stops nothing; starts only what the jail reaches by the lists that were read, off the stack, in dependency order; on success the jail is up and the stack restored; each error has a witness: a chain of dependencies, a failed existence test, a failed last attempt or an unreadable configuration |
| `Startup.Host.StartVm` | src/bhyve.rs:1015-1041 | the same for a VM; if its configuration cannot be read, nothing is started |
| `Startup.Host.StartDependencies` | src/jail.rs:531-539 | on success every dependency that was read exists and is up, and the resource itself is still down |
| `Startup.Host.StartDependency` | src/bhyve.rs:1030-1036 | a name is looked up among jails first, then VMs, and is an error otherwise or if the test of the VM failed |
| `Startup.Host.Start` | src/jail.rs:516-518 | a single start touches only what the resource reaches; on a sound catalog it fails only for a failed call; where no call fails it succeeds if no chain circles or dangles; from nothing running it does not succeed for what cannot be started |
| `Startup.Host.StartAll` | src/bin/priosund.rs:83-88 | in any order, only what the given resources reach is tried; on success all of them are up, and from nothing running exactly what they need; a failure is explained by the given resource it came from |
| `Startup.Host.CollectEnabled` | src/dependency.rs:128-136 | exactly the listed resources whose `enabled` reads as true or cannot be read; an error exactly if some listed value that was read is no boolean, and it names one |
| `Startup.Host.StartEnabled` | src/bin/priosund.rs:81-90 | rejects exactly if the listed graph does not validate, and calls a property unreadable only if it was read as no boolean; whatever is tried is reached from something enabled; from nothing running, a successful boot leaves up exactly the enabled resources and all they reach, in dependency order; if the stored graph is sound, or validation missed no list that the starts read, only a failed call stops it; a sound, completely listed pool is never rejected |
| `Startup.ValidateAll` | src/dependency.rs:65-68 | accepts exactly a closed acyclic graph of what could be read, and so every sound, completely listed pool |
| `Startup.StartedAtMostOnce` | src/jail.rs:525-527 | in an ordered record no resource is started again once it is up |
| `Startup.OrderedIsDependencyClosed` | src/jail.rs:531-541 | such a record never leaves a resource up without everything it depends on |
| `Startup.ValidatedHasNoErrors` | src/dependency.rs:65-68 | after validation of a listing, no chain from a listed resource, by lists that validation saw, runs in a circle or leads to an unknown name |
| `Startup.SoundHasNoErrors` | src/jail.rs:528-538 | the same for every resource of a sound catalog |
| `Startup.StartableIff` | src/jail.rs:520-543 | some order of starts brings a resource up from nothing running exactly if no chain of its dependencies circles or reaches an unknown name |
| `Startup.StartedHasNoErrors` | src/jail.rs:525-541 | what came up is on no circle and leads to no unknown name: each resource on a chain came up before the one that depends on it |
| `Startup.BootGraphCovers` | src/dependency.rs:40-58 | validation sees every list that the starts read, if it missed none of them |
| `Startup.BootHasNoErrors` | src/bin/priosund.rs:81-90 | after validation, no start from a listed resource runs in a circle or meets an unknown name, if the stored graph is sound or validation saw every list that is read |
| `Startup.BootedExactly` | src/bin/priosund.rs:81-90 | an ordered record that covers the enabled resources and stays below them is up exactly on what they need |
| `Startup.OrderedByStoredIff` | src/jail.rs:531-541 | whatever is started from where only some resources are up, each start comes after what it depends on by the stored lists, exactly if whatever is down and cannot be read has its stored dependencies up to begin with |
| `Startup.AlwaysOrderedByStoredIff` | src/bin/priosund.rs:81-90 | from nothing running, and so from anywhere, that is exactly if nothing that cannot be read has a dependency |
| `Startup.EnabledAsStoredIff` | src/dependency.rs:128-136 | what counts as enabled is what is enabled exactly if every unread property says so |
| `Startup.UnreadListStartsEarly` | src/metadata.rs:27-29 | a jail whose list cannot be read comes up ahead of its dependency |
| `Startup.UnreadFlagEnables` | src/metadata.rs:44-51 | a disabled resource whose property cannot be read is started |
| `RegistryLimits.ValidationSufficesIff` | src/dependency.rs:65-68 | whatever the resources store, validation means that all that is listed can be started exactly if it missed no list that the starts may read |
| `RegistryLimits.MissedCycleStopsStart` | src/metadata.rs:27-29 | a cycle accepted because of an unread list passes validation for the same reason, and no start from nothing running brings its resources up |
| `JailNetwork.PartlyBalancedIff` | src/jail.rs:545-632 | a host with part of what a start acquires is in balance only with nothing or all of it |
| `JailNetwork.WithJailBalanced` | src/jail.rs:578-600 | a completed start keeps balance, and stopping that jail restores the host |
| `JailNetwork.WithoutJailBalanced` | src/jail.rs:634-663 | a completed stop keeps balance |
| `JailNetwork.RunStaysBalanced` | src/jail.rs:545-663 | over any run of starts, stops and undone operations, epairs, memberships and mounts correspond one to one with the running jails |
| `JailNetwork.Kernel.CleanupEpair` | src/jail.rs:685-691 | the interface goes exactly if both calls work, the membership exactly if the first does |
| `JailNetwork.Kernel.StartInner` | src/jail.rs:545-632 | succeeds exactly if its nine calls work and the new epair has a proper name; then these calls were made and exactly one jail with that epair was added; after a failure the host is as it was if every rollback call worked, and balanced exactly then or if the jail came up and none did |
| `JailNetwork.Kernel.SetUp` | src/jail.rs:558-632 | the same for the part that has an epair |
| `JailNetwork.Kernel.MountAndStart` | src/jail.rs:574-632 | the same for the part after the epair has joined the bridge |
| `JailNetwork.Kernel.UndoJailFirst` | src/jail.rs:609-615 | if the epair cannot be moved, the jail is stopped first, then the mount, the membership and the epair are given back; what that leaves |
| `JailNetwork.Kernel.UndoEpairFirst` | src/jail.rs:616-631 | after that the epair is given back first, and destroyed only if it left the bridge |
| `JailNetwork.Kernel.IsUndone` | src/jail.rs:585-631 | whatever share is left after a rollback, it is nothing exactly if all rollback calls worked, and balanced exactly then or if the jail came up and none did |
| `JailNetwork.Kernel.FinishStart` | src/jail.rs:609-632 | the same for the part after the jail has come up |
| `JailNetwork.Kernel.Stop` | src/jail.rs:634-663 | succeeds exactly if its calls work, one of fifty for the mount; then exactly the epair recorded in `host.domainname`, its membership, the mount and the jail are gone; a failure leaves the host balanced, and as it was, exactly if none of the releasing calls worked |
| `JailNetwork.Kernel.StopRunning` | src/jail.rs:639-656 | the same for a jail that is running; on success the interface left the bridge and was destroyed before the jail was stopped and its mount removed |
| `JailNetwork.Kernel.Release` | src/jail.rs:649-656 | the same for the part that gives back what the jail has |
| `JailNetwork.Kernel.UnmountRetrying` | src/jail.rs:665-683 | succeeds exactly if one of fifty attempts works; the mount goes then and only then |
| `VmStop.NextForward` | src/bhyve.rs:1251-1304 | every step of any number of stops, the monitor, bhyve and swtpm, and a restart of the daemon, keeps the invariant and never brings back the PID file, bhyve or the monitor, nor takes back a call |
| `VmStop.RunKeepsInvariant` | src/bhyve.rs:1251-1304 | so does every interleaved run, whichever removals fail |
| `VmStop.StoppedMeansCleanedUp` | src/bhyve.rs:1279-1304 | unless a PID file was misread, a stop that returned Ok means that bhyve and swtpm are reaped, every call has been made and the PID file is gone, and it goes only then; in any case the socket and the tap are gone exactly if a call to remove them worked |
| `VmStop.SignalledStopReturnsOk` | src/bhyve.rs:1279-1318 | a run in which a stop signals a live VM, waits for the monitor and returns Ok over a VM of which nothing is left |
| `VmStop.CleanupIsBlockedIff` | src/bhyve.rs:1320-1329 | while a stop waits for the PID file to go, the monitor can step and every step brings it closer, exactly unless its removal of the file has failed or the daemon was restarted |
| `VmStop.CleanupEndsWait` | src/bhyve.rs:1291-1304 | once the PID file is gone, a stop that waits for that has a step and can only go on; while it is there it can only give up |
| `VmStop.PastWaitsGoesOn` | src/bhyve.rs:1305-1318 | past its waits a stop has a step until it returns Ok, every step is its next statement, and none is an error |
| `VmStop.WaitsGoOn` | src/bhyve.rs:1279-1304 | before that it always has a step as well: it reads the PID exactly if the file is there, and goes on to wait for cleanup exactly if bhyve has exited |
| `VmStop.MonitorGoesOn` | src/bhyve.rs:1251-1276 | the monitor has a step until it is done, exactly unless it waits for a child that is alive |
| `VmStop.StopRemovesTheRest` | src/bhyve.rs:1305-1318 | a run in which a stop past its waits removes all files, and the swtpm and the tap that these name |
| `VmStop.BlockedIsFinal` | src/bhyve.rs:1264 | after that the file stays and no stop returns Ok |
| `VmStop.MisreadLeavesVmAlive` | src/bhyve.rs:1281-1282 | a stop that misreads the PID file returns Ok over a running VM |
| `VmStop.FailedCallLeavesTap` | src/bhyve.rs:990-993 | a stop returns Ok over a live tap if destroying it fails |
| `VmStop.FailedRemovalBlocksStop` | src/bhyve.rs:1264 | a run in which a stop waits in vain |
| `VmStop.RestartBlocksStop` | src/bhyve.rs:1251-1253 | a run in which the daemon is restarted and a stop waits in vain though no removal failed |
| `Wire.LengthOfHeader` | src/protocol.rs:47-58 | the four bytes of a length decode to the length |
| `Wire.DecodeOfEncode` | src/protocol.rs:47-64 | frames decode to the messages exactly if none exceeds the read limit |
| `Wire.EncodeInjective` | src/protocol.rs:47-64 | different message sequences never have the same bytes |
| `Wire.DecodePrefix` | src/protocol.rs:54-64 | a stream cut anywhere decodes to a prefix of its messages |
| `Wire.NextKeepsInvariant` | src/bin/priosund.rs:134-136 | acquiring, partial writes, failing and releasing keep the socket a prefix of the frames sent, each from one of the threads, and every thread's order |
| `Wire.GoesOn` | src/protocol.rs:47-52 | unless a write has failed, whoever has the lock can write the rest; then it can release it, and anyone can take a free one |
| `Wire.SocketDecodesToInterleaving` | src/bin/priosund.rs:398-412 | under every interleaving the socket decodes to a common order of the threads' messages, of no others, that keeps each thread's own |
| `Session.AtMostOneResponse` | src/bin/priosund.rs:92-211 | a connection carries at most one response, and none before its end, even if reads or the writing of responses fail |
| `Session.ReceiveResponse` | src/protocol.rs:178-195 | the client's loop prints the events before the first other frame and returns that frame |
| `Session.ClientSeesEverything` | src/protocol.rs:178-195 | once the handler is done, the client has printed every event in order and returns the response; a silent end leaves it without one |
| `Session.FinishedIsFinal` | src/util/cmd.rs:383-391 | after the response no frame can follow, because the relay threads were joined |
| `Session.EverythingReportedOnce` | src/util/cmd.rs:379-391 | every message, command and output chunk is reported exactly once |
| `Session.ReportedInOrder` | src/util/cmd.rs:379-391 | messages and commands are reported in the order of the script, and between a command and what follows exactly its output, each stream in order |
| `Session.GoesOn` | src/bin/priosund.rs:92-211 | an unfinished connection always has a next step |
| `Session.ComesCloser` | src/bin/priosund.rs:92-211 | every step that is not a failure brings it closer to its end |
| `Session.FailureEnds` | src/bin/priosund.rs:92-211 | something may fail between actions and after the last; then the only next step is to end with the response to that |
| `Session.SilentIff` | src/bin/priosund.rs:92-211 | for every request and run: no answer exactly if an `attach` failed or one of two commands could not load the configuration; otherwise an error exactly if something failed |
| `Session.LostResponseIsRetriedIff` | src/bin/priosund.rs:104-172 | for every request: a success response that cannot be written is followed by an error response exactly for an attached start, or the attached creation of something that is started |
| `Session.LostResponseIsRetried` | src/bin/priosund.rs:160-172 | such a request and run: the error response that follows is the only one |
| `Session.FailedReadAllowsLateEvent` | src/util/cmd.rs:386-391 | if the first reader fails, an event can follow the error response |
| `Connection.NextKeepsInvariant` | src/bin/priosund.rs:134-136 | every step of a handler and its threads together with the writers keeps the frames on their way those that were reported, in that order |
| `Connection.ClientReadsFrames` | src/protocol.rs:54-64 | in every state of such a run, unpacking what the bytes decode to gives the first of the frames reported, and all of them while nobody writes |
| `Connection.ConnectionDelivers` | src/protocol.rs:178-195 | once a handler is done and its frames are written, the client's loop over the socket bytes has printed every event in order and returns the response; a silent end leaves it without one |
| `Relay.DeliveredIsPrefix` | src/protocol.rs:142-175 | with detaching possible throughout, what is delivered are the keys before the first 0x1d, however reads split them |
| `Relay.DeliveredWhenArmedLate` | src/protocol.rs:186-190 | if detaching becomes possible later, earlier keys pass unfiltered |
| `Relay.ClientInput` | src/protocol.rs:142-175 | the messages carry exactly those bytes; when it detaches; when it announces the end of input |
| `Relay.DaemonInput` | src/bin/priosund.rs:380-396 | writes exactly the data before the end-of-input message |
| `Relay.ReadStream` | src/util/cmd.rs:408-433 | the reported chunks concatenate to the returned output and are the reads before the first empty one |
| `Passthru.ValidPciIdIsClean` | src/bhyve.rs:474-480 | a valid PCI id survives a comma-separated property |
| `Passthru.StoredListIsRead` | src/bhyve.rs:334-339 | the stored text is read back as the list that was written |
| `Passthru.VmProperties.Set` | src/bhyve.rs:441-471 | succeeds exactly for a valid id that is new, or there to be removed, and a working write; adds at the end of what was read or removes the one occurrence, or changes nothing; the list keeps valid ids without duplicates |
| `Passthru.VmProperties.SetAll` | src/bhyve.rs:441-471 | after any series of requests the stored set is what the successful ones describe, given which lists were read, and it says which ones succeed |
| `Passthru.NothingLostIff` | src/bhyve.rs:441-454 | a request does to the set what it should exactly if the list was read, it failed, it removes, or nothing else was stored |
| `Passthru.AllReadKeepsAdded` | src/bhyve.rs:441-471 | if every list was read, a device is configured exactly if a request added it and no later one removed it |
| `Passthru.UnreadListIsLost` | src/bhyve.rs:441-454 | an unread list is overwritten, for two valid ids |
| `Passthru.RemovedMembers` | src/bhyve.rs:461-464 | removing one index of a duplicate-free list removes exactly that member |
| `Passthru.AssignSlots` | src/bhyve.rs:1125-1175 | the slot of every device; they are pairwise distinct and at most 31 exactly up to 23 passthrough devices with VNC or 25 without |
| `Passthru.SlotsFitIff` | src/bhyve.rs:1125-1175 | the condition under which the slots are distinct and exist |
| `Provisioning.ProvisionAt` | src/service.rs:132-166 | succeeds exactly if the directory exists, something is listed, all of it is `ansible` and both commands of each work; the commands run are galaxy and playbook in turn, none after a failed one |
| `Provisioning.Service.Create` | src/jail.rs:102-107 | succeeds exactly if the resource is new and its calls work; a new resource is not provisioned and its record is empty |
| `Provisioning.Service.Destroy` | src/jail.rs:415-431 | succeeds exactly if the resource exists and its calls work; a destroyed resource forgets its record, one that remains keeps it |
| `Provisioning.Service.Provision` | src/bin/priosund.rs:231-242 | succeeds exactly if every command at what is listed works and the result can be stored, and only then `provisioned` becomes true |
| `Provisioning.Service.Up` | src/bin/priosund.rs:503-539 | succeeds exactly if all works that is needed; keeps `provisioned = true` backed by a complete attempt since creation; for an existing service with provisioners, it succeeds without another attempt exactly if the property was true and could be read; a failure leaves it to the next `up` |
| `Numbers.ParseOfPrint` | src/protocol.rs:819-833 | printing and parsing a number gives it back exactly if it fits 64 bits |
| `Numbers.ParseU64Iff` | src/protocol.rs:819-833 | a text is read exactly if it is a decimal number that fits 64 bits, after a plus sign or without one, and as the number it stands for |
| `Numbers.ParseSizeOfPrint` | src/protocol.rs:877-886 | an unsuffixed size is read as itself |
| `Numbers.ParseSizeOfUnit` | src/protocol.rs:877-886 | K, M, G and T, in either case, stand for a thousand, a million, a thousand and a million million, saturated at the largest 64-bit number; any other letter is an error |
| `Arguments.IndexOf` | src/protocol.rs:835-838 | the first occurrence, or none |
| `Arguments.RepeatedOptions` | src/protocol.rs:850-868 | the loop collects the values of every occurrence as the recursion over the rest does |
| `Arguments.LookUpIff` | src/protocol.rs:835-848 | looking an item's name up in a list of items finds what the item says exactly if no free-form text diverts the lookup |
| `Arguments.DivertedLookUp` | src/protocol.rs:835-844 | what a diverted lookup finds instead |
| `Nvtree.FindField` | src/protocol.rs:424-457 | every field of a tree with distinct names is found by first match |
| `Nvtree.FindAbsent` | src/protocol.rs:438-443 | a field that was not added is not found |
| `SetRequest.Walk` | src/protocol.rs:772-787 | accepts exactly the sequences of flags and options with a value that is no option |
| `SetRequest.EncodeSet` | src/protocol.rs:730-789 | looking everything up and then walking yields the settings of a left-to-right parser with first binding, and nothing where that parser or the exclusions reject, unless the VM is named like a value option |
| `SetRequest.EncodeIsParse` | src/protocol.rs:730-789 | unless the VM is named like a value option, encoding accepts exactly what a left-to-right parser with first binding accepts and yields its settings |
| `SetRequest.LookupsAgree` | src/protocol.rs:835-848 | where the walk succeeds, searching anywhere agrees with parsing from the left, for every option; no value is taken for a flag |
| `SetRequest.ParseOfItems` | src/protocol.rs:351-378 | printed options parse exactly if no value looks like an option, to what was printed |
| `SetRequest.OptionNameFails` | src/protocol.rs:730-789 | a VM named like a value option: the accepted request never comes back |
| `SetRequest.DecodesIff` | src/protocol.rs:351-378 | the arguments of any settings decode to them exactly if they fit and the VM is not named like a value option |
| `SetRequest.RoundTripIff` | src/protocol.rs:351-378 | an accepted `set` request comes back exactly if the VM is not named like a value option |
| `SetRequest.OptionNameExample` | src/protocol.rs:730-789 | such a request: `set --memory --tpm` |
| `UpRequest.FindName` | src/protocol.rs:582-600 | the loop finds the one positional argument as the recursion over the rest does |
| `UpRequest.UpArgs` | src/service.rs:54-77 | a jail manifest yields the arguments of its service, any other container an error |
| `UpRequest.ProvisionArgs` | src/service.rs:100-130 | the same for `provision`; an empty list or an unknown provisioner is an error |
| `UpRequest.DecodeOfToArgsIff` | src/protocol.rs:565-614 | the three scans agree: produced arguments decode to the service exactly if the directory is not `--provisioner` and neither name nor provisioners start with a dash |
| `UpRequest.DownDecodesIff` | src/protocol.rs:565-614 | the same for `down`, which lists no provisioners |
| `UpRequest.OnlyJails` | src/protocol.rs:572-581 | only a jail, named or by default, and only with a directory, can be brought up or down |
| `UpRequest.RoundTripIff` | src/protocol.rs:386-402 | an accepted `up` or `down` comes back exactly if it is not an `up` from a directory called `--provisioner` |
| `UpRequest.DirectoryExample` | src/protocol.rs:565-614 | such an `up` is accepted and does not come back |
| `VmRequest.VmIsAccepted` | src/protocol.rs:684-724 | what every accepted VM creation satisfies, option dependencies and exclusions included |
| `VmRequest.VmDecodesIff` | src/protocol.rs:303-337 | the arguments of any VM creation decode to it exactly if it satisfies the option rules and no lookup but that of `--start` is disturbed |
| `VmRequest.VmRoundTripIff` | src/protocol.rs:303-337 | an accepted VM creation comes back exactly if no lookup but that of `--start` is disturbed |
| `VmRequest.DisturbedExample` | src/protocol.rs:684-724 | an accepted creation of a VM called `--disk` does not come back |
| `RequestTrees.TreeReads` | src/protocol.rs:267-422 | the tree of a request turns into its command and operands, whatever values it holds |
| `RequestTrees.JailNeverReads` | src/protocol.rs:289-291 | the tree of a jail creation turns into nothing |
| `RequestTrees.JailIsRead` | src/protocol.rs:660-671 | the tree of a jail creation holds each of its values under the name that the daemon looks up |
| `RequestTrees.CallerIsNamed` | src/protocol.rs:641-644 | a tree names its command, and the caller's ids exactly if something is created or brought up |
| `RequestRoundTrip.VolumeDecodesIff` | src/protocol.rs:655-659 | the arguments of any volume creation decode to it exactly if its size fits 64 bits and the volume is not called `--size` |
| `RequestRoundTrip.VolumeExample` | src/protocol.rs:655-659 | such a volume creation is accepted and does not come back |
| `RequestRoundTrip.BaseDecodesIff` | src/protocol.rs:672-683 | the arguments of any base creation decode to it exactly if it is for a jail and its two lookups are undisturbed, or for a VM without options |
| `RequestRoundTrip.BaseExample` | src/protocol.rs:672-683 | a base jail called `--set` with a package set called `--version` is accepted and does not come back |
| `RequestRoundTrip.JailDecodesIff` | src/protocol.rs:660-671 | written-down options of a jail creation decode to that jail exactly if no lookup is disturbed and attaching comes with starting |
| `RequestRoundTrip.StartDecodes` | src/protocol.rs:505-524 | the arguments of any start decode to it, with both flags, exactly if a name that is spelled like a flag comes with that flag |
| `RequestRoundTrip.DependenciesDecodeIff` | src/protocol.rs:526-545 | the arguments of any dependency request decode to it exactly if its list is clean |
| `RequestRoundTrip.ProvisionDecodesIff` | src/protocol.rs:616-640 | the arguments of any provisioning decode to it exactly if it is for a jail or VM, lists provisioners without a dash, and directory and name are none of the stated ones |
| `RequestRoundTrip.ProvisionExample` | src/protocol.rs:616-640 | a provisioning in a directory called `--container` is accepted and does not come back |
| `RequestRoundTrip.DecodesIff` | src/protocol.rs:483-645 | the command and operands of any request, whether or not it came out of the decoder, decode to that very request exactly if it fits and survives |
| `RequestRoundTrip.TreeDecodesIff` | src/protocol.rs:267-645 | the same for the arguments that its tree turns into |
| `RequestRoundTrip.AcceptedFits` | src/protocol.rs:483-645 | an accepted request fits, unless it is a `set` for a VM with an option's name |
| `RequestRoundTrip.StartAcceptsIff` | src/protocol.rs:509-524 | a start accepts exactly one argument besides the flags, in whatever order, and sets each flag exactly if it is there |
| `RequestRoundTrip.ExtraIsRefused` | src/protocol.rs:546-564 | the commands that refuse anything after their operands |
| `RequestRoundTrip.ExtraIsOverlooked` | src/protocol.rs:495-545 | the commands that overlook it |
| `RequestRoundTrip.DecodesAgain` | src/protocol.rs:483-645 | decoding the command and operands of an accepted request gives it back exactly if it survives |
| `RequestRoundTrip.RequestRoundTripIff` | src/protocol.rs:267-645 | `request_from_args` undoes `request_to_args` exactly on the accepted requests that survive, up to the caller's ids |
| `RequestRoundTrip.UpManifestIff` | src/service.rs:54-77 | what `up` derives from a manifest decodes to its service, with the exact exceptions |
| `RequestRoundTrip.ProvisionManifestIff` | src/service.rs:100-130 | the same for `provision` |
| `RequestRoundTrip.JailNeverReturns` | src/protocol.rs:660-671 | no accepted jail creation can be turned back into arguments |
| `RequestRoundTrip.PlainVmSurvives` | src/protocol.rs:303-337 | a VM creation without text that starts with `--` survives |

## Left out

- Startup.Host.StartDependencies: stands for the two copies of the dependency loop in `jail::start_with_stack` and `bhyve::start_with_stack_mode`; the seed and VNC flags of the latter do not influence the order.
- Registry.Zfs.CreateJail: covers existence checks, the dataset and the metadata used here; which base is cloned, package installation and files are I/O without effect on the graph.
- Registry.Zfs.CreateVm: likewise leaves out images, seeds and the other properties.
- Passthru.VmProperties.Set: covers the passthrough part of `set_vm_options` only. The other properties are plain overwrites, and later checks can fail after earlier writes.
- VmStop.StoppedMeansCleanedUp: leaves out the removal of a cloud-init seed volume after the last file and the text of the PID file, which is a number.
- Relay.DeliveredIsPrefix: speaks of bytes; chunks of non-ASCII input pass through lossy UTF-8 conversion, which changes them at chunk boundaries.
- RequestTrees.TreeReads: is, like the encoders of `Requests`, about lists and trees as values where the source pushes onto a vector or tree, so update in place is not captured. Errors are not told apart.
- The rollback of a failed VM start: several early returns keep the tap and swtpm, so there is no full rollback to state.
- Packing of trees into bytes. The nvtree library is not part of this model; trees are looked up by first match, frames carry arbitrary bytes, and `Connection` takes the packing as a parameter.
- Concurrent requests that edit the graph, reuse of process ids and of tap names.
- `src/net.rs` and `src/network.rs`: kernel layouts and configuration templates, with easy helpers only.
- Command-line definitions, tables, terminal mode, cloud-init text and image addresses, logging.
- The `list` command and the answers' contents.
