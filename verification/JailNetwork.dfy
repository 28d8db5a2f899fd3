/**
 What a running jail holds on the host: an epair interface, its membership in the
 bridge and a devfs mount. Start acquires them step by step with hand-written rollback;
 stop releases them. How each call turns out is given by its number.
 */
module JailNetwork {
  // `jails` maps each running jail to its `host.domainname`, where start has recorded the
  // epair. `mounts` holds the jails whose `dev` directory has devfs on it.
  datatype Net = Net(epairs: set<string>, members: set<string>, mounts: set<string>, jails: map<string, string>)

  // Interfaces, memberships and mounts correspond one to one with the running jails.
  ghost predicate Balanced(net: Net) {
    && net.epairs == net.jails.Values
    && net.members == net.jails.Values
    && net.mounts == net.jails.Keys
    && forall a, b :: a in net.jails && b in net.jails && net.jails[a] == net.jails[b] ==> a == b
  }

  function WithJail(net: Net, name: string, epair: string): Net {
    Net(net.epairs + {epair}, net.members + {epair}, net.mounts + {name}, net.jails[name := epair])
  }

  function WithoutJail(net: Net, name: string): Net
    requires name in net.jails
  {
    var epair := net.jails[name];
    Net(net.epairs - {epair}, net.members - {epair}, net.mounts - {name}, net.jails - {name})
  }

  // The host with some of what a start of `name` acquires on top of `net`.
  function Partly(net: Net, name: string, epair: string, e: bool, m: bool, d: bool, j: bool): Net {
    Net(if e then net.epairs + {epair} else net.epairs,
        if m then net.members + {epair} else net.members,
        if d then net.mounts + {name} else net.mounts,
        if j then net.jails[name := epair] else net.jails)
  }

  // It is balanced only with nothing or everything acquired.
  lemma PartlyBalancedIff(net: Net, name: string, epair: string, e: bool, m: bool, d: bool, j: bool)
    requires Balanced(net) && name !in net.jails && epair !in net.epairs
    ensures Balanced(Partly(net, name, epair, e, m, d, j)) <==> e == m == d == j
    ensures !e && !m && !d && !j ==> Partly(net, name, epair, e, m, d, j) == net
    ensures e && m && d && j ==> Partly(net, name, epair, e, m, d, j) == WithJail(net, name, epair)
  {
    WithJailBalanced(net, name, epair);
    var next := Partly(net, name, epair, e, m, d, j);
    assert next.jails.Values == if j then net.jails.Values + {epair} else net.jails.Values by {
      assert WithJail(net, name, epair).jails.Values == net.jails.Values + {epair};
    }
    if e != j { assert epair in next.epairs <==> epair !in next.jails.Values; }
    if m != j { assert epair in next.members <==> epair !in next.jails.Values; }
    if d != j { assert name in next.mounts <==> name !in next.jails.Keys; }
  }

  // Each share can be given back on its own.
  lemma ShareGivenBack(net: Net, name: string, epair: string)
    requires Balanced(net) && name !in net.jails && epair !in net.epairs
    ensures net.epairs + {epair} - {epair} == net.epairs && net.members + {epair} - {epair} == net.members
    ensures net.mounts + {name} - {name} == net.mounts && net.jails[name := epair] - {name} == net.jails
  {
  }

  // What a stop takes is what it had.
  lemma ShareTaken(net: Net, name: string)
    requires Balanced(net) && name in net.jails
    ensures var epair := net.jails[name];
            && epair in net.epairs && epair in net.members && name in net.mounts
            && epair !in WithoutJail(net, name).epairs && epair !in WithoutJail(net, name).members
            && Partly(WithoutJail(net, name), name, epair, true, true, true, true) == net
            && Partly(WithoutJail(net, name), name, epair, true, false, true, true)
               == net.(members := net.members - {epair})
  {
    var epair := net.jails[name];
    assert epair in net.jails.Values;
    assert net.jails - {name} + map[name := epair] == net.jails;
  }

  // Completed starts and stops, and operations that undid all they did.
  ghost predicate Transition(net: Net, next: Net) {
    || next == net
    || (exists name, epair :: name !in net.jails && epair !in net.epairs && next == WithJail(net, name, epair))
    || (exists name :: name in net.jails && next == WithoutJail(net, name))
  }

  lemma WithJailBalanced(net: Net, name: string, epair: string)
    requires Balanced(net) && name !in net.jails && epair !in net.epairs
    ensures Balanced(WithJail(net, name, epair))
    ensures WithoutJail(WithJail(net, name, epair), name) == net
  {
    var next := WithJail(net, name, epair);
    forall v ensures v in next.jails.Values <==> v in net.jails.Values || v == epair {
      if v in net.jails.Values {
        var n :| n in net.jails && net.jails[n] == v;
        assert next.jails[n] == v;
      }
      assert next.jails[name] == epair;
    }
    assert forall n :: n in net.jails ==> net.jails[n] in net.jails.Values;
    assert next.jails - {name} == net.jails;
  }

  lemma WithoutJailBalanced(net: Net, name: string)
    requires Balanced(net) && name in net.jails
    ensures Balanced(WithoutJail(net, name))
  {
    var epair := net.jails[name];
    var next := WithoutJail(net, name);
    forall v ensures v in next.jails.Values <==> v in net.jails.Values && v != epair {
      if v in net.jails.Values && v != epair {
        var n :| n in net.jails && net.jails[n] == v;
        assert next.jails[n] == v;
      }
    }
  }

  // Over any run of starts, stops and fully undone operations the host stays balanced.
  lemma {:induction false} RunStaysBalanced(nets: seq<Net>, i: nat)
    requires i < |nets| && Balanced(nets[0])
    requires forall k :: 0 <= k < |nets| - 1 ==> Transition(nets[k], nets[k + 1])
    ensures Balanced(nets[i])
  {
    if i > 0 {
      RunStaysBalanced(nets, i - 1);
      var net, next := nets[i - 1], nets[i - 1 + 1];
      assert Transition(net, next);
      if next != net {
        if name, epair :| name !in net.jails && epair !in net.epairs && next == WithJail(net, name, epair) {
          WithJailBalanced(net, name, epair);
        } else {
          var name :| name in net.jails && next == WithoutJail(net, name);
          WithoutJailBalanced(net, name);
        }
      }
    }
  }

  // The calls of a start, of a stop, and those by which both give back what a jail has.
  datatype Op =
    | NameHost | CreateEpair | BringUp | AddToBridge | MountDevfs | StartJail | MoveEpair | RenameEpair | RunScript
    | FindDirectory | FindJail | ReadEpair
    | LeaveBridge | DestroyEpair | StopJail | Unmount

  predicate Releases(op: Op) {
    op.LeaveBridge? || op.DestroyEpair? || op.StopJail? || op.Unmount?
  }

  const START := [NameHost, CreateEpair, BringUp, AddToBridge, MountDevfs, StartJail, MoveEpair, RenameEpair, RunScript]

  const STOP := [FindDirectory, FindJail, ReadEpair, LeaveBridge, DestroyEpair, StopJail]

  // Every releasing call since the given one has worked, or none has.
  ghost predicate AllReleased(calls: seq<Op>, works: nat -> bool, from: nat) {
    forall k :: from <= k < |calls| && Releases(calls[k]) ==> works(k)
  }

  ghost predicate NoneReleased(calls: seq<Op>, works: nat -> bool, from: nat) {
    forall k :: from <= k < |calls| && Releases(calls[k]) ==> !works(k)
  }

  ghost predicate Untouched(calls: seq<Op>, works: nat -> bool, from: nat) {
    AllReleased(calls, works, from) && NoneReleased(calls, works, from)
  }

  lemma OneMoreCall(calls: seq<Op>, works: nat -> bool, from: nat, op: Op)
    requires from <= |calls|
    ensures AllReleased(calls + [op], works, from) <==>
            AllReleased(calls, works, from) && (Releases(op) ==> works(|calls|))
    ensures NoneReleased(calls + [op], works, from) <==>
            NoneReleased(calls, works, from) && (Releases(op) ==> !works(|calls|))
  {
    var longer := calls + [op];
    assert forall k :: 0 <= k < |calls| ==> longer[k] == calls[k];
    assert longer[|calls|] == op;
  }

  // The name of a new epair, and whether it looks like one.
  datatype EpairName = EpairName(name: string, wellFormed: bool)

  // The kernel and the mount table. Every call may fail, and then changes nothing.
  class Kernel {
    // How the n-th call turns out, and how the epair is called that it makes.
    const works: nat -> bool
    const names: nat -> EpairName
    var epairs: set<string>
    var members: set<string>
    var mounts: set<string>
    var jails: map<string, string>
    var calls: seq<Op>

    ghost function State(): Net
      reads this
    {
      Net(epairs, members, mounts, jails)
    }

    ghost predicate Released(from: nat)
      reads `calls
    {
      AllReleased(calls, works, from)
    }

    ghost predicate Stuck(from: nat)
      reads `calls
    {
      NoneReleased(calls, works, from)
    }

    // One more call has been made, in an operation that began with the given one.
    twostate predicate Called(op: Op, ok: bool, from: nat)
      reads this
    {
      && calls == old(calls) + [op] && ok == works(|old(calls)|)
      && (Released(from) <==> old(Released(from)) && (Releases(op) ==> ok))
      && (Stuck(from) <==> old(Stuck(from)) && (Releases(op) ==> !ok))
    }

    // The given number of calls works, from the given one on.
    ghost predicate Work(from: nat, count: nat) {
      forall k :: from <= k < from + count ==> works(k)
    }

    // A call as far as it does not change what the host has.
    method Call(op: Op, ghost from: nat) returns (ok: bool)
      requires from <= |calls|
      modifies `calls
      ensures Called(op, ok, from)
    {
      OneMoreCall(calls, works, from, op);
      ok := works(|calls|);
      calls := calls + [op];
    }

    // A new epair, whose name may be malformed.
    method CreateEpair(ghost from: nat) returns (ok: bool, epair: EpairName)
      requires from <= |calls|
      modifies `epairs, `calls
      ensures Called(Op.CreateEpair, works(|old(calls)|), from) && epair == names(|old(calls)|)
      ensures ok <==> works(|old(calls)|) && epair.name !in old(epairs)
      ensures epairs == if ok then old(epairs) + {epair.name} else old(epairs)
    {
      epair := names(|calls|);
      ok := Call(Op.CreateEpair, from);
      ok := ok && epair.name !in epairs;
      if ok {
        epairs := epairs + {epair.name};
      }
    }

    method AddToBridge(epair: string, ghost from: nat) returns (ok: bool)
      requires from <= |calls|
      modifies `members, `calls
      ensures Called(Op.AddToBridge, ok, from)
      ensures members == if ok then old(members) + {epair} else old(members)
    {
      ok := Call(Op.AddToBridge, from);
      if ok {
        members := members + {epair};
      }
    }

    method MountDevfs(name: string, ghost from: nat) returns (ok: bool)
      requires from <= |calls|
      modifies `mounts, `calls
      ensures Called(Op.MountDevfs, ok, from)
      ensures mounts == if ok then old(mounts) + {name} else old(mounts)
    {
      ok := Call(Op.MountDevfs, from);
      if ok {
        mounts := mounts + {name};
      }
    }

    method StartJail(name: string, epair: string, ghost from: nat) returns (ok: bool)
      requires from <= |calls|
      modifies `jails, `calls
      ensures Called(Op.StartJail, ok, from)
      ensures jails == if ok then old(jails)[name := epair] else old(jails)
    {
      ok := Call(Op.StartJail, from);
      if ok {
        jails := jails[name := epair];
      }
    }

    method LeaveBridge(epair: string, ghost from: nat) returns (ok: bool)
      requires from <= |calls|
      modifies `members, `calls
      ensures Called(Op.LeaveBridge, ok, from)
      ensures members == if ok then old(members) - {epair} else old(members)
    {
      ok := Call(Op.LeaveBridge, from);
      if ok {
        members := members - {epair};
      }
    }

    method DestroyEpair(epair: string, ghost from: nat) returns (ok: bool)
      requires from <= |calls|
      modifies `epairs, `calls
      ensures Called(Op.DestroyEpair, ok, from)
      ensures epairs == if ok then old(epairs) - {epair} else old(epairs)
    {
      ok := Call(Op.DestroyEpair, from);
      if ok {
        epairs := epairs - {epair};
      }
    }

    method StopJail(name: string, ghost from: nat) returns (ok: bool)
      requires from <= |calls|
      modifies `jails, `calls
      ensures Called(Op.StopJail, ok, from)
      ensures jails == if ok then old(jails) - {name} else old(jails)
    {
      ok := Call(Op.StopJail, from);
      if ok {
        jails := jails - {name};
      }
    }

    method Unmount(name: string, ghost from: nat) returns (ok: bool)
      requires from <= |calls|
      modifies `mounts, `calls
      ensures Called(Op.Unmount, ok, from)
      ensures mounts == if ok then old(mounts) - {name} else old(mounts)
    {
      ok := Call(Op.Unmount, from);
      if ok {
        mounts := mounts - {name};
      }
    }

    // `cleanup_epair`: the interface is destroyed only after it left the bridge.
    method CleanupEpair(epair: string, ghost from: nat) returns (ok: bool)
      requires from <= |calls|
      modifies `members, `epairs, `calls
      ensures ok <==> works(|old(calls)|) && works(|old(calls)| + 1)
      ensures calls == old(calls) + [Op.LeaveBridge] + if works(|old(calls)|) then [Op.DestroyEpair] else []
      ensures members == if works(|old(calls)|) then old(members) - {epair} else old(members)
      ensures epairs == if ok then old(epairs) - {epair} else old(epairs)
      ensures Released(from) <==> old(Released(from)) && ok
      ensures Stuck(from) <==> old(Stuck(from)) && !works(|old(calls)|)
    {
      ok := LeaveBridge(epair, from);
      if ok {
        ok := DestroyEpair(epair, from);
      }
    }

    // What a start that began with the given call has been handed: an interface that is new, and
    // whose name does not look like one.
    predicate Malformed(from: nat, epairs: set<string>) {
      works(from) && works(from + 1) && names(from + 1).name !in epairs && !names(from + 1).wellFormed
    }

    // How a failed start of `name` leaves the host: as it was if all rollback calls worked, and
    // balanced exactly then, or when the jail came up and every single rollback call failed.
    ghost predicate Undone(before: Net, name: string, epair: string, from: nat)
      reads this
    {
      && (Released(from) ==> State() == before)
      && (Balanced(State()) <==> Released(from) || (name in jails && Stuck(from)))
      && (Balanced(State()) ==> State() == before || State() == WithJail(before, name, epair))
    }

    lemma IsUndone(before: Net, name: string, epair: string, from: nat, e: bool, m: bool, d: bool, j: bool)
      requires Balanced(before) && name !in before.jails && epair !in before.epairs
      requires State() == Partly(before, name, epair, e, m, d, j)
      requires (Released(from) <==> !e && !m && !d && !j) && (j ==> (Stuck(from) <==> e && m && d))
      ensures Undone(before, name, epair, from)
    {
      PartlyBalancedIff(before, name, epair, e, m, d, j);
      assert name in jails <==> j;
    }

    // `start_inner` succeeds exactly if no call fails. On success it has made all of its calls
    // and the jail holds a fresh epair. On failure the host is back where it was if all rollback
    // calls worked, and it is balanced exactly then, or when the jail came up and every single
    // rollback call failed.
    method StartInner(name: string) returns (ok: bool)
      requires Balanced(State()) && name !in jails
      modifies this
      ensures var n := |old(calls)|;
              ok <==> Work(n, |START|) && names(n + 1).wellFormed && names(n + 1).name !in old(epairs)
      ensures ok ==> calls == old(calls) + START
      ensures ok ==> State() == WithJail(old(State()), name, names(|old(calls)| + 1).name) && Balanced(State())
      ensures !ok && !Malformed(|old(calls)|, old(epairs)) && Released(|old(calls)|) ==> State() == old(State())
      ensures !ok ==> (Balanced(State()) <==>
                         && !Malformed(|old(calls)|, old(epairs))
                         && (Released(|old(calls)|) || (name in jails && Stuck(|old(calls)|))))
      ensures Balanced(State()) ==> Transition(old(State()), State())
    {
      ghost var before, n := State(), |calls|;
      ok := Call(NameHost, n);
      if !ok {
        return;
      }
      var epair;
      ok, epair := CreateEpair(n);
      if !ok {
        return;
      }
      if !epair.wellFormed {
        PartlyBalancedIff(before, name, epair.name, true, false, false, false);
        return false;
      }
      ok := SetUp(name, epair.name, before, n);
    }

    // The part of `start_inner` that has an epair.
    method SetUp(name: string, epair: string, ghost before: Net, ghost from: nat) returns (ok: bool)
      requires Balanced(before) && name !in before.jails && epair !in before.epairs
      requires State() == Partly(before, name, epair, true, false, false, false)
      requires from <= |calls| && Untouched(calls, works, from)
      modifies this
      ensures ok <==> Work(|old(calls)|, 7)
      ensures ok ==> calls == old(calls) + START[2..]
      ensures ok ==> State() == WithJail(before, name, epair) && Balanced(State())
      ensures !ok ==> Undone(before, name, epair, from)
    {
      ShareGivenBack(before, name, epair);
      // Joining the interface group and bringing the interface up.
      ok := Call(BringUp, from);
      if !ok {
        var d := DestroyEpair(epair, from);
        IsUndone(before, name, epair, from, !d, false, false, false);
        return;
      }
      ok := AddToBridge(epair, from);
      if !ok {
        var d := DestroyEpair(epair, from);
        IsUndone(before, name, epair, from, !d, false, false, false);
        return;
      }
      ok := MountAndStart(name, epair, before, from);
    }

    // The part of `start_inner` after the epair has joined the bridge.
    method MountAndStart(name: string, epair: string, ghost before: Net, ghost from: nat) returns (ok: bool)
      requires Balanced(before) && name !in before.jails && epair !in before.epairs
      requires State() == Partly(before, name, epair, true, true, false, false)
      requires from <= |calls| && Untouched(calls, works, from)
      modifies this
      ensures ok <==> Work(|old(calls)|, 5)
      ensures ok ==> calls == old(calls) + START[4..]
      ensures ok ==> State() == WithJail(before, name, epair) && Balanced(State())
      ensures !ok ==> Undone(before, name, epair, from)
    {
      ShareGivenBack(before, name, epair);
      ok := MountDevfs(name, from);
      if !ok {
        UndoBridge(name, epair, before, from, false, false);
        return;
      }
      ok := StartJail(name, epair, from);
      if !ok {
        UndoMount(name, epair, before, from);
        return;
      }
      WithJailBalanced(before, name, epair);
      ok := FinishStart(name, epair, before, from);
    }

    // The part of `start_inner` after the jail has come up.
    method FinishStart(name: string, epair: string, ghost before: Net, ghost from: nat) returns (ok: bool)
      requires Balanced(before) && name !in before.jails && epair !in before.epairs
      requires State() == WithJail(before, name, epair)
      requires from <= |calls| && Untouched(calls, works, from)
      modifies this
      ensures ok <==> Work(|old(calls)|, 3)
      ensures ok ==> calls == old(calls) + START[6..] && State() == old(State())
      ensures !ok ==> Undone(before, name, epair, from)
    {
      // Moving the other end of the epair into the jail.
      ok := Call(MoveEpair, from);
      if !ok {
        UndoJailFirst(name, epair, before, from);
        return;
      }
      // Renaming it inside the jail, then running the jail's rc script.
      ok := Call(RenameEpair, from);
      if ok {
        ok := Call(RunScript, from);
      }
      if !ok {
        UndoEpairFirst(name, epair, before, from);
      }
    }

    // The last steps of taking back a start. `mounted` and `up` say what those before have left.
    method UndoBridge(
      name: string, epair: string, ghost before: Net, ghost from: nat, ghost mounted: bool, ghost up: bool)
      requires Balanced(before) && name !in before.jails && epair !in before.epairs
      requires State() == Partly(before, name, epair, true, true, mounted, up)
      requires from <= |calls| && (Released(from) <==> !mounted && !up) && (up ==> (Stuck(from) <==> mounted))
      modifies this
      ensures Undone(before, name, epair, from)
      ensures calls == old(calls) + [Op.LeaveBridge, Op.DestroyEpair]
    {
      ShareGivenBack(before, name, epair);
      var b := LeaveBridge(epair, from);
      var d := DestroyEpair(epair, from);
      IsUndone(before, name, epair, from, !d, !b, mounted, up);
    }

    // Taking back a start whose jail has not come up.
    method UndoMount(name: string, epair: string, ghost before: Net, ghost from: nat)
      requires Balanced(before) && name !in before.jails && epair !in before.epairs
      requires State() == Partly(before, name, epair, true, true, true, false)
      requires from <= |calls| && Untouched(calls, works, from)
      modifies this
      ensures Undone(before, name, epair, from)
      ensures calls == old(calls) + [Op.Unmount, Op.LeaveBridge, Op.DestroyEpair]
    {
      ShareGivenBack(before, name, epair);
      var u := Unmount(name, from);
      UndoBridge(name, epair, before, from, !u, false);
    }

    // The two ways of taking back a start whose jail has come up.
    method UndoJailFirst(name: string, epair: string, ghost before: Net, ghost from: nat)
      requires Balanced(before) && name !in before.jails && epair !in before.epairs
      requires State() == WithJail(before, name, epair)
      requires from <= |calls| && Untouched(calls, works, from)
      modifies this
      ensures Undone(before, name, epair, from)
      ensures calls == old(calls) + [Op.StopJail, Op.Unmount, Op.LeaveBridge, Op.DestroyEpair]
    {
      ShareGivenBack(before, name, epair);
      var s := StopJail(name, from);
      var u := Unmount(name, from);
      UndoBridge(name, epair, before, from, !u, !s);
    }

    method UndoEpairFirst(name: string, epair: string, ghost before: Net, ghost from: nat)
      requires Balanced(before) && name !in before.jails && epair !in before.epairs
      requires State() == WithJail(before, name, epair)
      requires from <= |calls| && Untouched(calls, works, from)
      modifies this
      ensures Undone(before, name, epair, from)
      ensures calls == old(calls) + [Op.LeaveBridge] + (if works(|old(calls)|) then [Op.DestroyEpair] else [])
                       + [Op.StopJail, Op.Unmount]
    {
      ShareGivenBack(before, name, epair);
      var c := CleanupEpair(epair, from);
      ghost var m := epair in members;
      var s := StopJail(name, from);
      var u := Unmount(name, from);
      IsUndone(before, name, epair, from, !c, m, !u, !s);
    }

    // `stop` of a managed jail: it releases exactly the epair that start recorded. It succeeds
    // exactly if no call fails but up to 49 attempts to unmount; if it fails, the host is as
    // before, and balanced, exactly when no releasing call has worked.
    method Stop(name: string) returns (ok: bool)
      requires Balanced(State())
      modifies this
      ensures var n := |old(calls)|;
              ok <==> && works(n) && works(n + 1)
                      && (name in old(jails) ==> Work(n + 2, 4) && exists k :: n + 6 <= k < n + 56 && works(k))
      ensures ok && name in old(jails) ==>
                old(calls) + STOP <= calls && forall k :: |old(calls)| + |STOP| <= k < |calls| ==> calls[k].Unmount?
      ensures ok && name !in old(jails) ==> calls == old(calls) + STOP[..2]
      ensures ok ==> State() == if name in old(jails) then WithoutJail(old(State()), name) else old(State())
      ensures ok ==> Balanced(State())
      ensures !ok ==> Kept(old(State()), |old(calls)|)
      ensures Balanced(State()) ==> Transition(old(State()), State())
    {
      ghost var before, n := State(), |calls|;
      ok := Call(FindDirectory, n);
      if !ok {
        return;
      }
      ok := Call(FindJail, n);
      if !ok || name !in jails {
        return;
      }
      ok := StopRunning(name, before, n);
      WithoutJailBalanced(before, name);
    }

    // `stop` of a jail that is running.
    method StopRunning(name: string, ghost before: Net, ghost from: nat) returns (ok: bool)
      requires Balanced(before) && State() == before && name in jails
      requires from <= |calls| && Untouched(calls, works, from)
      modifies `epairs, `members, `mounts, `jails, `calls
      ensures var n := |old(calls)|;
              ok <==> Work(n, 4) && exists k :: n + 4 <= k < n + 54 && works(k)
      ensures ok ==> old(calls) + STOP[2..] <= calls
      ensures ok ==> forall k :: |old(calls)| + 4 <= k < |calls| ==> calls[k].Unmount?
      ensures ok ==> State() == WithoutJail(before, name)
      ensures !ok ==> Kept(before, from)
    {
      ok := Call(ReadEpair, from);
      if !ok {
        return;
      }
      ok := Release(name, jails[name], before, from);
    }

    // How a failed stop leaves the host: balanced, and as before, exactly if no releasing call has
    // worked.
    ghost predicate Kept(before: Net, from: nat)
      reads this
    {
      (Balanced(State()) <==> Stuck(from)) && (Stuck(from) ==> State() == before)
    }

    lemma IsKept(before: Net, name: string, from: nat, e: bool, m: bool, d: bool, j: bool)
      requires Balanced(before) && name in before.jails && (e || m || d || j)
      requires State() == Partly(WithoutJail(before, name), name, before.jails[name], e, m, d, j)
      requires Stuck(from) <==> e && m && d && j
      ensures Kept(before, from)
    {
      ShareTaken(before, name);
      WithoutJailBalanced(before, name);
      PartlyBalancedIff(WithoutJail(before, name), name, before.jails[name], e, m, d, j);
    }

    // The part of `stop` that gives back what the jail has.
    method Release(name: string, epair: string, ghost before: Net, ghost from: nat) returns (ok: bool)
      requires Balanced(before) && State() == before
      requires name in jails && jails[name] == epair
      requires from <= |calls| && Untouched(calls, works, from)
      modifies `epairs, `members, `mounts, `jails, `calls
      ensures var n := |old(calls)|;
              ok <==> Work(n, 3) && exists k :: n + 3 <= k < n + 53 && works(k)
      ensures ok ==> old(calls) + STOP[3..] <= calls
      ensures ok ==> forall k :: |old(calls)| + 3 <= k < |calls| ==> calls[k].Unmount?
      ensures ok ==> State() == WithoutJail(before, name)
      ensures !ok ==> Kept(before, from)
    {
      ShareTaken(before, name);
      ok := CleanupEpair(epair, from);
      if !ok {
        IsKept(before, name, from, true, epair in members, true, true);
        return;
      }
      ok := StopJail(name, from);
      if !ok {
        IsKept(before, name, from, false, false, true, true);
        return;
      }
      ok := UnmountRetrying(name, from);
      if !ok {
        IsKept(before, name, from, false, false, true, false);
      }
    }

    // `unmount_devfs`: up to fifty attempts.
    method UnmountRetrying(name: string, ghost from: nat) returns (ok: bool)
      requires from <= |calls|
      modifies `mounts, `calls
      ensures ok <==> exists k :: |old(calls)| <= k < |old(calls)| + 50 && works(k)
      ensures mounts == if ok then old(mounts) - {name} else old(mounts)
      ensures old(calls) <= calls && forall k :: |old(calls)| <= k < |calls| ==> calls[k].Unmount?
      ensures Stuck(from) <==> old(Stuck(from)) && !ok
    {
      ok := false;
      var attempt := 0;
      while attempt < 50
        invariant 0 <= attempt <= 50 && mounts == old(mounts)
        invariant old(calls) <= calls && |calls| == |old(calls)| + attempt
        invariant forall k :: |old(calls)| <= k < |calls| ==> calls[k].Unmount?
        invariant forall k :: |old(calls)| <= k < |calls| ==> !works(k)
        invariant Stuck(from) <==> old(Stuck(from))
      {
        ok := Unmount(name, from);
        if ok {
          return;
        }
        attempt := attempt + 1;
      }
    }
  }
}
