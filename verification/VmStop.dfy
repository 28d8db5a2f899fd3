/**
 `bhyve::stop` against the monitor thread that `start_inner` leaves behind. The two meet
 only through the process table and three files. Any number of stop requests may run at once;
 the state machine interleaves their steps with those of the monitor, bhyve and swtpm. One VM,
 from the moment its start has returned until it is started again. Both sides discard the
 outcome of what they remove: every removal may fail. The daemon may be restarted, which ends
 the monitor and the stop requests under way, but not the children.
 */
module VmStop {
  datatype Process = Alive | Zombie | Reaped

  // A call whose outcome is discarded.
  datatype Call = Pending | Worked | Failed

  datatype StopAt =
    | NotCalled | ReadPid | Signal | AwaitExit | AwaitCleanup
    | KillTpm | DestroyTap | RemovePid | RemoveTpmPid | RemoveTapFile
    | Returned(ok: bool)

  // The monitor thread's statements, in order: the one to come next.
  datatype Monitor =
    | WaitBhyve | DropConsole | DestroyVm | KillSwtpm | WaitSwtpm | DropSocket
    | DropTap | DropPidFile | DropTpmPidFile | DropTapFile | Done

  datatype Processes = Processes(bhyve: Process, swtpm: Process, destroyIssued: bool, console: bool)

  // `hadSocket` says whether there is a TPM socket to begin with.
  datatype Devices = Devices(hadSocket: bool, socket: bool, tap: bool)

  datatype Files = Files(pid: bool, tpmPid: bool, tap: bool)

  // The monitor's calls that remove the socket, the tap and the PID file; and whether some stop
  // has destroyed the tap.
  datatype Calls = Calls(socket: Call, tap: Call, pid: Call, tapByStop: bool)

  // `monitored` says that the monitor thread still exists, and `misread` that some stop failed
  // to read a PID file that was there.
  datatype Vm = Vm(
    proc: Processes, dev: Devices, file: Files, call: Calls, monitor: Monitor, monitored: bool, misread: bool)

  datatype State = State(vm: Vm, stops: seq<StopAt>)

  // A VM that has just been started, with or without a TPM; no stop was called yet.
  ghost predicate Started(s: State) {
    && s.vm.proc.bhyve == Alive && !s.vm.proc.destroyIssued && s.vm.proc.console && s.vm.dev.tap
    && s.vm.file.pid && s.vm.file.tap && s.vm.monitor == WaitBhyve && s.vm.monitored
    && s.vm.call.socket == s.vm.call.tap == s.vm.call.pid == Pending && !s.vm.call.tapByStop && !s.vm.misread
    && s.vm.dev.socket == s.vm.dev.hadSocket
    && (s.vm.proc.swtpm == Alive || (s.vm.proc.swtpm == Reaped && !s.vm.dev.hadSocket && !s.vm.file.tpmPid))
    && (forall i :: 0 <= i < |s.stops| ==> s.stops[i] == NotCalled)
  }

  function Rank(m: Monitor): nat {
    match m
    case WaitBhyve => 0
    case DropConsole => 1
    case DestroyVm => 2
    case KillSwtpm => 3
    case WaitSwtpm => 4
    case DropSocket => 5
    case DropTap => 6
    case DropPidFile => 7
    case DropTpmPidFile => 8
    case DropTapFile => 9
    case Done => 10
  }

  // One statement of the monitor thread; waits are enabled once the child has exited. What is
  // not there cannot be removed.
  ghost predicate MonitorStep(v: Vm, w: Vm) {
    v.monitored && if Rank(v.monitor) < 5 then ReapStep(v, w) else CallStep(v, w)
  }

  function Killed(p: Processes): Processes {
    if p.swtpm == Alive then p.(swtpm := Zombie) else p
  }

  ghost predicate ReapStep(v: Vm, w: Vm)
    requires Rank(v.monitor) < 5
  {
    match v.monitor
    case WaitBhyve => v.proc.bhyve == Zombie && w == v.(proc := v.proc.(bhyve := Reaped), monitor := DropConsole)
    case DropConsole => w == v.(proc := v.proc.(console := false), monitor := DestroyVm)
    case DestroyVm => w == v.(proc := v.proc.(destroyIssued := true), monitor := KillSwtpm)
    case KillSwtpm => w == v.(proc := Killed(v.proc), monitor := WaitSwtpm)
    case WaitSwtpm => v.proc.swtpm != Alive && w == v.(proc := v.proc.(swtpm := Reaped), monitor := DropSocket)
  }

  ghost predicate CallStep(v: Vm, w: Vm)
    requires Rank(v.monitor) >= 5
  {
    match v.monitor
    case DropSocket =>
      if v.dev.hadSocket then
        || (v.dev.socket
            && w == v.(dev := v.dev.(socket := false), call := v.call.(socket := Worked), monitor := DropTap))
        || w == v.(call := v.call.(socket := Failed), monitor := DropTap)
      else w == v.(monitor := DropTap)
    case DropTap =>
      || (v.dev.tap && w == v.(dev := v.dev.(tap := false), call := v.call.(tap := Worked), monitor := DropPidFile))
      || w == v.(call := v.call.(tap := Failed), monitor := DropPidFile)
    case DropPidFile =>
      || (v.file.pid
          && w == v.(file := v.file.(pid := false), call := v.call.(pid := Worked), monitor := DropTpmPidFile))
      || w == v.(call := v.call.(pid := Failed), monitor := DropTpmPidFile)
    case DropTpmPidFile =>
      w == v.(file := v.file.(tpmPid := false), monitor := DropTapFile) || w == v.(monitor := DropTapFile)
    case DropTapFile => w == v.(file := v.file.(tap := false), monitor := Done) || w == v.(monitor := Done)
    case Done => false
  }

  // A child exits on its own or because of a signal. Without its parent, it is reaped by init.
  ghost predicate ExitStep(v: Vm, w: Vm) {
    || (v.proc.bhyve == Alive && w == v.(proc := v.proc.(bhyve := Zombie)))
    || (v.proc.swtpm == Alive && w == v.(proc := v.proc.(swtpm := Zombie)))
    || (!v.monitored && v.proc.bhyve == Zombie && w == v.(proc := v.proc.(bhyve := Reaped)))
    || (!v.monitored && v.proc.swtpm == Zombie && w == v.(proc := v.proc.(swtpm := Reaped)))
  }

  // One statement of a stop request. It may fail at once, for a configuration that cannot be
  // read. If the PID file cannot be read, the request goes on as
  // if there were none. A signal to an existing process succeeds; one to a process that is
  // gone reports that; for a zombie either may happen. Sending it may also fail for another
  // reason, and both waits may time out.
  ghost predicate StopStep(v: Vm, at: StopAt, w: Vm, then_: StopAt) {
    match at
    case NotCalled => w == v && (then_ == ReadPid || then_ == Returned(false))
    case ReadPid =>
      if v.file.pid then (w == v && then_ == Signal) || (w == v.(misread := true) && then_ == KillTpm)
      else w == v && then_ == KillTpm
    case Signal => w == v && (then_ == AwaitExit || then_ == Returned(false))
    case AwaitExit => w == v && ((v.proc.bhyve != Alive && then_ == AwaitCleanup) || then_ == Returned(false))
    case AwaitCleanup => w == v && then_ == if v.file.pid then Returned(false) else KillTpm
    case KillTpm =>
      && then_ == DestroyTap
      && (w == v || (v.file.tpmPid && v.proc.swtpm == Alive && w == v.(proc := v.proc.(swtpm := Zombie))))
    case DestroyTap =>
      && then_ == RemovePid
      && (w == v || (v.file.tap && v.dev.tap
                     && w == v.(dev := v.dev.(tap := false), call := v.call.(tapByStop := true))))
    case RemovePid => then_ == RemoveTpmPid && (w == v || w == v.(file := v.file.(pid := false)))
    case RemoveTpmPid => then_ == RemoveTapFile && (w == v || w == v.(file := v.file.(tpmPid := false)))
    case RemoveTapFile => then_ == Returned(true) && (w == v || w == v.(file := v.file.(tap := false)))
    case Returned(_) => false
  }

  // The daemon is restarted.
  ghost predicate Restart(s: State, next: State) {
    && next.vm == s.vm.(monitored := false) && |next.stops| == |s.stops|
    && forall i :: 0 <= i < |s.stops| ==> next.stops[i] == AfterRestart(s.stops[i])
  }

  function AfterRestart(at: StopAt): StopAt {
    if at.NotCalled? || at.Returned? then at else Returned(false)
  }

  ghost predicate Next(s: State, next: State) {
    || Restart(s, next)
    || (next.stops == s.stops && (MonitorStep(s.vm, next.vm) || ExitStep(s.vm, next.vm)))
    || exists i: nat :: StopMoves(s, next, i)
  }

  ghost predicate StopMoves(s: State, next: State, i: nat) {
    && i < |s.stops| == |next.stops|
    && StopStep(s.vm, s.stops[i], next.vm, next.stops[i])
    && forall k :: 0 <= k < |s.stops| && k != i ==> next.stops[k] == s.stops[k]
  }

  // bhyve is reaped, `bhyvectl --destroy` was issued, the console is forgotten, swtpm is
  // reaped, and the calls that remove its socket and the tap have been made.
  predicate CleanedUp(v: Vm) {
    && v.proc.bhyve == Reaped && v.proc.destroyIssued && !v.proc.console && v.proc.swtpm == Reaped
    && (v.dev.hadSocket ==> v.call.socket != Pending) && v.call.tap != Pending
  }

  // What remains is exactly what those calls, or for the tap those of a stop, failed to remove.
  predicate ResidueExplained(v: Vm) {
    && (v.dev.socket <==> v.dev.hadSocket && v.call.socket != Worked)
    && (v.dev.tap <==> v.call.tap != Worked && !v.call.tapByStop)
  }

  // A stop request that has got past its waits.
  predicate PastWaits(at: StopAt) {
    at.KillTpm? || at.DestroyTap? || at.RemovePid? || at.RemoveTpmPid? || at.RemoveTapFile? || at == Returned(true)
  }

  // How far the monitor has got with the processes.
  predicate Reaping(v: Vm) {
    && (Rank(v.monitor) >= 1 ==> v.proc.bhyve == Reaped)
    && (v.monitored && v.proc.bhyve == Reaped ==> Rank(v.monitor) >= 1)
    && (Rank(v.monitor) >= 2 ==> !v.proc.console)
    && (Rank(v.monitor) >= 3 ==> v.proc.destroyIssued)
    && (Rank(v.monitor) >= 4 ==> v.proc.swtpm != Alive)
    && (Rank(v.monitor) >= 5 ==> v.proc.swtpm == Reaped)
  }

  // How far it has got with the calls.
  predicate Calling(v: Vm) {
    && (Rank(v.monitor) >= 6 && v.dev.hadSocket <==> v.call.socket != Pending)
    && (Rank(v.monitor) >= 7 <==> v.call.tap != Pending)
    && (Rank(v.monitor) >= 8 <==> v.call.pid != Pending)
    && ResidueExplained(v)
    && (v.call.pid == Worked ==> !v.file.pid)
    && (!v.misread && !v.file.pid ==> v.call.pid == Worked)
  }

  predicate Progress(v: Vm) {
    Reaping(v) && Calling(v)
  }

  predicate StopAgrees(v: Vm, at: StopAt) {
    && (PastWaits(at) && !v.misread ==> !v.file.pid)
    && (at == AwaitCleanup ==> v.proc.bhyve != Alive)
  }

  ghost predicate Invariant(s: State) {
    Progress(s.vm) && forall i :: 0 <= i < |s.stops| ==> StopAgrees(s.vm, s.stops[i])
  }

  // No step brings the PID file, bhyve or the monitor back, or takes back a misreading or a call;
  // and only the monitor makes its calls.
  ghost predicate Forward(v: Vm, w: Vm) {
    && (!v.file.pid ==> !w.file.pid) && (v.proc.bhyve != Alive ==> w.proc.bhyve != Alive) && (v.misread ==> w.misread)
    && (v.call.pid != Pending || !v.monitored ==> w.call.pid == v.call.pid) && (w.monitored ==> v.monitored)
  }

  lemma MonitorReaping(v: Vm, w: Vm)
    requires Reaping(v) && MonitorStep(v, w)
    ensures Reaping(w) && (v.proc.bhyve != Alive ==> w.proc.bhyve != Alive)
  {
    if Rank(v.monitor) < 5 {
      ReapReaping(v, w);
    } else {
      CallReaping(v, w);
    }
  }

  lemma ReapReaping(v: Vm, w: Vm)
    requires Reaping(v) && Rank(v.monitor) < 5 && ReapStep(v, w)
    ensures Reaping(w) && (v.proc.bhyve != Alive ==> w.proc.bhyve != Alive)
  {
    match v.monitor {
      case WaitBhyve =>
      case DropConsole =>
      case DestroyVm =>
      case KillSwtpm =>
      case WaitSwtpm =>
    }
  }

  lemma CallReaping(v: Vm, w: Vm)
    requires Reaping(v) && Rank(v.monitor) >= 5 && CallStep(v, w)
    ensures Reaping(w) && w.proc.bhyve == v.proc.bhyve
  {
    assert w.proc == v.proc;
  }

  lemma MonitorCalling(v: Vm, w: Vm)
    requires Calling(v) && MonitorStep(v, w)
    ensures Calling(w) && (!v.file.pid ==> !w.file.pid) && (v.misread ==> w.misread)
    ensures v.call.pid != Pending ==> w.call.pid == v.call.pid
  {
    if Rank(v.monitor) < 5 {
      ReapCalling(v, w);
    } else {
      match v.monitor {
        case DropSocket => SocketCalling(v, w);
        case DropTap =>
        case DropPidFile =>
        case DropTpmPidFile =>
        case DropTapFile =>
      }
    }
  }

  lemma ReapCalling(v: Vm, w: Vm)
    requires Calling(v) && Rank(v.monitor) < 5 && ReapStep(v, w)
    ensures Calling(w) && w.file.pid == v.file.pid && w.misread == v.misread && w.call.pid == v.call.pid
  {
    assert w.call.socket == v.call.socket && w.call.tap == v.call.tap && w.call.pid == v.call.pid;
  }

  lemma SocketCalling(v: Vm, w: Vm)
    requires Calling(v) && v.monitor == DropSocket && MonitorStep(v, w)
    ensures Calling(w) && w.file.pid == v.file.pid && w.misread == v.misread && w.call.pid == v.call.pid
  {
    if v.dev.hadSocket {
      assert w.call.socket != Pending;
    } else {
      assert w == v.(monitor := DropTap);
    }
  }

  lemma MonitorProgress(v: Vm, w: Vm)
    requires Progress(v) && MonitorStep(v, w)
    ensures Progress(w) && Forward(v, w)
  {
    MonitorReaping(v, w);
    MonitorCalling(v, w);
  }

  lemma ExitProgress(v: Vm, w: Vm)
    requires Progress(v) && ExitStep(v, w)
    ensures Progress(w) && Forward(v, w)
  {
    assert w == v.(proc := w.proc) && Calling(w);
  }

  lemma StopProgress(v: Vm, at: StopAt, w: Vm, then_: StopAt)
    requires Progress(v) && StopAgrees(v, at) && StopStep(v, at, w, then_)
    ensures Progress(w) && StopAgrees(w, then_) && Forward(v, w)
  {
  }

  lemma RestartProgress(s: State, next: State)
    requires Invariant(s) && Restart(s, next)
    ensures Invariant(next) && Forward(s.vm, next.vm)
  {
    assert Calling(next.vm);
    forall i | 0 <= i < |next.stops|
      ensures StopAgrees(next.vm, next.stops[i])
    {
      assert StopAgrees(s.vm, s.stops[i]);
    }
  }

  lemma NextForward(s: State, next: State)
    requires Invariant(s) && Next(s, next)
    ensures Invariant(next) && Forward(s.vm, next.vm)
  {
    var mover: int := -1;
    if Restart(s, next) {
      RestartProgress(s, next);
      return;
    }
    if i: nat :| StopMoves(s, next, i) {
      mover := i;
      StopProgress(s.vm, s.stops[i], next.vm, next.stops[i]);
    } else if MonitorStep(s.vm, next.vm) {
      MonitorProgress(s.vm, next.vm);
    } else {
      ExitProgress(s.vm, next.vm);
    }
    forall k | 0 <= k < |next.stops| && k != mover
      ensures StopAgrees(next.vm, next.stops[k])
    {
      assert next.stops[k] == s.stops[k] && StopAgrees(s.vm, s.stops[k]);
    }
  }

  ghost predicate Run(states: seq<State>) {
    && states != [] && Started(states[0])
    && forall k :: 0 <= k < |states| - 1 ==> NextAt(states, k)
  }

  ghost predicate NextAt(states: seq<State>, k: nat) {
    k + 1 < |states| && Next(states[k], states[k + 1])
  }

  lemma StepForward(states: seq<State>, k: nat)
    requires NextAt(states, k) && Invariant(states[k])
    ensures Invariant(states[k + 1]) && Forward(states[k].vm, states[k + 1].vm)
  {
    NextForward(states[k], states[k + 1]);
  }

  lemma {:induction false} RunKeepsInvariant(states: seq<State>, k: nat)
    requires Run(states) && k < |states|
    ensures Invariant(states[k])
  {
    if k > 0 {
      RunKeepsInvariant(states, k - 1);
      StepForward(states, k - 1);
    }
  }

  lemma RunStepForward(states: seq<State>, k: nat)
    requires Run(states) && k + 1 < |states|
    ensures Forward(states[k].vm, states[k + 1].vm)
  {
    RunKeepsInvariant(states, k);
    StepForward(states, k);
  }

  lemma {:induction false} RunForward(states: seq<State>, j: nat, k: nat)
    requires Run(states) && j <= k < |states|
    ensures Forward(states[j].vm, states[k].vm)
  {
    if j < k {
      RunForward(states, j, k - 1);
      RunStepForward(states, k - 1);
      ForwardTwice(states[j].vm, states[k - 1].vm, states[k].vm);
    }
  }

  lemma ForwardTwice(u: Vm, v: Vm, w: Vm)
    requires Forward(u, v) && Forward(v, w)
    ensures Forward(u, w)
  {
  }

  // In every interleaving, unless some stop failed to read a PID file that was there: when a
  // stop has returned Ok, everything has been reaped and every call made, the PID file is gone,
  // and it goes only then. In any case the socket and the tap are gone exactly if a call to
  // remove them worked.
  lemma StoppedMeansCleanedUp(states: seq<State>, k: nat)
    requires Run(states) && k < |states|
    ensures ResidueExplained(states[k].vm)
    ensures !states[k].vm.misread && !states[k].vm.file.pid ==> CleanedUp(states[k].vm)
    ensures !states[k].vm.misread && Returned(true) in states[k].stops ==>
              CleanedUp(states[k].vm) && !states[k].vm.file.pid
  {
    RunKeepsInvariant(states, k);
  }

  // What can still remove the PID file before any stop gets there.
  predicate Removable(v: Vm) {
    v.monitored && v.call.pid != Failed
  }

  // While a stop waits for the PID file to go, the monitor has a step to take that brings the
  // removal closer, exactly unless its removal of the file has failed or it has ended.
  lemma CleanupIsBlockedIff(states: seq<State>, k: nat, i: nat)
    requires Run(states) && k < |states| && i < |states[k].stops|
    requires states[k].stops[i] == AwaitCleanup && states[k].vm.file.pid
    ensures Removable(states[k].vm) <==>
            exists w :: MonitorStep(states[k].vm, w) && Rank(w.monitor) == Rank(states[k].vm.monitor) + 1 <= 8
    ensures forall w :: Removable(states[k].vm) && MonitorStep(states[k].vm, w) ==>
              Rank(w.monitor) == Rank(states[k].vm.monitor) + 1 <= 8
  {
    RunKeepsInvariant(states, k);
    assert StopAgrees(states[k].vm, states[k].stops[i]);
    BlockedIff(states[k].vm);
  }

  lemma BlockedIff(v: Vm)
    requires Progress(v) && v.proc.bhyve != Alive && v.file.pid
    ensures Removable(v) <==> exists w :: MonitorStep(v, w) && Rank(w.monitor) == Rank(v.monitor) + 1 <= 8
    ensures forall w :: Removable(v) && MonitorStep(v, w) ==> Rank(w.monitor) == Rank(v.monitor) + 1 <= 8
  {
    forall w | MonitorStep(v, w)
      ensures Rank(w.monitor) == Rank(v.monitor) + 1
    {
      MonitorAdvances(v, w);
    }
    assert v.call.pid != Failed <==> Rank(v.monitor) < 8;
    if Removable(v) {
      var w := MonitorMove(v);
    }
  }

  lemma MonitorAdvances(v: Vm, w: Vm)
    requires MonitorStep(v, w)
    ensures Rank(w.monitor) == Rank(v.monitor) + 1
  {
    match v.monitor {
      case WaitBhyve =>
      case DropConsole =>
      case DestroyVm =>
      case KillSwtpm =>
      case WaitSwtpm =>
      case DropSocket =>
      case DropTap =>
      case DropPidFile =>
      case DropTpmPidFile =>
      case DropTapFile =>
    }
  }

  lemma MonitorMove(v: Vm) returns (w: Vm)
    requires Progress(v) && v.monitored && v.proc.bhyve != Alive && Rank(v.monitor) < 8
    ensures MonitorStep(v, w)
  {
    w := match v.monitor
      case WaitBhyve => v.(proc := v.proc.(bhyve := Reaped), monitor := DropConsole)
      case DropConsole => v.(proc := v.proc.(console := false), monitor := DestroyVm)
      case DestroyVm => v.(proc := v.proc.(destroyIssued := true), monitor := KillSwtpm)
      case KillSwtpm => v.(proc := Killed(v.proc), monitor := WaitSwtpm)
      case WaitSwtpm => v.(proc := v.proc.(swtpm := Reaped), monitor := DropSocket)
      case DropSocket =>
        if v.dev.hadSocket then v.(call := v.call.(socket := Failed), monitor := DropTap) else v.(monitor := DropTap)
      case DropTap => v.(call := v.call.(tap := Failed), monitor := DropPidFile)
      case _ => v.(call := v.call.(pid := Failed), monitor := DropTpmPidFile);
  }

  // Once the file is gone, a stop that waits for that can only go on; while it is there, the stop
  // can only give up.
  lemma CleanupEndsWait(v: Vm)
    ensures exists w, then_ :: StopStep(v, AwaitCleanup, w, then_)
    ensures forall w, then_ :: StopStep(v, AwaitCleanup, w, then_) ==>
              w == v && if v.file.pid then then_ == Returned(false) else PastWaits(then_)
  {
    assert StopStep(v, AwaitCleanup, v, if v.file.pid then Returned(false) else KillTpm);
  }

  // Past the waits a stop always has a next statement, until it returns Ok.
  lemma PastWaitsGoesOn(v: Vm, at: StopAt)
    requires PastWaits(at) && at != Returned(true)
    ensures exists w, then_ :: StopStep(v, at, w, then_)
    ensures forall w, then_ :: StopStep(v, at, w, then_) ==> PastWaits(then_) && StopRank(then_) == StopRank(at) + 1
  {
    assert StopStep(v, at, v, if at.KillTpm? then DestroyTap else if at.DestroyTap? then RemovePid
                              else if at.RemovePid? then RemoveTpmPid else if at.RemoveTpmPid? then RemoveTapFile
                              else Returned(true));
  }

  function StopRank(at: StopAt): nat {
    match at
    case KillTpm => 1
    case DestroyTap => 2
    case RemovePid => 3
    case RemoveTpmPid => 4
    case RemoveTapFile => 5
    case Returned(_) => 6
    case _ => 0
  }

  // Before that, a stop always has a next statement as well, and one that reads the PID of a VM
  // that exits gets to the wait for cleanup.
  lemma WaitsGoOn(v: Vm, at: StopAt)
    requires at.NotCalled? || at.ReadPid? || at.Signal? || at.AwaitExit?
    ensures exists w, then_ :: StopStep(v, at, w, then_)
    ensures StopStep(v, NotCalled, v, ReadPid) && StopStep(v, Signal, v, AwaitExit)
    ensures StopStep(v, ReadPid, v, Signal) <==> v.file.pid
    ensures StopStep(v, AwaitExit, v, AwaitCleanup) <==> v.proc.bhyve != Alive
  {
    var then_ := if at.NotCalled? then ReadPid else if at.ReadPid? then (if v.file.pid then Signal else KillTpm)
      else if at.Signal? then AwaitExit else Returned(false);
    assert StopStep(v, at, v, then_);
  }

  // The monitor goes on to its end, unless it waits for a child that is still alive.
  lemma MonitorGoesOn(v: Vm)
    requires Progress(v) && v.monitored && v.monitor != Done
    ensures (exists w :: MonitorStep(v, w)) <==>
            !(v.monitor == WaitBhyve && v.proc.bhyve == Alive) && !(v.monitor == WaitSwtpm && v.proc.swtpm == Alive)
  {
    if v.monitor == DropTpmPidFile {
      assert MonitorStep(v, v.(monitor := DropTapFile));
    } else if v.monitor == DropTapFile {
      assert MonitorStep(v, v.(monitor := Done));
    } else if v.proc.bhyve != Alive && !(v.monitor == WaitSwtpm && v.proc.swtpm == Alive) {
      var w := MonitorMove(v);
    }
  }

  // If the removal has failed, or the monitor has ended before it, the file stays, and no stop
  // ever returns Ok.
  lemma BlockedIsFinal(states: seq<State>, j: nat, k: nat)
    requires Run(states) && j <= k < |states|
    requires states[j].vm.file.pid && !Removable(states[j].vm) && !states[k].vm.misread
    ensures states[k].vm.file.pid && Returned(true) !in states[k].stops
  {
    RunKeepsInvariant(states, j);
    RunKeepsInvariant(states, k);
    RunForward(states, j, k);
  }

  // ---- What failures leave behind ----

  lemma ExtendRun(states: seq<State>, next: State)
    requires Run(states) && Next(states[|states| - 1], next)
    ensures Run(states + [next])
  {
    var longer := states + [next];
    forall k | 0 <= k < |longer| - 1
      ensures NextAt(longer, k)
    {
      if k < |states| - 1 { assert NextAt(states, k) && longer[k] == states[k] && longer[k + 1] == states[k + 1]; }
    }
  }

  lemma MoveMonitor(states: seq<State>, w: Vm) returns (longer: seq<State>)
    requires Run(states)
    requires var s := states[|states| - 1]; MonitorStep(s.vm, w) || ExitStep(s.vm, w)
    ensures Run(longer) && |longer| == |states| + 1 && states <= longer
    ensures longer[|states|] == State(w, states[|states| - 1].stops)
  {
    var next := State(w, states[|states| - 1].stops);
    ExtendRun(states, next);
    longer := states + [next];
  }

  lemma MoveStop(states: seq<State>, w: Vm, at: StopAt) returns (longer: seq<State>)
    requires Run(states)
    requires var s := states[|states| - 1]; |s.stops| == 1 && StopStep(s.vm, s.stops[0], w, at)
    ensures Run(longer) && |longer| == |states| + 1 && states <= longer && longer[|states|] == State(w, [at])
  {
    var next := State(w, [at]);
    assert StopMoves(states[|states| - 1], next, 0);
    ExtendRun(states, next);
    longer := states + [next];
  }

  // A VM that has just been started, with or without a TPM.
  function FreshVm(tpm: bool): Vm {
    Vm(Processes(Alive, if tpm then Alive else Reaped, false, true), Devices(tpm, tpm, true), Files(true, tpm, true),
       Calls(Pending, Pending, Pending, false), WaitBhyve, true, false)
  }

  // The only stop of a VM, from its last steps on.
  lemma FinishStop(states: seq<State>) returns (longer: seq<State>)
    requires Run(states) && states[|states| - 1].stops == [KillTpm]
    ensures Run(longer) && states <= longer && longer[|longer| - 1] == State(states[|states| - 1].vm, [Returned(true)])
  {
    var v := states[|states| - 1].vm;
    longer := MoveStop(states, v, DestroyTap);
    longer := MoveStop(longer, v, RemovePid);
    longer := MoveStop(longer, v, RemoveTpmPid);
    longer := MoveStop(longer, v, RemoveTapFile);
    longer := MoveStop(longer, v, Returned(true));
  }

  // Past its waits a stop can remove whatever the monitor has left: no file stays, swtpm is
  // killed if its PID file was there, and the tap goes if its file was there.
  lemma StopRemovesTheRest(states: seq<State>) returns (longer: seq<State>)
    requires Run(states) && states[|states| - 1].stops == [KillTpm]
    ensures Run(longer) && states <= longer && longer[|longer| - 1].stops == [Returned(true)]
    ensures var v, w := states[|states| - 1].vm, longer[|longer| - 1].vm;
            && w.file == Files(false, false, false)
            && (v.file.tpmPid ==> w.proc.swtpm != Alive) && (v.file.tap ==> !w.dev.tap)
  {
    var v := states[|states| - 1].vm;
    if v.file.tpmPid { v := v.(proc := Killed(v.proc)); }
    longer := MoveStop(states, v, DestroyTap);
    if v.file.tap && v.dev.tap { v := v.(dev := v.dev.(tap := false), call := v.call.(tapByStop := true)); }
    longer := MoveStop(longer, v, RemovePid);
    longer := RemoveFiles(longer);
  }

  lemma RemoveFiles(states: seq<State>) returns (longer: seq<State>)
    requires Run(states) && states[|states| - 1].stops == [RemovePid]
    ensures Run(longer) && states <= longer
    ensures longer[|longer| - 1] ==
            State(states[|states| - 1].vm.(file := Files(false, false, false)), [Returned(true)])
  {
    var v := states[|states| - 1].vm;
    v := v.(file := v.file.(pid := false));
    longer := MoveStop(states, v, RemoveTpmPid);
    v := v.(file := v.file.(tpmPid := false));
    longer := MoveStop(longer, v, RemoveTapFile);
    v := v.(file := v.file.(tap := false));
    longer := MoveStop(longer, v, Returned(true));
  }

  // A stop that cannot read the PID file returns Ok over a live VM.
  lemma MisreadLeavesVmAlive() returns (states: seq<State>)
    ensures Run(states)
    ensures states[|states| - 1].stops == [Returned(true)] && states[|states| - 1].vm.proc.bhyve == Alive
  {
    var v := FreshVm(false);
    states := [State(v, [NotCalled])];
    states := MoveStop(states, v, ReadPid);
    states := MoveStop(states, v.(misread := true), KillTpm);
    states := FinishStop(states);
  }

  // The monitor of a VM that has exited gets as far as its calls.
  lemma ReachCalls(states: seq<State>, tpm: bool) returns (longer: seq<State>, v: Vm)
    requires Run(states) && states[|states| - 1].vm == FreshVm(tpm)
    ensures Run(longer) && states <= longer && longer[|longer| - 1] == State(v, states[|states| - 1].stops)
    ensures v == FreshVm(tpm).(proc := Processes(Reaped, Reaped, true, false), monitor := DropSocket)
  {
    v := FreshVm(tpm);
    v := v.(proc := v.proc.(bhyve := Zombie));
    longer := MoveMonitor(states, v);
    v := v.(proc := v.proc.(bhyve := Reaped), monitor := DropConsole);
    longer := MoveMonitor(longer, v);
    v := v.(proc := v.proc.(console := false), monitor := DestroyVm);
    longer := MoveMonitor(longer, v);
    v := v.(proc := v.proc.(destroyIssued := true), monitor := KillSwtpm);
    longer := MoveMonitor(longer, v);
    v := v.(proc := Killed(v.proc), monitor := WaitSwtpm);
    longer := MoveMonitor(longer, v);
    v := v.(proc := v.proc.(swtpm := Reaped), monitor := DropSocket);
    longer := MoveMonitor(longer, v);
  }

  // Without a TPM, as far as the tap.
  lemma ReachTap(stops: seq<StopAt>) returns (states: seq<State>, v: Vm)
    requires stops == [NotCalled]
    ensures Run(states) && states[|states| - 1] == State(v, stops)
    ensures v == FreshVm(false).(proc := Processes(Reaped, Reaped, true, false), monitor := DropTap)
  {
    states, v := ReachCalls([State(FreshVm(false), stops)], false);
    v := v.(monitor := DropTap);
    states := MoveMonitor(states, v);
  }

  // All the monitor's calls work.
  lemma AllCallsWork(states: seq<State>) returns (longer: seq<State>)
    requires Run(states)
    requires states[|states| - 1].vm ==
             FreshVm(true).(proc := Processes(Reaped, Reaped, true, false), monitor := DropSocket)
    ensures Run(longer) && states <= longer && longer[|longer| - 1].stops == states[|states| - 1].stops
    ensures longer[|longer| - 1].vm ==
            Vm(Processes(Reaped, Reaped, true, false), Devices(true, false, false), Files(false, false, false),
               Calls(Worked, Worked, Worked, false), Done, true, false)
  {
    var v := states[|states| - 1].vm;
    v := v.(dev := v.dev.(socket := false), call := v.call.(socket := Worked), monitor := DropTap);
    longer := MoveMonitor(states, v);
    v := v.(dev := v.dev.(tap := false), call := v.call.(tap := Worked), monitor := DropPidFile);
    longer := MoveMonitor(longer, v);
    v := v.(file := v.file.(pid := false), call := v.call.(pid := Worked), monitor := DropTpmPidFile);
    longer := MoveMonitor(longer, v);
    v := v.(file := v.file.(tpmPid := false), monitor := DropTapFile);
    longer := MoveMonitor(longer, v);
    v := v.(file := v.file.(tap := false), monitor := Done);
    longer := MoveMonitor(longer, v);
  }

  // A stop that signals a running VM can return Ok, over a VM of which nothing is left.
  lemma SignalledStopReturnsOk() returns (states: seq<State>, k: nat)
    ensures Run(states) && k < |states| && states[k].stops == [Signal] && states[k].vm.proc.bhyve == Alive
    ensures var last := states[|states| - 1];
            && last.stops == [Returned(true)] && CleanedUp(last.vm) && !last.vm.misread && last.vm.monitor == Done
            && !last.vm.dev.socket && !last.vm.dev.tap && last.vm.file == Files(false, false, false)
  {
    var v := FreshVm(true);
    var before := [State(v, [NotCalled])];
    before := MoveStop(before, v, ReadPid);
    before := MoveStop(before, v, Signal);
    k := |before| - 1;
    var waiting := MoveStop(before, v, AwaitExit);
    states, v := ReachCalls(waiting, true);
    states := AllCallsWork(states);
    v := states[|states| - 1].vm;
    states := MoveStop(states, v, AwaitCleanup);
    states := MoveStop(states, v, KillTpm);
    states := FinishStop(states);
    assert states[k] == before[k];
  }

  // If destroying the tap fails, a stop returns Ok over a live tap, with nothing misread.
  lemma FailedCallLeavesTap() returns (states: seq<State>)
    ensures Run(states)
    ensures states[|states| - 1].stops == [Returned(true)]
    ensures states[|states| - 1].vm.dev.tap && !states[|states| - 1].vm.misread
  {
    var v;
    states, v := ReachTap([NotCalled]);
    v := v.(call := v.call.(tap := Failed), monitor := DropPidFile);
    states := MoveMonitor(states, v);
    v := v.(file := v.file.(pid := false), call := v.call.(pid := Worked), monitor := DropTpmPidFile);
    states := MoveMonitor(states, v);
    states := MoveStop(states, v, ReadPid);
    states := MoveStop(states, v, KillTpm);
    states := FinishStop(states);
  }

  // If removing the PID file fails, a stop waits in vain.
  lemma FailedRemovalBlocksStop() returns (states: seq<State>)
    ensures Run(states)
    ensures states[|states| - 1].stops == [AwaitCleanup]
    ensures states[|states| - 1].vm.file.pid && states[|states| - 1].vm.call.pid == Failed
  {
    var v;
    states, v := ReachTap([NotCalled]);
    v := v.(dev := v.dev.(tap := false), call := v.call.(tap := Worked), monitor := DropPidFile);
    states := MoveMonitor(states, v);
    v := v.(call := v.call.(pid := Failed), monitor := DropTpmPidFile);
    states := MoveMonitor(states, v);
    states := MoveStop(states, v, ReadPid);
    states := MoveStop(states, v, Signal);
    states := MoveStop(states, v, AwaitExit);
    states := MoveStop(states, v, AwaitCleanup);
  }

  // If the daemon is restarted, a stop waits in vain though no removal has failed.
  lemma RestartBlocksStop() returns (states: seq<State>)
    ensures Run(states)
    ensures states[|states| - 1].stops == [AwaitCleanup] && states[|states| - 1].vm.file.pid
    ensures !states[|states| - 1].vm.monitored && states[|states| - 1].vm.call.pid == Pending
  {
    var v := FreshVm(false);
    var gone := State(v.(monitored := false), [NotCalled]);
    assert Restart(State(v, [NotCalled]), gone);
    ExtendRun([State(v, [NotCalled])], gone);
    states := [State(v, [NotCalled])] + [gone];
    v := v.(monitored := false);
    states := MoveStop(states, v, ReadPid);
    states := MoveStop(states, v, Signal);
    states := MoveStop(states, v, AwaitExit);
    v := v.(proc := v.proc.(bhyve := Zombie));
    states := MoveMonitor(states, v);
    v := v.(proc := v.proc.(bhyve := Reaped));
    states := MoveMonitor(states, v);
    states := MoveStop(states, v, AwaitCleanup);
  }
}
