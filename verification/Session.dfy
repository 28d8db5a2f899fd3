/**
 One connection: the handler thread reports what it does, spawns reader or relay threads
 and joins them, and ends with one response; the client prints events until the first
 frame that is not one.
 */
module Session {
  import opened Wrappers

  datatype Frame = Event(text: string) | Response(text: string)

  // How a request ends: with a response, or with none, as a plain `attach` that fails.
  datatype Ending = Reply(text: string) | Silent

  // What the handler does: report something, or report a command (or a session) and then
  // wait for the threads that relay its output, given by the chunks they will read.
  datatype Action = Say(text: string) | Run(command: string, outputs: seq<seq<string>>)

  /**
   `readers` are the chunks left to each spawned thread. `joining` says that the handler
   waits for them. `onError` is how the request ends if an action fails, and `retry` says that
   a response of success that cannot be written is such a failure.
   */
  datatype State = State(
    script: seq<Action>, ending: Ending, onError: Ending, retry: bool,
    readers: seq<seq<string>>, joining: bool, finished: bool, sent: seq<Frame>)

  ghost predicate Act(s: State, next: State) {
    && !s.joining && !s.finished && s.script != []
    && match s.script[0]
       case Say(text) => next == s.(script := s.script[1..], sent := s.sent + [Event(text)])
       case Run(command, outputs) =>
         next == s.(script := s.script[1..], readers := outputs, joining := true,
                    sent := s.sent + [Event(command)])
  }

  ghost predicate Relay(s: State, next: State, r: nat) {
    && r < |s.readers| && s.readers[r] != []
    && next == s.(readers := s.readers[r := s.readers[r][1..]], sent := s.sent + [Event(s.readers[r][0])])
  }

  // Joining returns when every thread has read to the end.
  ghost predicate Join(s: State, next: State) {
    && s.joining && (forall r :: 0 <= r < |s.readers| ==> s.readers[r] == [])
    && next == s.(joining := false, readers := [])
  }

  // An action failed: the rest of the script is skipped.
  ghost predicate Fail(s: State, next: State) {
    !s.joining && !s.finished && next == s.(script := [], ending := s.onError, retry := false)
  }

  ghost predicate Finish(s: State, next: State) {
    && !s.joining && !s.finished && s.script == []
    && next == s.(finished := true,
                  sent := s.sent + match s.ending case Reply(text) => [Response(text)] case Silent => [])
  }

  // The first thread's read failed: its error is returned before the others are joined.
  ghost predicate ReadFails(s: State, next: State) {
    && s.joining && s.readers != []
    && next == s.(joining := false, readers := s.readers[0 := []], script := [], ending := s.onError, retry := false)
  }

  // The response could not be written: there is none, or another one is tried.
  ghost predicate ResponseFails(s: State, next: State) {
    && !s.joining && !s.finished && s.script == [] && s.ending.Reply?
    && next == s.(ending := if s.retry then s.onError else Silent, retry := false)
  }

  ghost predicate Next(s: State, next: State, mayFail: bool) {
    || Act(s, next) || Join(s, next) || Fail(s, next) || Finish(s, next)
    || (exists r: nat :: Relay(s, next, r))
    || (mayFail && (ReadFails(s, next) || ResponseFails(s, next)))
  }

  ghost predicate Initial(s: State) {
    s.readers == [] && !s.joining && !s.finished && s.sent == []
  }

  ghost predicate IsRun(states: seq<State>, mayFail: bool) {
    && states != [] && Initial(states[0])
    && forall k :: 0 <= k < |states| - 1 ==> Next(states[k], states[k + 1], mayFail)
  }

  predicate AllEvents(frames: seq<Frame>) {
    forall i :: 0 <= i < |frames| ==> frames[i].Event?
  }

  // Only a finished connection carries a response, as its last frame.
  ghost predicate WellFormed(s: State) {
    && (s.finished ==> s.script == [])
    && if s.finished && s.ending.Reply? then
         && s.sent != [] && s.sent[|s.sent| - 1] == Response(s.ending.text)
         && AllEvents(s.sent[..|s.sent| - 1])
       else
         AllEvents(s.sent)
  }

  ghost predicate Invariant(s: State) {
    && WellFormed(s)
    && (!s.joining ==> forall r :: 0 <= r < |s.readers| ==> s.readers[r] == [])
    && (s.finished ==> !s.joining)
  }

  lemma NextKeepsInvariant(s: State, next: State)
    requires Invariant(s) && Next(s, next, false)
    ensures Invariant(next)
  {
    if Finish(s, next) {
      assert s.ending.Reply? ==> next.sent[..|next.sent| - 1] == s.sent;
    }
  }

  lemma {:induction false} RunKeepsInvariant(states: seq<State>, k: nat)
    requires IsRun(states, false) && k < |states|
    ensures Invariant(states[k])
  {
    if k > 0 {
      RunKeepsInvariant(states, k - 1);
      NextKeepsInvariant(states[k - 1], states[k - 1 + 1]);
    }
  }

  function Responses(frames: seq<Frame>): nat {
    if frames == [] then 0 else (if frames[0].Response? then 1 else 0) + Responses(frames[1..])
  }

  lemma {:induction false} ResponsesAppend(frames: seq<Frame>, f: Frame)
    ensures Responses(frames + [f]) == Responses(frames) + if f.Response? then 1 else 0
  {
    if frames == [] {
      assert frames + [f] == [f];
    } else {
      assert (frames + [f])[1..] == frames[1..] + [f];
      ResponsesAppend(frames[1..], f);
    }
  }

  // Even when reads fail, or responses cannot be written, at most one is, and none before the
  // end.
  lemma {:induction false} AtMostOneResponse(states: seq<State>, k: nat)
    requires IsRun(states, true) && k < |states|
    ensures Responses(states[k].sent) == if states[k].finished && states[k].ending.Reply? then 1 else 0
    ensures states[k].finished ==> !states[k].joining && states[k].script == []
  {
    if k > 0 {
      AtMostOneResponse(states, k - 1);
      var s, next := states[k - 1], states[k - 1 + 1];
      assert Next(s, next, true);
      if |next.sent| > |s.sent| {
        var f := next.sent[|s.sent|];
        assert next.sent == s.sent + [f];
        ResponsesAppend(s.sent, f);
      } else {
        assert next.sent == s.sent;
      }
    }
  }

  // ---- The client ----

  // The events before the first other frame, and the text of that frame.
  function Printed(frames: seq<Frame>): seq<string> {
    if frames == [] || frames[0].Response? then [] else [frames[0].text] + Printed(frames[1..])
  }

  function Answer(frames: seq<Frame>): Option<string> {
    if frames == [] then None
    else if frames[0].Response? then Some(frames[0].text)
    else Answer(frames[1..])
  }

  // The receive loop of `send_request_tree`; running out of frames is a read error.
  method ReceiveResponse(frames: seq<Frame>) returns (printed: seq<string>, answer: Option<string>)
    ensures printed == Printed(frames) && answer == Answer(frames)
  {
    printed, answer := [], None;
    var i := 0;
    while i < |frames|
      invariant 0 <= i <= |frames|
      invariant Printed(frames) == printed + Printed(frames[i..]) && Answer(frames) == Answer(frames[i..])
    {
      assert frames[i..][1..] == frames[i + 1..];
      if frames[i].Response? {
        return printed, Some(frames[i].text);
      }
      printed := printed + [frames[i].text];
      i := i + 1;
    }
  }

  function Texts(frames: seq<Frame>): seq<string> {
    if frames == [] then [] else [frames[0].text] + Texts(frames[1..])
  }

  lemma {:induction false} ConsumeEvents(events: seq<Frame>, rest: seq<Frame>)
    requires AllEvents(events)
    ensures Printed(events + rest) == Texts(events) + Printed(rest) && Answer(events + rest) == Answer(rest)
  {
    if events == [] {
      assert events + rest == rest;
    } else {
      assert (events + rest)[1..] == events[1..] + rest;
      ConsumeEvents(events[1..], rest);
    }
  }

  // Once the handler has finished, the client has printed every event exactly once, in
  // the order sent, and returns the handler's response; a silent end leaves it without.
  lemma ClientSeesEverything(states: seq<State>, k: nat)
    requires IsRun(states, false) && k < |states| && states[k].finished
    ensures match states[k].ending
            case Reply(text) =>
              && states[k].sent != [] && AllEvents(states[k].sent[..|states[k].sent| - 1])
              && Printed(states[k].sent) == Texts(states[k].sent[..|states[k].sent| - 1])
              && Answer(states[k].sent) == Some(text)
            case Silent => Printed(states[k].sent) == Texts(states[k].sent) && Answer(states[k].sent).None?
  {
    RunKeepsInvariant(states, k);
    FinishedIsSeen(states[k]);
  }

  lemma FinishedIsSeen(s: State)
    requires Invariant(s) && s.finished
    ensures match s.ending
            case Reply(text) =>
              && s.sent != [] && AllEvents(s.sent[..|s.sent| - 1])
              && Printed(s.sent) == Texts(s.sent[..|s.sent| - 1]) && Answer(s.sent) == Some(text)
            case Silent => Printed(s.sent) == Texts(s.sent) && Answer(s.sent).None?
  {
    var sent := s.sent;
    if s.ending.Reply? {
      var events := sent[..|sent| - 1];
      assert sent == events + [Response(s.ending.text)];
      ConsumeEvents(events, [Response(s.ending.text)]);
    } else {
      ConsumeEvents(sent, []);
      assert sent + [] == sent;
    }
  }

  // After the end nothing more can happen.
  lemma FinishedIsFinal(states: seq<State>, k: nat)
    requires IsRun(states, false) && k < |states| && states[k].finished
    ensures k == |states| - 1 && forall next :: !Next(states[k], next, false)
  {
    RunKeepsInvariant(states, k);
    forall next
      ensures !Next(states[k], next, false)
    {
    }
    var after := if k + 1 < |states| then states[k + 1] else states[k];
    assert !Next(states[k], after, false);
  }

  // ---- Nothing is lost or repeated ----

  // The texts a set of threads, a script, a sequence of frames stand for.
  function Chunks(readers: seq<seq<string>>): multiset<string> {
    if readers == [] then multiset{} else multiset(readers[0]) + Chunks(readers[1..])
  }

  function Planned(script: seq<Action>): multiset<string> {
    if script == [] then multiset{}
    else
      (match script[0]
       case Say(text) => multiset{text}
       case Run(command, outputs) => multiset{command} + Chunks(outputs)) + Planned(script[1..])
  }

  function Reported(frames: seq<Frame>): multiset<string> {
    if frames == [] then multiset{}
    else (if frames[0].Event? then multiset{frames[0].text} else multiset{}) + Reported(frames[1..])
  }

  lemma {:induction false} ReportedAppend(frames: seq<Frame>, f: Frame)
    ensures Reported(frames + [f]) == Reported(frames) + if f.Event? then multiset{f.text} else multiset{}
  {
    if frames == [] {
      assert frames + [f] == [f];
    } else {
      assert (frames + [f])[1..] == frames[1..] + [f];
      ReportedAppend(frames[1..], f);
    }
  }

  lemma {:induction false} ChunksPop(readers: seq<seq<string>>, r: nat)
    requires r < |readers| && readers[r] != []
    ensures Chunks(readers) == multiset{readers[r][0]} + Chunks(readers[r := readers[r][1..]])
  {
    var popped := readers[r := readers[r][1..]];
    if r == 0 {
      assert readers[0] == [readers[0][0]] + readers[0][1..];
      assert popped[1..] == readers[1..];
    } else {
      ChunksPop(readers[1..], r - 1);
      assert popped[1..] == readers[1..][r - 1 := readers[r][1..]];
    }
  }

  lemma {:induction false} ChunksEmpty(readers: seq<seq<string>>)
    requires forall r :: 0 <= r < |readers| ==> readers[r] == []
    ensures Chunks(readers) == multiset{}
  {
    if readers != [] {
      ChunksEmpty(readers[1..]);
    }
  }

  function Total(s: State): multiset<string> {
    Reported(s.sent) + Chunks(s.readers) + Planned(s.script)
  }

  lemma RelayConserves(s: State, next: State, r: nat)
    requires Relay(s, next, r)
    ensures Total(next) == Total(s)
  {
    ReportedAppend(s.sent, Event(s.readers[r][0]));
    ChunksPop(s.readers, r);
  }

  lemma ActConserves(s: State, next: State)
    requires Act(s, next) && Chunks(s.readers) == multiset{}
    ensures Total(next) == Total(s)
  {
    match s.script[0] {
      case Say(text) => ReportedAppend(s.sent, Event(text));
      case Run(command, outputs) => ReportedAppend(s.sent, Event(command));
    }
  }

  lemma FinishConserves(s: State, next: State)
    requires Finish(s, next)
    ensures Total(next) == Total(s)
  {
    match s.ending {
      case Reply(text) => ReportedAppend(s.sent, Response(text));
      case Silent => assert next.sent == s.sent;
    }
  }

  // Every step that is not a failure moves texts from what is planned to what is reported.
  lemma StepConserves(s: State, next: State)
    requires Invariant(s) && Next(s, next, false) && !Fail(s, next)
    ensures Total(next) == Total(s)
  {
    if r: nat :| Relay(s, next, r) {
      RelayConserves(s, next, r);
    } else if Finish(s, next) {
      FinishConserves(s, next);
    } else {
      ChunksEmpty(s.readers);
      if Act(s, next) {
        ActConserves(s, next);
      }
    }
  }

  lemma {:induction false} RunConserves(states: seq<State>, k: nat)
    requires IsRun(states, false) && k < |states|
    requires forall i :: 0 <= i < |states| - 1 ==> !Fail(states[i], states[i + 1])
    ensures Total(states[k]) == Total(states[0])
  {
    if k > 0 {
      RunConserves(states, k - 1);
      RunKeepsInvariant(states, k - 1);
      StepConserves(states[k - 1], states[k - 1 + 1]);
    }
  }

  // A handler that finishes without a failed action has reported every message, command
  // and output chunk exactly once.
  lemma EverythingReportedOnce(states: seq<State>, k: nat)
    requires IsRun(states, false) && k < |states| && states[k].finished
    requires forall i :: 0 <= i < |states| - 1 ==> !Fail(states[i], states[i + 1])
    ensures Reported(states[k].sent) == Planned(states[0].script)
  {
    RunConserves(states, k);
    RunKeepsInvariant(states, k);
    var first, last := states[0], states[k];
    ChunksEmpty(last.readers);
    assert last.script == [] && Planned(last.script) == multiset{};
    assert first.sent == [] && Reported(first.sent) == multiset{};
    assert first.readers == [] && Chunks(first.readers) == multiset{};
    assert Total(last) == Reported(last.sent) && Total(first) == Planned(first.script);
  }

  // ---- The order ----

  // The texts are what the threads read, interleaved, with each thread's in its order.
  ghost predicate Merges(readers: seq<seq<string>>, texts: seq<string>)
    decreases |texts|
  {
    if texts == [] then forall r :: 0 <= r < |readers| ==> readers[r] == []
    else exists r: nat :: PopGives(readers, r, texts[0]) && Merges(readers[r := readers[r][1..]], texts[1..])
  }

  predicate PopGives(readers: seq<seq<string>>, r: nat, text: string) {
    r < |readers| && readers[r] != [] && readers[r][0] == text
  }

  // The texts are those of the script, in its order, each command ahead of all its output and
  // that ahead of what follows.
  ghost predicate Tells(script: seq<Action>, texts: seq<string>) {
    if script == [] then texts == []
    else
      && texts != []
      && match script[0]
         case Say(text) => texts[0] == text && Tells(script[1..], texts[1..])
         case Run(command, outputs) =>
           && texts[0] == command
           && exists m: nat :: m < |texts| && Merges(outputs, texts[1..][..m]) && Tells(script[1..], texts[1..][m..])
  }

  // The texts are what a handler in this state still has to tell.
  ghost predicate Completes(s: State, texts: seq<string>) {
    if s.joining then
      exists m: nat :: m <= |texts| && Merges(s.readers, texts[..m]) && Tells(s.script, texts[m..])
    else Tells(s.script, texts)
  }

  function Events(frames: seq<Frame>): seq<string> {
    if frames == [] then []
    else
      var last := |frames| - 1;
      Events(frames[..last]) + if frames[last].Event? then [frames[last].text] else []
  }

  lemma EventsAppend(frames: seq<Frame>, f: Frame, rest: seq<string>)
    ensures Events(frames + [f]) + rest == Events(frames) + if f.Event? then [f.text] + rest else rest
  {
    var longer := frames + [f];
    assert longer[..|longer| - 1] == frames && longer[|longer| - 1] == f;
  }

  function Heading(action: Action): string {
    match action
    case Say(text) => text
    case Run(command, _) => command
  }

  // A step tells nothing, or the next text.
  lemma StepTells(s: State, next: State, rest: seq<string>) returns (texts: seq<string>)
    requires Invariant(s) && Next(s, next, false) && !Fail(s, next) && Completes(next, rest)
    ensures Events(next.sent) + rest == Events(s.sent) + texts && Completes(s, texts)
  {
    texts := rest;
    if r: nat :| Relay(s, next, r) {
      texts := [s.readers[r][0]] + rest;
      EventsAppend(s.sent, Event(s.readers[r][0]), rest);
      RelayTells(s, next, r, rest);
    } else if Act(s, next) {
      texts := [Heading(s.script[0])] + rest;
      EventsAppend(s.sent, Event(Heading(s.script[0])), rest);
      assert texts[1..] == rest;
    } else if Join(s, next) {
      assert rest[..0] == [] && rest[0..] == rest && Merges(s.readers, rest[..0]);
    } else if s.ending.Reply? {
      EventsAppend(s.sent, Response(s.ending.text), rest);
    } else {
      assert next.sent == s.sent;
    }
  }

  lemma RelayTells(s: State, next: State, r: nat, rest: seq<string>)
    requires Invariant(s) && Relay(s, next, r) && Completes(next, rest)
    ensures Completes(s, [s.readers[r][0]] + rest)
  {
    var texts := [s.readers[r][0]] + rest;
    assert s.joining;
    var m: nat :| m <= |rest| && Merges(next.readers, rest[..m]) && Tells(next.script, rest[m..]);
    assert texts[..m + 1][1..] == rest[..m] && texts[m + 1..] == rest[m..];
    assert PopGives(s.readers, r, texts[..m + 1][0]);
    assert Merges(s.readers, texts[..m + 1]);
  }

  lemma {:induction false} RestIsTold(states: seq<State>, j: nat, k: nat) returns (rest: seq<string>)
    requires IsRun(states, false) && j <= k < |states| && states[k].finished
    requires forall i :: 0 <= i < |states| - 1 ==> !Fail(states[i], states[i + 1])
    ensures Events(states[k].sent) == Events(states[j].sent) + rest && Completes(states[j], rest)
    decreases k - j
  {
    RunKeepsInvariant(states, j);
    if j == k {
      rest := [];
    } else {
      var later := RestIsTold(states, j + 1, k);
      rest := StepTells(states[j], states[j + 1], later);
    }
  }

  // A handler that finishes without a failed action has reported its messages and commands in
  // the order of its script, and between a command and what follows exactly the command's output,
  // each of its streams in order.
  lemma ReportedInOrder(states: seq<State>, k: nat)
    requires IsRun(states, false) && k < |states| && states[k].finished
    requires forall i :: 0 <= i < |states| - 1 ==> !Fail(states[i], states[i + 1])
    ensures Tells(states[0].script, Events(states[k].sent))
  {
    var rest := RestIsTold(states, 0, k);
    assert Events(states[0].sent) == [] && [] + rest == rest;
  }

  // ---- How the commands end ----

  // The fields of a request that decide how it is handled.
  datatype Request = Request(command: Option<string>, attach: Option<bool>, start: Option<bool>)

  datatype Route = Provisioning | InitializingNetwork | StartingAttached | Attaching | Executing

  // The tests of `handle`, in their order.
  function RouteOf(request: Request): Route {
    if request.command == Some("provision") then Provisioning
    else if request.command == Some("network-init") then InitializingNetwork
    else if
      && (request.command == Some("start") || request.command == Some("create"))
      && request.attach == Some(true) && (request.start == Some(true) || request.command == Some("start"))
    then StartingAttached
    else if request.command == Some("attach") then Attaching
    else Executing
  }

  // What a connection sends at its end if everything works and if something fails. Two of the
  // routes load the configuration where an error is not answered.
  function EndingsOf(route: Route, configured: bool, success: string, error: string): (Ending, Ending) {
    match route
    case Provisioning => if configured then (Reply(success), Reply(error)) else (Silent, Silent)
    case InitializingNetwork => if configured then (Reply(success), Reply(error)) else (Silent, Silent)
    case StartingAttached => (Reply(success), Reply(error))
    case Attaching => (Reply(success), Silent)
    case Executing => (Reply(success), Reply(error))
  }

  // The handler of a request before it begins. Provisioning collects its output for the
  // response.
  ghost predicate Handles(s: State, request: Request, configured: bool, success: string, error: string) {
    var route := RouteOf(request);
    && (s.ending, s.onError) == EndingsOf(route, configured, success, error)
    && (s.retry <==> route.StartingAttached?)
    && (route.Provisioning? || (route.InitializingNetwork? && !configured) ==> s.script == [])
  }

  ghost predicate FailedBefore(states: seq<State>, k: nat) {
    exists i :: 0 <= i < k && i + 1 < |states| && Fail(states[i], states[i + 1])
  }

  lemma {:induction false} EndingAt(states: seq<State>, k: nat)
    requires IsRun(states, false) && k < |states|
    ensures states[k].onError == states[0].onError
    ensures states[k].ending == if FailedBefore(states, k) then states[0].onError else states[0].ending
  {
    if k > 0 {
      EndingAt(states, k - 1);
      var s, next := states[k - 1], states[k - 1 + 1];
      assert Next(s, next, false);
      FailedBeforeStep(states, k - 1);
    }
  }

  lemma FailedBeforeStep(states: seq<State>, k: nat)
    requires k + 1 < |states|
    ensures FailedBefore(states, k + 1) <==> FailedBefore(states, k) || Fail(states[k], states[k + 1])
  {
  }

  // A finished connection is left without an answer exactly if an `attach` failed, or the
  // configuration could not be loaded for one of two commands. Otherwise the answer is an error
  // exactly if something failed.
  lemma SilentIff(
    states: seq<State>, k: nat, request: Request, configured: bool, success: string, error: string)
    requires IsRun(states, false) && k < |states| && states[k].finished
    requires Handles(states[0], request, configured, success, error)
    ensures Answer(states[k].sent).None? <==>
            || (request.command == Some("attach") && FailedBefore(states, k))
            || ((request.command == Some("provision") || request.command == Some("network-init")) && !configured)
    ensures Answer(states[k].sent).Some? ==>
              Answer(states[k].sent) == Some(if FailedBefore(states, k) then error else success)
  {
    EndingAt(states, k);
    ClientSeesEverything(states, k);
  }

  // A response of success that cannot be written is followed by an error response exactly for a
  // start, or the creation of something that is started, to which the client attaches.
  lemma LostResponseIsRetriedIff(
    states: seq<State>, k: nat, request: Request, success: string, error: string, next: State)
    requires IsRun(states, false) && k < |states| && !FailedBefore(states, k)
    requires Handles(states[0], request, true, success, error) && ResponseFails(states[k], next)
    ensures next.ending == if AttachedStart(request) then Reply(error) else Silent
  {
    EndingAt(states, k);
    RetryAt(states, k);
  }

  predicate AttachedStart(request: Request) {
    && request.attach == Some(true)
    && (request.command == Some("start") || (request.command == Some("create") && request.start == Some(true)))
  }

  lemma {:induction false} RetryAt(states: seq<State>, k: nat)
    requires IsRun(states, false) && k < |states| && !FailedBefore(states, k)
    ensures states[k].retry == states[0].retry
  {
    if k > 0 {
      FailedBeforeStep(states, k - 1);
      RetryAt(states, k - 1);
      var s, next := states[k - 1], states[k - 1 + 1];
      assert Next(s, next, false);
    }
  }

  // A connection always has a next step until it is finished, and every one brings it closer.
  lemma GoesOn(s: State)
    requires !s.finished
    ensures exists next :: Next(s, next, false) && !Fail(s, next)
  {
    if s.joining {
      if r: nat :| r < |s.readers| && s.readers[r] != [] {
        var next := s.(readers := s.readers[r := s.readers[r][1..]], sent := s.sent + [Event(s.readers[r][0])]);
        assert Relay(s, next, r);
        assert Next(s, next, false) && !Fail(s, next);
      } else {
        var next := s.(joining := false, readers := []);
        assert Join(s, next) && !Fail(s, next);
      }
    } else if s.script == [] {
      var last := match s.ending case Reply(text) => [Response(text)] case Silent => [];
      var next := s.(finished := true, sent := s.sent + last);
      assert Finish(s, next) && !Fail(s, next);
    } else {
      var next := ActOn(s);
      assert Act(s, next) && !Fail(s, next);
    }
  }

  // Between two actions, and after the last one, something may fail; then the connection can only
  // end, with the response to that.
  lemma FailureEnds(s: State)
    requires !s.joining && !s.finished
    ensures exists failed :: Next(s, failed, false) && Fail(s, failed)
    ensures forall failed, next ::
              Invariant(s) && Fail(s, failed) && Next(failed, next, false) && !Fail(failed, next) ==>
                && next.finished && next.script == []
                && next.sent == s.sent + match s.onError case Reply(text) => [Response(text)] case Silent => []
  {
    var failed := s.(script := [], ending := s.onError, retry := false);
    assert Fail(s, failed);
  }

  lemma ActOn(s: State) returns (next: State)
    requires !s.joining && !s.finished && s.script != []
    ensures Act(s, next) && |next.sent| == |s.sent| + 1
  {
    next := match s.script[0]
      case Say(text) => s.(script := s.script[1..], sent := s.sent + [Event(text)])
      case Run(command, outputs) =>
        s.(script := s.script[1..], readers := outputs, joining := true, sent := s.sent + [Event(command)]);
  }

  // How much is left to do: a step for every text to come, two for every command, one to end.
  function ToDo(s: State): nat {
    Length(s.script) + Left(s.readers) + (if s.joining then 1 else 0) + (if s.finished then 0 else 1)
  }

  function Length(script: seq<Action>): nat {
    if script == [] then 0
    else (match script[0] case Say(_) => 1 case Run(_, outputs) => 2 + Left(outputs)) + Length(script[1..])
  }

  function Left(readers: seq<seq<string>>): nat {
    if readers == [] then 0 else |readers[0]| + Left(readers[1..])
  }

  lemma {:induction false} LeftPop(readers: seq<seq<string>>, r: nat)
    requires r < |readers| && readers[r] != []
    ensures Left(readers[r := readers[r][1..]]) + 1 == Left(readers)
  {
    var popped := readers[r := readers[r][1..]];
    if r == 0 {
      assert popped[1..] == readers[1..];
    } else {
      LeftPop(readers[1..], r - 1);
      assert popped[1..] == readers[1..][r - 1 := readers[r][1..]];
    }
  }

  lemma {:induction false} NothingLeft(readers: seq<seq<string>>)
    requires forall r :: 0 <= r < |readers| ==> readers[r] == []
    ensures Left(readers) == 0
  {
    if readers != [] {
      NothingLeft(readers[1..]);
    }
  }

  lemma ComesCloser(s: State, next: State)
    requires Invariant(s) && Next(s, next, false) && !Fail(s, next)
    ensures ToDo(next) < ToDo(s)
  {
    if r: nat :| Relay(s, next, r) {
      LeftPop(s.readers, r);
    } else if Act(s, next) {
      NothingLeft(s.readers);
    } else if Join(s, next) {
      NothingLeft(s.readers);
      assert Left([]) == 0;
    }
  }

  // If the response to an attached start cannot be written, a second one is tried.
  lemma LostResponseIsRetried(success: string, error: string)
    ensures var request := Request(Some("start"), Some(true), None);
            exists states: seq<State> ::
              && IsRun(states, true) && |states| > 1 && Handles(states[0], request, true, success, error)
              && ResponseFails(states[0], states[1]) && states[|states| - 1].sent == [Response(error)]
  {
    var s0 := State([], Reply(success), Reply(error), true, [], false, false, []);
    var s1 := s0.(ending := Reply(error), retry := false);
    var s2 := s1.(finished := true, sent := [Response(error)]);
    assert ResponseFails(s0, s1) && Finish(s1, s2);
    var states := [s0, s1, s2];
    assert forall k :: 0 <= k < 2 ==> Next(states[k], states[k + 1], true);
    assert Handles(s0, Request(Some("start"), Some(true), None), true, success, error);
    assert IsRun(states, true);
  }

  // The hypothesis on pipe reads is needed: if the stdout reader fails while the stderr
  // reader still runs, an event can follow the error response.
  lemma FailedReadAllowsLateEvent()
    ensures exists states: seq<State> :: IsRun(states, true) &&
              states[|states| - 1].sent == [Event("cmd"), Response("read error"), Event("late")]
  {
    var s0 := State([Run("cmd", [[], ["late"]])], Reply("ok"), Reply("read error"), false, [], false, false, []);
    var s1 := s0.(script := [], readers := [[], ["late"]], joining := true, sent := [Event("cmd")]);
    var s2 := s1.(joining := false, ending := Reply("read error"), retry := false);
    var s3 := s2.(finished := true, sent := [Event("cmd"), Response("read error")]);
    var s4 := s3.(readers := [[], []], sent := [Event("cmd"), Response("read error"), Event("late")]);
    assert Act(s0, s1);
    assert s1.readers[0 := []] == s1.readers && ReadFails(s1, s2);
    assert Finish(s2, s3);
    assert s3.readers[1] == ["late"] && ["late"][1..] == [] && s4.readers == s3.readers[1 := s3.readers[1][1..]];
    assert Relay(s3, s4, 1);
    var states := [s0, s1, s2, s3, s4];
    assert forall k :: 0 <= k < 4 ==> Next(states[k], states[k + 1], true);
    assert IsRun(states, true);
  }
}
