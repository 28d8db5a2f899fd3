/**
 A connection from the daemon's threads to the client's terminal: frames are packed into
 messages, written to the socket by whichever thread has the lock, decoded, unpacked and
 printed. Packing is any encoding of these frames that can be undone and stays below the read
 limit.
 */
module Connection {
  import opened Wrappers
  import opened Wire
  import opened Session

  function Each<A, B>(items: seq<A>, f: A -> B): (results: seq<B>)
    ensures |results| == |items| && forall i :: 0 <= i < |items| ==> results[i] == f(items[i])
  {
    seq(|items|, i requires 0 <= i < |items| => f(items[i]))
  }

  // The frames at hand are packed below the read limit, and unpacking undoes it.
  predicate Decodable(frames: seq<Session.Frame>, pack: Session.Frame -> Message,
                      unpack: Message -> Session.Frame)
  {
    forall i :: 0 <= i < |frames| ==> |pack(frames[i])| <= LIMIT && unpack(pack(frames[i])) == frames[i]
  }

  // The handler and its threads, together with the lock and the socket.
  datatype State = State(session: Session.State, wire: Wire.State)

  // A step of the session that reports something happens when the thread takes the lock: the
  // frame is then on its way. Other steps of the session leave the socket alone, and writing
  // goes on by itself.
  ghost predicate Next(s: State, next: State, pack: Session.Frame -> Message) {
    || Quiet(s, next)
    || (exists t: nat, f :: Sends(s, next, t, f, pack))
    || (next.session == s.session && Drain(s.wire, next.wire))
  }

  ghost predicate Quiet(s: State, next: State) {
    Session.Next(s.session, next.session, false) && next.session.sent == s.session.sent && next.wire == s.wire
  }

  ghost predicate Sends(s: State, next: State, t: nat, f: Session.Frame, pack: Session.Frame -> Message) {
    && Session.Next(s.session, next.session, false) && next.session.sent == s.session.sent + [f]
    && Take(s.wire, next.wire, t, pack(f)) && next.wire.queues == s.wire.queues
  }

  ghost predicate IsRun(states: seq<State>, pack: Session.Frame -> Message) {
    && states != [] && Session.Initial(states[0].session) && Wire.Initial(states[0].wire)
    && forall k :: 0 <= k < |states| - 1 ==> Next(states[k], states[k + 1], pack)
  }

  ghost predicate Invariant(s: State, pack: Session.Frame -> Message) {
    Session.Invariant(s.session) && InFrames(s.wire) && Messages(s.wire.sent) == Each(s.session.sent, pack)
  }

  lemma NextKeepsInvariant(s: State, next: State, pack: Session.Frame -> Message)
    requires Invariant(s, pack) && Next(s, next, pack)
    ensures Invariant(next, pack)
  {
    if Quiet(s, next) {
      Session.NextKeepsInvariant(s.session, next.session);
    } else if t: nat, f :| Sends(s, next, t, f, pack) {
      Session.NextKeepsInvariant(s.session, next.session);
      TakeKeepsFrames(s.wire, next.wire, t, pack(f));
    } else {
      DrainKeepsFrames(s.wire, next.wire);
    }
  }

  // What the writers have sent is what the session has reported, in the same order.
  lemma {:induction false} RunKeepsInvariant(states: seq<State>, pack: Session.Frame -> Message, k: nat)
    requires IsRun(states, pack) && k < |states|
    ensures Invariant(states[k], pack)
  {
    if k > 0 {
      RunKeepsInvariant(states, pack, k - 1);
      NextKeepsInvariant(states[k - 1], states[k - 1 + 1], pack);
    }
  }

  // In every state of every run, the client has read a prefix of the frames in the order in
  // which they were reported, and all of them while nobody is writing.
  lemma ClientReadsFrames(states: seq<State>, k: nat, pack: Session.Frame -> Message, unpack: Message -> Session.Frame)
    requires IsRun(states, pack) && k < |states| && Decodable(states[k].session.sent, pack, unpack)
    ensures var seen := Each(Decode(states[k].wire.socket), unpack);
            && seen <= states[k].session.sent
            && (states[k].wire.holder.None? && !states[k].wire.broken ==> seen == states[k].session.sent)
  {
    RunKeepsInvariant(states, pack, k);
    SocketUnpacks(states[k].wire, states[k].session.sent, pack, unpack);
  }

  lemma SocketUnpacks(s: Wire.State, frames: seq<Session.Frame>,
                      pack: Session.Frame -> Message, unpack: Message -> Session.Frame)
    requires InFrames(s) && Messages(s.sent) == Each(frames, pack) && Decodable(frames, pack, unpack)
    ensures Each(Decode(s.socket), unpack) <= frames
    ensures s.holder.None? && !s.broken ==> Each(Decode(s.socket), unpack) == frames
  {
    var sent, read := Messages(s.sent), Decode(s.socket);
    assert Readable(sent);
    FramesDecode(s);
    assert read <= sent;
    forall i | 0 <= i < |read|
      ensures unpack(read[i]) == frames[i]
    {
      assert read[i] == sent[i] == pack(frames[i]);
    }
  }

  // When the handler has finished and its frames are written, the client's loop over the bytes of
  // the socket has printed every event in order and returns the handler's response.
  lemma ConnectionDelivers(
    states: seq<State>, k: nat, pack: Session.Frame -> Message, unpack: Message -> Session.Frame)
    requires IsRun(states, pack) && k < |states| && Decodable(states[k].session.sent, pack, unpack)
    requires states[k].session.finished && states[k].wire.holder.None? && !states[k].wire.broken
    ensures var seen := Each(Decode(states[k].wire.socket), unpack);
            match states[k].session.ending
            case Reply(text) =>
              && seen != [] && AllEvents(seen[..|seen| - 1])
              && Printed(seen) == Texts(seen[..|seen| - 1]) && Answer(seen) == Some(text)
            case Silent => Printed(seen) == Texts(seen) && Answer(seen).None?
  {
    ClientReadsFrames(states, k, pack, unpack);
    RunKeepsInvariant(states, pack, k);
    FinishedIsSeen(states[k].session);
  }
}
