/**
 Length-prefixed frames, and several daemon threads writing them to one socket behind a
 mutex. A frame goes out as several partial writes; a write may fail for good when the
 client goes away.
 */
module Wire {
  import opened Wrappers

  type byte = b: int | 0 <= b < 256
  type Message = seq<byte>

  const LIMIT: nat := 16 * 1024 * 1024
  const U32: nat := 0x1_0000_0000

  function Header(n: nat): (h: seq<byte>)
    requires n < U32
    ensures |h| == 4
  {
    [n / 0x100_0000, n / 0x1_0000 % 256, n / 0x100 % 256, n % 256]
  }

  function Length(h: seq<byte>): nat
    requires |h| == 4
  {
    var a: nat, b: nat, c: nat, d: nat := h[0], h[1], h[2], h[3];
    ((a * 256 + b) * 256 + c) * 256 + d
  }

  lemma LengthOfHeader(n: nat)
    requires n < U32
    ensures Length(Header(n)) == n
  {
    var a, b := n / 0x100, n / 0x1_0000;
    assert n == a * 256 + n % 256;
    assert a == b * 256 + a % 256 && a / 256 == b;
    assert b == n / 0x100_0000 * 256 + b % 256;
  }

  function Frame(m: Message): seq<byte>
    requires |m| < U32
  {
    Header(|m|) + m
  }

  datatype Reading = Got(message: Message, rest: seq<byte>) | TooLarge | Truncated

  // `read_message` on the bytes that are there.
  function ReadMessage(stream: seq<byte>): Reading {
    if |stream| < 4 then Truncated
    else
      var n := Length(stream[..4]);
      if n > LIMIT then TooLarge
      else if |stream| < 4 + n then Truncated
      else Got(stream[4..4 + n], stream[4 + n..])
  }

  // What a reader gets, message by message, until reading fails.
  function Decode(stream: seq<byte>): seq<Message> {
    match ReadMessage(stream)
    case Got(m, rest) => [m] + Decode(rest)
    case _ => []
  }

  predicate Writable(messages: seq<Message>) {
    forall i :: 0 <= i < |messages| ==> |messages[i]| < U32
  }

  predicate Readable(messages: seq<Message>) {
    forall i :: 0 <= i < |messages| ==> |messages[i]| <= LIMIT
  }

  function Encode(messages: seq<Message>): seq<byte>
    requires Writable(messages)
  {
    if messages == [] then [] else Frame(messages[0]) + Encode(messages[1..])
  }

  lemma ReadFrame(m: Message, rest: seq<byte>)
    requires |m| < U32
    ensures ReadMessage(Frame(m) + rest) == if |m| <= LIMIT then Got(m, rest) else TooLarge
  {
    LengthOfHeader(|m|);
    var stream := Frame(m) + rest;
    assert stream[..4] == Header(|m|);
    assert |m| <= LIMIT ==> stream[4..4 + |m|] == m && stream[4 + |m|..] == rest;
  }

  // Decoding gives back the messages exactly when none is above the read limit.
  lemma {:induction false} DecodeOfEncode(messages: seq<Message>)
    requires Writable(messages)
    ensures Decode(Encode(messages)) == messages <==> Readable(messages)
  {
    if messages != [] {
      ReadFrame(messages[0], Encode(messages[1..]));
      DecodeOfEncode(messages[1..]);
      assert messages == [messages[0]] + messages[1..];
      if |messages[0]| <= LIMIT {
        assert Readable(messages) <==> Readable(messages[1..]) by {
          forall i | 0 <= i < |messages| && Readable(messages[1..])
            ensures |messages[i]| <= LIMIT
          {
            if i > 0 { assert |messages[1..][i - 1]| <= LIMIT; }
          }
        }
      }
    }
  }

  // Two different message sequences never look the same on the wire.
  lemma EncodeInjective(a: seq<Message>, b: seq<Message>)
    requires Writable(a) && Writable(b) && Readable(a) && Readable(b) && Encode(a) == Encode(b)
    ensures a == b
  {
    DecodeOfEncode(a);
    DecodeOfEncode(b);
  }

  lemma {:induction false} EncodeAppend(messages: seq<Message>, m: Message)
    requires Writable(messages) && |m| < U32
    ensures Writable(messages + [m])
    ensures Encode(messages + [m]) == Encode(messages) + Frame(m)
  {
    if messages == [] {
      assert Encode([m]) == Frame(m) + Encode([]);
    } else {
      var rest := messages[1..];
      EncodeAppend(rest, m);
      assert (messages + [m])[1..] == rest + [m];
      assert Frame(messages[0]) + (Encode(rest) + Frame(m)) == Frame(messages[0]) + Encode(rest) + Frame(m);
    }
  }

  // Cut anywhere, a stream of frames decodes to a prefix of its messages.
  lemma {:induction false} DecodePrefix(messages: seq<Message>, stream: seq<byte>)
    requires Writable(messages) && Readable(messages) && stream <= Encode(messages)
    ensures Decode(stream) <= messages
    decreases |messages|
  {
    if messages != [] {
      var first, tail := Frame(messages[0]), Encode(messages[1..]);
      LengthOfHeader(|messages[0]|);
      if |stream| < |first| {
        if |stream| >= 4 {
          assert stream[..4] == Header(|messages[0]|);
        }
      } else {
        var rest := stream[|first|..];
        assert stream == first + rest;
        ReadFrame(messages[0], rest);
        DecodePrefix(messages[1..], rest);
      }
    }
  }

  // ---- Threads sharing the writer ----

  /**
   `queues` are the messages each thread still has to send. `holder` is the thread that
   has the mutex and `pending` what is left of its frame. `sent` records whose message
   went out when. Once a write has failed, the socket takes no more bytes.
   */
  datatype State = State(
    queues: seq<seq<Message>>, holder: Option<nat>, pending: seq<byte>,
    socket: seq<byte>, sent: seq<(nat, Message)>, broken: bool)

  function Messages(sent: seq<(nat, Message)>): (ms: seq<Message>)
    ensures |ms| == |sent| && forall i :: 0 <= i < |sent| ==> ms[i] == sent[i].1
  {
    if sent == [] then [] else [sent[0].1] + Messages(sent[1..])
  }

  // The messages of one thread, in the order in which they went out.
  function Of(sent: seq<(nat, Message)>, thread: nat): seq<Message> {
    if sent == [] then []
    else (if sent[0].0 == thread then [sent[0].1] else []) + Of(sent[1..], thread)
  }

  // A thread takes the mutex to write a message.
  ghost predicate Take(s: State, next: State, t: nat, m: Message) {
    && s.holder.None? && |m| < U32
    && next == s.(holder := Some(t), pending := Frame(m), sent := s.sent + [(t, m)], queues := next.queues)
  }

  ghost predicate Acquire(s: State, next: State, t: nat) {
    && t < |s.queues| && s.queues[t] != [] && Take(s, next, t, s.queues[t][0])
    && next.queues == s.queues[t := s.queues[t][1..]]
  }

  ghost predicate WriteSome(s: State, next: State, n: nat) {
    && s.holder.Some? && !s.broken && n <= |s.pending|
    && next == s.(socket := s.socket + s.pending[..n], pending := s.pending[n..])
  }

  ghost predicate WriteFails(s: State, next: State) {
    s.holder.Some? && next == s.(pending := [], broken := true)
  }

  ghost predicate Release(s: State, next: State) {
    s.holder.Some? && s.pending == [] && next == s.(holder := None)
  }

  ghost predicate Next(s: State, next: State) {
    (exists t: nat :: Acquire(s, next, t)) || Drain(s, next)
  }

  ghost predicate Initial(s: State) {
    s.holder.None? && s.pending == [] && s.socket == [] && s.sent == [] && !s.broken
  }

  // The bytes on the socket are the frames that went out, up to what is pending.
  ghost predicate InFrames(s: State) {
    && Writable(Messages(s.sent))
    && (s.holder.None? ==> s.pending == [])
    && if s.broken then s.socket <= Encode(Messages(s.sent)) else s.socket + s.pending == Encode(Messages(s.sent))
  }

  ghost predicate Invariant(s: State, queues: seq<seq<Message>>) {
    && InFrames(s)
    && |s.queues| == |queues|
    && (forall i :: 0 <= i < |s.sent| ==> s.sent[i].0 < |queues|)
    && forall t :: 0 <= t < |queues| ==> queues[t] == Of(s.sent, t) + s.queues[t]
  }

  lemma {:induction false} OfAppend(sent: seq<(nat, Message)>, t: nat, m: Message, thread: nat)
    ensures Of(sent + [(t, m)], thread) == Of(sent, thread) + if t == thread then [m] else []
  {
    if sent == [] {
      assert sent + [(t, m)] == [(t, m)];
    } else {
      assert (sent + [(t, m)])[1..] == sent[1..] + [(t, m)];
      OfAppend(sent[1..], t, m, thread);
    }
  }

  lemma AcquireKeepsInvariant(s: State, next: State, t: nat, queues: seq<seq<Message>>)
    requires Invariant(s, queues) && Acquire(s, next, t)
    ensures Invariant(next, queues)
  {
    TakeKeepsFrames(s, next, t, s.queues[t][0]);
    AcquireKeepsQueues(s, next, t, queues);
  }

  lemma TakeKeepsFrames(s: State, next: State, t: nat, m: Message)
    requires InFrames(s) && Take(s, next, t, m)
    ensures InFrames(next) && Messages(next.sent) == Messages(s.sent) + [m]
  {
    assert Messages(next.sent) == Messages(s.sent) + [m];
    assert s.socket + s.pending == s.socket;
    EncodeAppend(Messages(s.sent), m);
  }

  // Writing, failing and releasing change none of what was sent.
  ghost predicate Drain(s: State, next: State) {
    (exists n: nat :: WriteSome(s, next, n)) || WriteFails(s, next) || Release(s, next)
  }

  lemma DrainKeepsFrames(s: State, next: State)
    requires InFrames(s) && Drain(s, next)
    ensures InFrames(next) && next.sent == s.sent && next.queues == s.queues
  {
    if n: nat :| WriteSome(s, next, n) {
      assert s.socket + s.pending[..n] + s.pending[n..] == s.socket + s.pending;
    } else if WriteFails(s, next) {
      assert !s.broken ==> s.socket <= s.socket + s.pending;
    }
  }

  lemma AcquireKeepsQueues(s: State, next: State, t: nat, queues: seq<seq<Message>>)
    requires Acquire(s, next, t) && |s.queues| == |queues|
    requires forall k :: 0 <= k < |queues| ==> queues[k] == Of(s.sent, k) + s.queues[k]
    ensures forall k :: 0 <= k < |queues| ==> queues[k] == Of(next.sent, k) + next.queues[k]
  {
    var m := s.queues[t][0];
    forall k | 0 <= k < |queues|
      ensures queues[k] == Of(next.sent, k) + next.queues[k]
    {
      OfAppend(s.sent, t, m, k);
      assert k == t ==> s.queues[t] == [m] + next.queues[t];
    }
  }

  lemma NextKeepsInvariant(s: State, next: State, queues: seq<seq<Message>>)
    requires Invariant(s, queues) && Next(s, next)
    ensures Invariant(next, queues)
  {
    if t: nat :| Acquire(s, next, t) {
      AcquireKeepsInvariant(s, next, t, queues);
    } else {
      DrainKeepsFrames(s, next);
    }
  }

  // Whoever has the mutex can write all that is left or release it, and anyone can take a free one.
  lemma GoesOn(s: State, t: nat)
    requires t < |s.queues| && s.queues[t] != [] && |s.queues[t][0]| < U32
    ensures exists next :: Next(s, next)
    ensures s.holder.None? ==> exists next :: Acquire(s, next, t)
    ensures s.holder.Some? && !s.broken ==> exists next :: WriteSome(s, next, |s.pending|) && next.pending == []
    ensures s.holder.Some? && s.pending == [] ==> exists next :: Release(s, next) && next.holder.None?
  {
    var m := s.queues[t][0];
    var taken := s.(queues := s.queues[t := s.queues[t][1..]], holder := Some(t),
                    pending := Frame(m), sent := s.sent + [(t, m)]);
    var written := s.(socket := s.socket + s.pending, pending := []);
    var failed := s.(pending := [], broken := true);
    assert s.pending[..|s.pending|] == s.pending && s.pending[|s.pending|..] == [];
    if s.holder.None? {
      assert Acquire(s, taken, t) && Next(s, taken);
    } else {
      assert !s.broken ==> WriteSome(s, written, |s.pending|);
      assert s.pending == [] ==> Release(s, s.(holder := None));
      assert WriteFails(s, failed) && Next(s, failed);
    }
  }

  ghost predicate Run(states: seq<State>) {
    && states != [] && Initial(states[0])
    && forall k :: 0 <= k < |states| - 1 ==> Next(states[k], states[k + 1])
  }

  lemma {:induction false} RunKeepsInvariant(states: seq<State>, k: nat)
    requires Run(states) && k < |states|
    ensures Invariant(states[k], states[0].queues)
  {
    if k > 0 {
      RunKeepsInvariant(states, k - 1);
      NextKeepsInvariant(states[k - 1], states[k - 1 + 1], states[0].queues);
    }
  }

  // In every state of every run, what went out is an interleaving of the threads' messages:
  // each message comes from some thread, and each thread's went out in its own order. A
  // reader of the bytes so far gets the first messages of this common order; whenever the
  // mutex is free and no write has failed, it gets all of them.
  lemma SocketDecodesToInterleaving(states: seq<State>, k: nat)
    requires Run(states) && k < |states|
    requires Readable(Messages(states[k].sent))
    ensures forall i :: 0 <= i < |states[k].sent| ==> states[k].sent[i].0 < |states[0].queues|
    ensures forall t :: 0 <= t < |states[0].queues| ==>
              t < |states[k].queues| && states[0].queues[t] == Of(states[k].sent, t) + states[k].queues[t]
    ensures Decode(states[k].socket) <= Messages(states[k].sent)
    ensures states[k].holder.None? && !states[k].broken ==>
              Decode(states[k].socket) == Messages(states[k].sent)
  {
    RunKeepsInvariant(states, k);
    FramesDecode(states[k]);
  }

  lemma FramesDecode(s: State)
    requires InFrames(s) && Readable(Messages(s.sent))
    ensures Decode(s.socket) <= Messages(s.sent)
    ensures s.holder.None? && !s.broken ==> Decode(s.socket) == Messages(s.sent)
  {
    assert s.socket <= Encode(Messages(s.sent)) by {
      assert !s.broken ==> s.socket <= s.socket + s.pending;
    }
    DecodePrefix(Messages(s.sent), s.socket);
    DecodeOfEncode(Messages(s.sent));
    assert s.pending == [] ==> s.socket + s.pending == s.socket;
  }
}
