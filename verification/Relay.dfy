/** The console relay: keyboard bytes from the client to the attached process. */
module Relay {
  import opened Wire

  // Control-], which detaches.
  const DETACH: byte := 0x1d

  datatype Input = Stdin(data: seq<byte>) | StdinEof

  function Flatten(chunks: seq<seq<byte>>): seq<byte> {
    if chunks == [] then [] else chunks[0] + Flatten(chunks[1..])
  }

  // The bytes before the first detach key.
  function Before(bytes: seq<byte>): seq<byte> {
    if bytes == [] || bytes[0] == DETACH then [] else [bytes[0]] + Before(bytes[1..])
  }

  lemma {:induction false} BeforePosition(bytes: seq<byte>)
    ensures Before(bytes) <= bytes && DETACH !in Before(bytes)
    ensures DETACH in bytes <==> |Before(bytes)| < |bytes|
    ensures |Before(bytes)| < |bytes| ==> bytes[|Before(bytes)|] == DETACH
  {
    if bytes != [] && bytes[0] != DETACH {
      BeforePosition(bytes[1..]);
      assert bytes == [bytes[0]] + bytes[1..];
    }
  }

  lemma {:induction false} BeforeConcat(a: seq<byte>, b: seq<byte>)
    ensures Before(a + b) == if DETACH in a then Before(a) else a + Before(b)
    decreases |a|
  {
    if a == [] {
      assert a + b == b;
    } else if a[0] != DETACH {
      assert (a + b)[1..] == a[1..] + b;
      BeforeConcat(a[1..], b);
    }
  }

  // What reaches the process when the terminal hands out `chunks` and detaching is
  // possible during the reads marked in `armed`.
  function Delivered(chunks: seq<seq<byte>>, armed: seq<bool>): seq<byte>
    requires |armed| == |chunks|
  {
    if chunks == [] then []
    else if armed[0] && DETACH in chunks[0] then Before(chunks[0])
    else chunks[0] + Delivered(chunks[1..], armed[1..])
  }

  // With detaching possible throughout, chunking does not matter.
  lemma {:induction false} DeliveredIsPrefix(chunks: seq<seq<byte>>, armed: seq<bool>)
    requires |armed| == |chunks| && forall i :: 0 <= i < |armed| ==> armed[i]
    ensures Delivered(chunks, armed) == Before(Flatten(chunks))
  {
    if chunks != [] {
      BeforeConcat(chunks[0], Flatten(chunks[1..]));
      DeliveredIsPrefix(chunks[1..], armed[1..]);
    }
  }

  // If detaching becomes possible with the k-th read, earlier keys pass unfiltered.
  lemma {:induction false} DeliveredWhenArmedLate(chunks: seq<seq<byte>>, armed: seq<bool>, k: nat)
    requires |armed| == |chunks| && k <= |chunks|
    requires forall i :: 0 <= i < |armed| ==> (armed[i] <==> i >= k)
    ensures Delivered(chunks, armed) == Flatten(chunks[..k]) + Before(Flatten(chunks[k..]))
  {
    if k == 0 {
      DeliveredIsPrefix(chunks, armed);
      assert chunks[..0] == [] && chunks[0..] == chunks;
    } else {
      DeliveredWhenArmedLate(chunks[1..], armed[1..], k - 1);
      assert chunks[..k][1..] == chunks[1..][..k - 1] && chunks[k..] == chunks[1..][k - 1..];
    }
  }

  // The data of the messages before the end-of-input message.
  function Data(messages: seq<Input>): seq<byte> {
    if messages == [] || messages[0].StdinEof? then [] else messages[0].data + Data(messages[1..])
  }

  lemma {:induction false} DataAppend(messages: seq<Input>, m: Input)
    requires forall i :: 0 <= i < |messages| ==> messages[i].Stdin?
    ensures Data(messages + [m]) == Data(messages) + if m.Stdin? then m.data else []
  {
    if messages == [] {
      assert messages + [m] == [m];
    } else {
      assert (messages + [m])[1..] == messages[1..] + [m];
      DataAppend(messages[1..], m);
    }
  }

  lemma DeliveredStep(chunks: seq<seq<byte>>, armed: seq<bool>, i: nat)
    requires |armed| == |chunks| && i < |chunks|
    ensures Delivered(chunks[i..], armed[i..]) ==
            if armed[i] && DETACH in chunks[i] then Before(chunks[i])
            else chunks[i] + Delivered(chunks[i + 1..], armed[i + 1..])
  {
    assert chunks[i..][1..] == chunks[i + 1..] && armed[i..][1..] == armed[i + 1..];
  }

  // The client's input thread. A read of no bytes is the end of input, so chunks are not
  // empty.
  method ClientInput(chunks: seq<seq<byte>>, armed: seq<bool>) returns (messages: seq<Input>, detached: bool)
    requires |armed| == |chunks| && forall i :: 0 <= i < |chunks| ==> chunks[i] != []
    ensures Data(messages) == Delivered(chunks, armed)
    ensures detached <==> exists i :: 0 <= i < |chunks| && armed[i] && DETACH in chunks[i]
    ensures !detached ==> messages != [] && messages[|messages| - 1].StdinEof?
    ensures forall i :: 0 <= i < |messages| && messages[i].Stdin? ==> messages[i].data != []
  {
    messages, detached := [], false;
    var i := 0;
    while i < |chunks|
      invariant 0 <= i <= |chunks|
      invariant forall j :: 0 <= j < |messages| ==> messages[j].Stdin? && messages[j].data != []
      invariant Delivered(chunks, armed) == Data(messages) + Delivered(chunks[i..], armed[i..])
      invariant forall j :: 0 <= j < i ==> !(armed[j] && DETACH in chunks[j])
    {
      DeliveredStep(chunks, armed, i);
      var detachAt := armed[i] && DETACH in chunks[i];
      var dataEnd := |chunks[i]|;
      if detachAt {
        dataEnd := Position(chunks[i]);
      }
      assert chunks[i][..|chunks[i]|] == chunks[i];
      if dataEnd > 0 {
        DataAppend(messages, Stdin(chunks[i][..dataEnd]));
        messages := messages + [Stdin(chunks[i][..dataEnd])];
      }
      if detachAt {
        return messages, true;
      }
      i := i + 1;
    }
    DataAppend(messages, StdinEof);
    messages := messages + [StdinEof];
  }

  method Position(bytes: seq<byte>) returns (at: nat)
    requires DETACH in bytes
    ensures at < |bytes| && bytes[at] == DETACH && bytes[..at] == Before(bytes)
  {
    BeforePosition(bytes);
    at := 0;
    while bytes[at] != DETACH
      invariant 0 <= at <= |Before(bytes)|
      decreases |bytes| - at
    {
      at := at + 1;
    }
  }

  // The daemon's `relay_login_input`.
  method DaemonInput(messages: seq<Input>) returns (written: seq<byte>)
    ensures written == Data(messages)
  {
    written := [];
    var i := 0;
    while i < |messages|
      invariant 0 <= i <= |messages|
      invariant Data(messages) == written + Data(messages[i..])
    {
      assert messages[i..][1..] == messages[i + 1..];
      match messages[i] {
        case Stdin(data) => written := written + data;
        case StdinEof => return;
      }
      i := i + 1;
    }
  }

  // `read_stream`: what is reported chunk by chunk is what is returned.
  method ReadStream(pieces: seq<seq<byte>>) returns (output: seq<byte>, events: seq<seq<byte>>)
    ensures output == Flatten(events) && events <= pieces
    ensures |events| < |pieces| ==> pieces[|events|] == []
    ensures forall i :: 0 <= i < |events| ==> events[i] != []
  {
    output, events := [], [];
    var i := 0;
    while i < |pieces|
      invariant 0 <= i <= |pieces| && events == pieces[..i] && output == Flatten(events)
      invariant forall j :: 0 <= j < i ==> pieces[j] != []
    {
      if pieces[i] == [] {
        break;
      }
      FlattenAppend(events, pieces[i]);
      output := output + pieces[i];
      events := events + [pieces[i]];
      i := i + 1;
    }
  }

  lemma {:induction false} FlattenAppend(chunks: seq<seq<byte>>, c: seq<byte>)
    ensures Flatten(chunks + [c]) == Flatten(chunks) + c
  {
    if chunks == [] {
      assert chunks + [c] == [c];
    } else {
      assert (chunks + [c])[1..] == chunks[1..] + [c];
      FlattenAppend(chunks[1..], c);
    }
  }
}
