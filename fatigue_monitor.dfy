/** The stateful core of the FatigueMonitor component: what its inbound
    message handler, its periodic capture-and-send tick and its effect
    cleanup do to the component's state, with the webcam, canvas, image
    codec, FileReader, WebSocket transport and timer taken as inputs. */
module FatigueMonitor {
  import opened Wrappers
  import opened Json
  import opened DataUrl

  /** The status shown before any message has arrived (line 7). */
  const InitialStatus: Value := Str("Waiting...")

  /** The status shown when a message carries no truthy status (line 24). */
  const UnknownStatus: Value := Str("Unknown")

  /** The driver every outbound frame is attributed to (line 59). */
  const DriverId: int := 12345

  /** An inbound message after `JSON.parse`: its `status` and
      `image_base64` properties, `None` where the property is absent
      (a JSON `null` image reads as `None` too: both are falsy). */
  datatype Message = Message(status: Option<Value>, imageBase64: Option<string>)

  /** An outbound message, `{ image_base64, driver_id }`. `imageBase64` is
      `None` when `split(',')[1]` was `undefined`, in which case
      `JSON.stringify` leaves the property out. */
  datatype Payload = Payload(imageBase64: Option<string>, driverId: int)

  /** The JPEG bytes `canvas.toBlob` produced; only their presence matters. */
  type Blob = seq<bv8>

  /** `WebSocket.readyState`. */
  datatype ReadyState = Connecting | Open | Closing | Closed

  // ---------------------------------------------------------------------
  // Inbound messages

  /** `data.status || 'Unknown'` (line 24). */
  function StatusOrDefault(status: Option<Value>): (shown: Value)
    ensures Truthy(shown)
    ensures shown == UnknownStatus || status == Some(shown)
  {
    Or(status, UnknownStatus)
  }

  /** For a string status: the status itself when non-empty, `Unknown`
      for the empty string; for any status, `Unknown` exactly when it is
      absent or falsy or is itself the string `Unknown`. */
  lemma StatusOrDefaultCases(status: Option<Value>)
    ensures forall s :: status == Some(Str(s)) ==>
      StatusOrDefault(status) == if s != "" then Str(s) else UnknownStatus
    ensures StatusOrDefault(status) == UnknownStatus <==>
      !PresentAndTruthy(status) || status == Some(UnknownStatus)
    ensures PresentAndTruthy(status) ==> StatusOrDefault(status) == status.value
  {
  }

  /** Whether `if (data.image_base64)` takes its branch (line 25). */
  predicate HasImage(image: Option<string>) {
    image.Some? && image.value != ""
  }

  /** The snapshot after one message (lines 25-27): the data URI of its
      image when it has one, the previous snapshot otherwise. */
  function NextSnapshot(previous: Option<string>, image: Option<string>): Option<string> {
    if HasImage(image) then Some(ToDataUri(image.value)) else previous
  }

  /** The status after a run of messages, starting from the initial one:
      only the last message counts. */
  function StatusAfter(received: seq<Message>): Value {
    if received == [] then InitialStatus
    else StatusOrDefault(received[|received| - 1].status)
  }

  /** The snapshot after a run of messages, starting from none. */
  function SnapshotAfter(received: seq<Message>): Option<string> {
    if received == [] then None
    else NextSnapshot(SnapshotAfter(received[..|received| - 1]), received[|received| - 1].imageBase64)
  }

  /** The image of the last message in `received` that has one. */
  function LastImage(received: seq<Message>): (image: Option<string>)
    ensures image.Some? ==> image.value != ""
  {
    if received == [] then None
    else if HasImage(received[|received| - 1].imageBase64) then received[|received| - 1].imageBase64
    else LastImage(received[..|received| - 1])
  }

  /** The snapshot is never appended to or cleared: it is the data URI of
      the last image received, and absent until an image has arrived. */
  lemma {:induction false} SnapshotIsLastImage(received: seq<Message>)
    ensures SnapshotAfter(received) ==
      if LastImage(received).Some? then Some(ToDataUri(LastImage(received).value)) else None
  {
    if received != [] {
      SnapshotIsLastImage(received[..|received| - 1]);
    }
  }

  /** Later messages only replace the last image, never remove it. */
  lemma {:induction false} LastImageAppend(earlier: seq<Message>, later: seq<Message>)
    ensures LastImage(earlier + later) ==
      if LastImage(later).Some? then LastImage(later) else LastImage(earlier)
  {
    if later != [] {
      var all := earlier + later;
      assert all[|all| - 1] == later[|later| - 1];
      assert all[..|all| - 1] == earlier + later[..|later| - 1];
      LastImageAppend(earlier, later[..|later| - 1]);
    } else {
      assert earlier + later == earlier;
    }
  }

  /** Once a snapshot is shown, no later message takes it away, and it is
      always a base64 `image/jpeg` data URL. */
  lemma SnapshotPersists(earlier: seq<Message>, later: seq<Message>)
    requires SnapshotAfter(earlier).Some?
    ensures SnapshotAfter(earlier + later).Some?
    ensures Parse(SnapshotAfter(earlier + later).value).Some?
    ensures Parse(SnapshotAfter(earlier + later).value).value.mediaType == "image/jpeg"
    ensures Parse(SnapshotAfter(earlier + later).value).value.base64
  {
    SnapshotIsLastImage(earlier);
    SnapshotIsLastImage(earlier + later);
    LastImageAppend(earlier, later);
  }

  /** One more message: the status is its defaulted status, the snapshot
      its image's URI or the one before. */
  lemma AfterOneMore(received: seq<Message>, msg: Message)
    ensures StatusAfter(received + [msg]) == StatusOrDefault(msg.status)
    ensures SnapshotAfter(received + [msg]) == NextSnapshot(SnapshotAfter(received), msg.imageBase64)
  {
    assert (received + [msg])[..|received|] == received;
  }

  /** A message with an image, then one without: the status follows the
      second, the snapshot stays that of the first. */
  lemma ImageThenNoImage(first: Message, second: Message)
    requires HasImage(first.imageBase64) && !HasImage(second.imageBase64)
    ensures StatusAfter([first, second]) == StatusOrDefault(second.status)
    ensures SnapshotAfter([first, second]) == Some(ToDataUri(first.imageBase64.value))
  {
    AfterOneMore([], first);
    assert [] + [first] == [first];
    AfterOneMore([first], second);
    assert [first] + [second] == [first, second];
  }

  /** The drowsy-then-normal run: status `normal`, snapshot of `Zm9v`. */
  lemma DrowsyThenNormal()
    ensures var received := [Message(Some(Str("drowsy")), Some("Zm9v")), Message(Some(Str("normal")), None)];
      StatusAfter(received) == Str("normal")
      && SnapshotAfter(received) == Some("data:image/jpeg;base64,Zm9v")
  {
    ImageThenNoImage(Message(Some(Str("drowsy")), Some("Zm9v")), Message(Some(Str("normal")), None));
    SampleUri();
  }

  /** The URI line 26 builds for the image `Zm9v`, spelled out. */
  lemma SampleUri()
    ensures ToDataUri("Zm9v") == "data:image/jpeg;base64,Zm9v"
  {
  }

  // ---------------------------------------------------------------------
  // Outbound frames

  /** The guard of a tick (lines 44 and 52): a video element and a canvas
      exist, `toBlob` produced a blob, and the socket exists and is OPEN. */
  predicate SendGate(hasVideo: bool, hasCanvas: bool, blob: Option<Blob>, socket: Option<ReadyState>) {
    hasVideo && hasCanvas && blob.Some? && socket == Some(Open)
  }

  /** The message sent for a frame whose `FileReader` result is `dataUrl`
      (lines 55-60): the prefix-stripped text and the fixed driver id. */
  function FramePayload(dataUrl: string): (p: Payload)
    ensures p.driverId == DriverId
    ensures p.imageBase64.None? <==> Comma !in dataUrl
    ensures p.imageBase64.Some? ==> Comma !in p.imageBase64.value
  {
    Payload(StripPrefix(dataUrl), DriverId)
  }

  /** A frame read as a base64 data URL is sent with exactly its base64
      data, whatever media type the reader reported. */
  lemma FramePayloadCarriesData(dataUrl: string)
    requires Parse(dataUrl).Some? && IsBase64(Parse(dataUrl).value.data)
    ensures FramePayload(dataUrl).imageBase64 == Some(Parse(dataUrl).value.data)
  {
    Base64HasNoComma(Parse(dataUrl).value.data);
    StripPrefixOfDataUrl(dataUrl);
  }

  // ---------------------------------------------------------------------
  // The socket

  /** `ws.close()` as a change of `readyState`, skipped when `ws.current`
      is null (line 37): a connecting or open socket starts closing, a
      closing or closed one is left as it is. */
  function Close(socket: Option<ReadyState>): (after: Option<ReadyState>)
    ensures after != Some(Open) && after != Some(Connecting)
    ensures after.None? <==> socket.None?
    ensures socket == Some(Closed) ==> after == socket
  {
    match socket
    case None => None
    case Some(Connecting) => Some(Closing)
    case Some(Open) => Some(Closing)
    case Some(Closing) => Some(Closing)
    case Some(Closed) => Some(Closed)
  }

  /** A second cleanup changes the socket no further, and no tick can send
      on a socket that has been closed. */
  lemma CloseIsFinal(socket: Option<ReadyState>, hasVideo: bool, hasCanvas: bool, blob: Option<Blob>)
    ensures Close(Close(socket)) == Close(socket)
    ensures !SendGate(hasVideo, hasCanvas, blob, Close(socket))
  {
  }

  // ---------------------------------------------------------------------
  // The component

  /** The component's state: the two React state variables, `ws.current`
      (as its `readyState`, `None` while the ref is null), whether the
      interval is set, and the messages sent so far. `received` is the log
      of handled messages, kept to state what the display shows. */
  class Monitor {
    var status: Value
    var drowsyImage: Option<string>
    var socket: Option<ReadyState>
    var intervalRunning: bool
    var sent: seq<Payload>
    ghost var received: seq<Message>

    /** The display reflects the messages received, every sent frame is
        attributed to the fixed driver, and the interval only runs once a
        socket has been created. */
    ghost predicate Valid()
      reads this
    {
      status == StatusAfter(received)
      && drowsyImage == SnapshotAfter(received)
      && (forall i :: 0 <= i < |sent| ==> sent[i].driverId == DriverId)
      && (intervalRunning ==> socket.Some?)
    }

    /** The first render (lines 5-9): `Waiting...`, no snapshot, a null
        socket ref, no interval, nothing sent. */
    constructor ()
      ensures Valid()
      ensures status == InitialStatus && drowsyImage == None
      ensures socket == None && !intervalRunning && sent == [] && received == []
    {
      status := InitialStatus;
      drowsyImage := None;
      socket := None;
      intervalRunning := false;
      sent := [];
      received := [];
    }

    /** The effect body (lines 19-33): a new connecting socket in
        `ws.current` with the handler attached, and the interval set. The
        effect runs again only after its cleanup, so no interval is set. */
    method Mount()
      requires Valid() && !intervalRunning
      modifies this`socket, this`intervalRunning
      ensures Valid()
      ensures socket == Some(Connecting) && intervalRunning
    {
      socket := Some(Connecting);
      intervalRunning := true;
    }

    /** The browser completes the opening handshake. */
    method ConnectionOpened()
      requires Valid() && socket == Some(Connecting)
      modifies this`socket
      ensures Valid() && socket == Some(Open)
    {
      socket := Some(Open);
    }

    /** The browser finishes closing the socket, or the connection drops. */
    method ConnectionClosed()
      requires Valid() && socket.Some?
      modifies this`socket
      ensures Valid() && socket == Some(Closed)
    {
      socket := Some(Closed);
    }

    /** `ws.current.onmessage` (lines 22-28): sets the status, replaces the
        snapshot when the message has an image; nothing else changes. A
        WebSocket dispatches messages only while it is OPEN. */
    method OnMessage(msg: Message)
      requires Valid() && socket == Some(Open)
      modifies this`status, this`drowsyImage, this`received
      ensures Valid()
      ensures received == old(received) + [msg]
      ensures status == StatusOrDefault(msg.status)
      ensures drowsyImage == NextSnapshot(old(drowsyImage), msg.imageBase64)
    {
      status := StatusOrDefault(msg.status);
      if HasImage(msg.imageBase64) {
        drowsyImage := Some(ToDataUri(msg.imageBase64.value));
      }
      received := received + [msg];
      assert received[..|received| - 1] == old(received);
    }

    /** One firing of the interval, `captureAndSendFrame` (lines 41-66),
        with the video and canvas refs, the blob and the reader's data URL
        as inputs: at most one message is sent, exactly when the guard
        holds, and it is the frame's payload. */
    method Tick(hasVideo: bool, hasCanvas: bool, blob: Option<Blob>, dataUrl: string)
      returns (didSend: bool)
      requires Valid() && intervalRunning
      modifies this`sent
      ensures Valid()
      ensures didSend == SendGate(hasVideo, hasCanvas, blob, socket)
      ensures sent == if didSend then old(sent) + [FramePayload(dataUrl)] else old(sent)
    {
      didSend := false;
      if !hasVideo || !hasCanvas {
        return;
      }
      if blob.Some? && socket.Some? && socket.value == Open {
        var base64data := StripPrefix(dataUrl);
        sent := sent + [Payload(base64data, DriverId)];
        didSend := true;
      }
    }

    /** The effect cleanup (lines 35-38): clears the interval, then closes
        the socket if there is one; the display and the log are untouched. */
    method Cleanup()
      requires Valid()
      modifies this`intervalRunning, this`socket
      ensures Valid()
      ensures !intervalRunning && socket == Close(old(socket))
    {
      intervalRunning := false;
      if socket.Some? {
        socket := Close(socket);
      }
    }
  }
}
