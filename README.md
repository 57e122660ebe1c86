# Fatigue monitor: the component's stateful core

The `FatigueMonitor` React component streams webcam frames to a remote
fatigue analyzer over a WebSocket and shows what the analyzer answers. Every
two seconds its timer captures a frame. The frame is drawn on a canvas,
encoded as a JPEG blob and read as a data URL. The `data:` prefix is
removed, and the frame is sent with a fixed driver id. Each inbound message
sets the displayed status. When it carries an image, the message also
replaces the "drowsy snapshot". Unmounting clears the timer and closes the
socket.

The model keeps that core and treats the browser APIs as inputs:

- `wrappers.dfy`, module `Wrappers`: `Option`, where `None` stands for
  JavaScript's `undefined`.
- `json.dfy`, module `Json`: parsed JSON values, JavaScript truthiness on
  them, and the `||` operator.
- `data_url.dfy`, module `DataUrl`: `split(',')` and its inverse `join`.
  It also holds the `split(',')[1]` prefix removal (`StripPrefix`), the
  `data:image/jpeg;base64,` URI the handler builds (`ToDataUri`), and a
  reader for the data URL syntax of section 3 of RFC 2397 (`Parse`). The
  base64 alphabet of section 4 of RFC 4648 (`IsBase64`) links them.
- `fatigue_monitor.dfy`, module `FatigueMonitor`: the inbound message and
  the outbound payload, the status default, the snapshot update, the tick's
  send guard and the effect of `ws.close()` on `readyState`. The class
  `Monitor` holds the component's state. Its fields are `status`,
  `drowsyImage`, `socket` (the `readyState` of `ws.current`, or `None` while
  the ref is null), `intervalRunning` and the `sent` log. A ghost field
  `received` records the messages handled. `Monitor.Valid()` ties the
  display to `received` and requires every sent payload to carry driver
  12345.

Two methods, `Monitor.ConnectionOpened` and `Monitor.ConnectionClosed`,
stand for browser events the component does not handle. They are there so
that `readyState` can change between calls.

Points where the model follows the code rather than a plain reading of it:

- `split(',')[1]` is the text between the first comma and the *next* comma,
  not everything after the first comma (`StripPrefixAt`). The two agree for
  the data URLs `FileReader` produces, whose base64 data has no comma
  (`StripPrefixOfDataUrl`, `FramePayloadCarriesData`).
- With no comma, `split(',')[1]` is `undefined`. `JSON.stringify` then leaves
  `image_base64` out of the message (`Payload.imageBase64 == None`).
- `data.status || 'Unknown'` keeps any truthy status, including a non-zero
  number, `true` or an object. It replaces `null`, `false`, `0`, `""` and a
  missing status. The displayed status is therefore a JSON value
  (`Json.Value`), not a string.
- Every frame is sent as driver 12345: the component has no notion of which
  driver is being monitored.

## Model

| member | source | states |
|---|---|---|
| `Json.Or` | src/components/FatigueMonitor.jsx:24 | JavaScript's `or` yields its left operand when that is present and truthy, and otherwise its right operand; it is truthy whenever the right operand is |
| `FatigueMonitor.StatusOrDefault` | src/components/FatigueMonitor.jsx:24 | the shown status is always truthy, and is either `'Unknown'` or the message's own status |
| `FatigueMonitor.StatusOrDefaultCases` | src/components/FatigueMonitor.jsx:24 | a non-empty string status is shown as is and an empty one as `'Unknown'`; the result is `'Unknown'` exactly when the status is missing or falsy or is itself `'Unknown'`; any truthy status is kept |
| `FatigueMonitor.SnapshotIsLastImage` | src/components/FatigueMonitor.jsx:25-27 | after any run of messages the snapshot is the data URI of the last non-empty image received, and absent if none arrived: it is only replaced, never appended to or cleared |
| `FatigueMonitor.LastImageAppend` | src/components/FatigueMonitor.jsx:25-27 | later messages change the last image only if one of them has an image |
| `FatigueMonitor.SnapshotPersists` | src/components/FatigueMonitor.jsx:25-27 | once a snapshot is shown, every later state still has one, and it is a base64 `image/jpeg` data URL |
| `FatigueMonitor.AfterOneMore` | src/components/FatigueMonitor.jsx:22-28 | one more message makes the status its defaulted status and the snapshot its image's URI, or the previous snapshot when it has no image |
| `FatigueMonitor.ImageThenNoImage` | src/components/FatigueMonitor.jsx:22-28 | after a message with an image and then one without, the status follows the second and the snapshot stays the first's URI |
| `FatigueMonitor.DrowsyThenNormal` | src/components/FatigueMonitor.jsx:22-28 | a drowsy message with image `Zm9v` followed by a normal one without an image shows status `normal` and snapshot `data:image/jpeg;base64,Zm9v` |
| `DataUrl.ToDataUri` | src/components/FatigueMonitor.jsx:26 | the built URI reads, under RFC 2397 section 3, as media type `image/jpeg`, base64, with exactly the received text as data |
| `DataUrl.ToDataUriInjective` | src/components/FatigueMonitor.jsx:26 | different images give different URIs |
| `DataUrl.Split` | src/components/FatigueMonitor.jsx:55 | `split(',')` gives at least one field and no field contains a comma |
| `DataUrl.JoinSplit` | src/components/FatigueMonitor.jsx:55 | joining the fields of `split(',')` with commas gives the string back |
| `DataUrl.SplitNoComma` | src/components/FatigueMonitor.jsx:55 | a string without a comma splits into itself alone |
| `DataUrl.SplitSingleIff` | src/components/FatigueMonitor.jsx:55 | `split(',')` gives one field exactly when there is no comma |
| `DataUrl.SplitAtFirstComma` | src/components/FatigueMonitor.jsx:55 | the first field ends at the first comma and the rest are the fields of what follows |
| `DataUrl.StripPrefix` | src/components/FatigueMonitor.jsx:55 | `split(',')[1]` is `undefined` exactly when there is no comma, and otherwise holds no comma |
| `DataUrl.StripPrefixAt` | src/components/FatigueMonitor.jsx:55 | `split(',')[1]` is the text between the first comma and the next one (or the end) |
| `DataUrl.StripPrefixOfDataUrl` | src/components/FatigueMonitor.jsx:53-55 | for any RFC 2397 data URL whose data has no comma, prefix removal yields exactly the data |
| `DataUrl.StripPrefixRoundTrip` | src/components/FatigueMonitor.jsx:55 | removing the prefix from the URI built at line 26 for a comma-free body gives the body back |
| `DataUrl.Base64HasNoComma` | src/components/FatigueMonitor.jsx:55 | base64 text (RFC 4648 section 4) never contains a comma |
| `DataUrl.Base64RoundTrip` | src/components/FatigueMonitor.jsx:55 | for base64 bodies, prefix removal inverts the URI built at line 26 |
| `FatigueMonitor.FramePayload` | src/components/FatigueMonitor.jsx:55-60 | every outbound payload has `driver_id` 12345; its `image_base64` is absent exactly when the data URL has no comma, and never contains a comma |
| `FatigueMonitor.FramePayloadCarriesData` | src/components/FatigueMonitor.jsx:53-60 | a frame read as a data URL with base64 data is sent with exactly that data |
| `FatigueMonitor.Close` | src/components/FatigueMonitor.jsx:37 | after `ws.close()` the socket is neither open nor connecting; a missing socket stays missing and a closed one stays closed |
| `FatigueMonitor.CloseIsFinal` | src/components/FatigueMonitor.jsx:35-38 | a second close changes nothing, and no tick can send on a closed socket |
| `FatigueMonitor.Monitor.constructor` | src/components/FatigueMonitor.jsx:5-9 | initially the status is `'Waiting...'`, there is no snapshot, no socket, no interval, and nothing has been sent |
| `FatigueMonitor.Monitor.Mount` | src/components/FatigueMonitor.jsx:19-33 | the effect creates a connecting socket and starts the interval, and changes nothing else |
| `FatigueMonitor.Monitor.OnMessage` | src/components/FatigueMonitor.jsx:22-28 | the status becomes the defaulted message status; the snapshot becomes the message's data URI when it has an image and is otherwise unchanged; the log, socket and timer are untouched; messages arrive only while the socket is OPEN |
| `FatigueMonitor.Monitor.Tick` | src/components/FatigueMonitor.jsx:41-66 | a tick sends exactly one payload, the frame's, when video and canvas exist, a blob was produced and the socket is OPEN, and sends nothing otherwise |
| `FatigueMonitor.Monitor.Cleanup` | src/components/FatigueMonitor.jsx:35-38 | cleanup stops the interval and closes the socket if there is one; the display and the log are untouched |

## Left out

- Webcam acquisition with `getUserMedia` and attaching the stream (lines 13-17) is device I/O. The tick takes whether the video and canvas refs are set as inputs.
- Canvas sizing, `drawImage` and JPEG encoding with `toBlob` (lines 46-51, 65) are foreign pixel and codec work. The blob is an optional opaque input.
- `FileReader.readAsDataURL` (lines 53-54, 63) is a foreign call. Its result is an input string, and a failed read (a null `result`) is not modelled.
- The WebSocket connection to the fixed endpoint and the actual `send` (lines 20, 56) are network I/O. They are modelled as `readyState` plus a log of sent payloads.
- `JSON.parse` (line 23) is not modelled: the handler receives the parsed object. Text that does not parse, or that parses to `null`, makes the handler throw before it changes any state. Text that parses to a number, string or boolean is not modelled either.
- FatigueMonitor.Monitor.OnMessage: a truthy non-string `image_base64` is not modelled, because the template literal's stringification of numbers, booleans and objects is outside the model. `image_base64` is a string or absent, and JSON `null` is treated as absent (both are falsy).
- FatigueMonitor.Monitor.Tick: the tick is atomic, but in the source, the `toBlob` and `FileReader` callbacks run later. The socket is tested in the `toBlob` callback, so a socket that closes before `onloadend` still receives the `send`, which the browser drops.
- The timer's 2000 ms period (lines 31-33) is asynchronous scheduling. Ticks are explicit calls, allowed only while the interval is set.
- The JSX rendering (lines 68-82) is UI.
- Json.Value: a truthy array or object status (line 24) is kept only as `Composite`; its content, which the component would hand to React to render, is not modelled.
- DataUrl.Parse: the `data:` scheme is matched in lower case only (FileReader writes it so), and media-type parameters with quoted commas are not recognised.
