# qt-json-rpc peer engine, modelled in Dafny

This project models the JSON-RPC 2.0 peer engine of qt-json-rpc (and of its older
Phobos-RPC form) and proves properties of the model. It covers five parts:

- **Json** (`Json.dfy`): the parsed value the peer works on, one constructor per QVariant
  type it distinguishes (null, bool, int, uint, qlonglong, qulonglong, double, string,
  list, map), and `Other` for every remaining QVariant type. It also holds the shape
  checks for `params` (list, map or null) and `id` (string, int, qlonglong, qulonglong,
  double or null).
- **Errors** (`Errors.dfy`): the `ErrorCode` enum (0 and -32700, -32600, -32601, -32602,
  -32603, as in section 5.1 of the JSON-RPC 2.0 Specification). It also has the
  description table of `Error(code)`, the two-argument `Error(code, desc)` and the
  `{"jsonrpc":"2.0","error":{...}}` envelope.
- **ResponseHandlers** (`ResponseHandler.dfy`): the one-shot reply channel.
  - It has validating setters, `hasParams`, `resetId` and `resetParams`.
  - `response` and `error` are `Send`; a sequence of them is `SendAll`.
  - The QPointer to the peer is the boolean `linked`.
- **Peer** (`Peer.dfy`, the root `peer.cpp` with signals) and **LegacyPeer**
  (`LegacyPeer.dfy`, the older `src/peer.cpp`):
  - They classify a parsed message as a request, response or signal.
  - They validate it and emit events. Each emitted Qt signal becomes one `Event`
    in a returned sequence, in emission order.
  - `call` and `emitSignal` build the outgoing envelopes.
  - The two versions share `handleRequest`, `handleResponse` and `call`, whose code is the
    same in both files. Only `handleMessage` is defined twice.
- **Framing** (`Framing.dfy`): the `TcpHelper` framer.
  - A frame is a 16-bit big-endian length followed by the payload.
  - Frames are reassembled by the two-state loop of `onReadyRead`. This loop is given as
    a method and as a pair of mutually recursive functions, proved equal.
  - `onReadyMessage` writes frames and `onDisconnected` resets the state.

The main results:
- The classification order is fixed.
- Every list and scalar gets exactly one INVALID_REQUEST.
- A request is accepted exactly when `Peer.IsValidRequest` holds. This differs from
  section 4 of JSON-RPC 2.0 in two ways: the `jsonrpc` member is never looked at, and a
  null `params` is accepted (`Peer.VersionNotChecked`, `Peer.NullParamsAccepted`).
- At most one reply is sent per handler, and none for a notification.
- What `call`, `emitSignal`, `response` and `error` send is read back by the receiving
  peer as the same request, signal, result or error.
- Framing does not depend on chunking: any cut of the received bytes dispatches the same
  frames.
- Frames of at most 65535 bytes written by `onReadyMessage` are read back exactly. A
  longer payload gets a truncated 16-bit length header (tcphelper.cpp:81).

Points where the code behaves in a way a reader might not expect:
- A declared frame size of 0 dispatches an empty payload at once (tcphelper.cpp:104-110).
  See `Framing.ZeroSizeFrame`.
- A handler for a notification (no `id`) is not null until `response` or `error` is
  called, and those send nothing (responsehandler.cpp:117-121). The `isNull` comment
  (responsehandler.h:142-147) says it is false only when a reply can be sent. See
  `ResponseHandlers.NullMeansSilent`.
- `Error(INTERNAL_ERROR)` becomes `NO_ERROR` with an empty description, although the
  header comment promises a message for every standard code. See
  `Errors.InternalErrorCollapses`.

## Model

| member | source | states |
|---|---|---|
| Json.Wrap32 | peer.cpp:245 | The 32-bit result is congruent to the input modulo 2^32, and equals it when the input fits in an `int`. |
| Json.ToInt | peer.cpp:237-245 | The `code` of an error, of any of the three integer types, becomes an `int`: the value itself when it fits, otherwise the value truncated to 32 bits. |
| Errors.FromCode | error.cpp:14-32 | The four described codes keep their code and get a non-empty description. INTERNAL_ERROR and every unlisted code become NO_ERROR with an empty description. The code is kept exactly for the described codes and NO_ERROR. |
| Errors.Default | error.h:28-33 | A default-constructed `Error` has code NO_ERROR and an empty description. |
| Errors.FromCodeIdempotent | error.cpp:14-32 | Rebuilding an error from the code of `Error(c)` gives the same error. |
| Errors.DescriptionsDistinct | src/error-inl.h:28-40 | The four standard descriptions are pairwise different. |
| Errors.InternalErrorCollapses | src/error-inl.h:41-53 | `Error(INTERNAL_ERROR)` is `NO_ERROR` with an empty description, but `Error(INTERNAL_ERROR, desc)` keeps the code. |
| Errors.ToMap | error.cpp:46-60 | The envelope has exactly the keys `jsonrpc` ("2.0") and `error`. The error object has exactly `code` (as an int) and `message`. There is no `id` and no `data`. |
| Errors.ToMapRoundTrip | src/error-inl.h:61-75 | The code and message can be read back from the envelope unchanged. |
| ResponseHandlers.New | responsehandler.cpp:27-31 | A fresh handler has no id, null params and id, and an empty method. It is null exactly when it has no peer. |
| ResponseHandlers.IsNull | responsehandler.cpp:112-115 | True exactly when the handler has no peer to reply to. |
| ResponseHandlers.NullMeansSilent | responsehandler.h:142-147 | A null handler sends nothing. A handler that is not null sends a reply iff it has an id, so a notification's handler is not null yet silent. |
| ResponseHandlers.SetMethod | responsehandler.cpp:38-45 | Succeeds iff the name does not start with `rpc.`. On success only the method changes; on failure nothing changes. |
| ResponseHandlers.SetParams | responsehandler.cpp:64-74 | Succeeds iff the value is a list, a map or null. On success only params change; on failure nothing changes. |
| ResponseHandlers.ResetParams | responsehandler.cpp:76-79 | Afterwards `hasParams` is false. Nothing but params changes. |
| ResponseHandlers.HasParams | responsehandler.cpp:47-57 | True iff params is a non-empty list or a non-empty map. |
| ResponseHandlers.SetId | responsehandler.cpp:91-105 | Succeeds iff the id is a string, an int, a qlonglong, a qulonglong, a double or null; a uint is refused. On success it stores the id and sets `hasId`. On failure neither the id nor `hasId` changes. |
| ResponseHandlers.ResetId | responsehandler.cpp:107-110 | Clears `hasId` only; the stored id stays. |
| ResponseHandlers.Envelope | responsehandler.cpp:125-150 | A result reply is exactly `{jsonrpc:"2.0", result, id}`. An error reply is the `Error` envelope plus `id`, and its error can be read back. |
| ResponseHandlers.Send | responsehandler.cpp:117-155 | Sends one envelope iff the handler is linked and has an id. The handler is null afterwards in every case. No other field changes. |
| ResponseHandlers.SendAll | responsehandler.h:142-162 | Over any sequence of `response`/`error` calls, at most one reply reaches the peer. One does iff the sequence is non-empty and the handler is linked with an id. That reply is the first call's envelope. After any call the handler is null. |
| ResponseHandlers.NotificationNeverAnswered | responsehandler.h:122-129 | Without an id, no sequence of `response`/`error` calls sends anything. |
| ResponseHandlers.ResetIdSilences | responsehandler.h:136-140 | After `resetId`, a reply sends nothing and leaves the handler null. |
| ResponseHandlers.SecondReplyDropped | responsehandler.cpp:133-135 | Of two replies in a row, only the first is sent. |
| Peer.IsRequestMessage | peer.cpp:13-39 | A map is a request iff it has `method`; a list iff it is non-empty; any other value is not. |
| Peer.IsResponseMessage | peer.cpp:41-68 | A map is a response iff it has `result` or `error`; a list iff it is non-empty; any other value is not. |
| Peer.IsSignalMessage | peer.cpp:70-96 | A map is a signal iff it has `signal`; a list iff it is non-empty; any other value is not. |
| Peer.NonObjectOverloads | peer.cpp:21-37 | For anything but a map, the three tests agree: a non-empty list passes all three, and an empty list or a scalar passes none. |
| Peer.Classify | peer.cpp:13-96 | For a map: a request iff it has `method`; otherwise a response iff it has `result` or `error`; otherwise a signal iff it has `signal`. A list is a request iff it is non-empty and is otherwise unclassified. Scalars are unclassified. |
| Peer.HandleMessage | peer.cpp:103-121 | A parse failure gives exactly the PARSE_ERROR reply. Otherwise the message goes to the handler of its class, or gets one INVALID_REQUEST reply. No call or signal is ever sent. |
| Peer.ParseFailureReply | peer.cpp:108-111 | A parse failure emits one reply, with code -32700 and its description, and no `id`. |
| Peer.NonObjectRejected | peer.cpp:113-128 | Every list and every scalar gets exactly one INVALID_REQUEST (-32600) reply. |
| Peer.HandleRequest | peer.cpp:123-169 | An invalid request gets exactly one INVALID_REQUEST. A request is invalid when it is not an object, its method is missing, not a string or under `rpc.`, its params are not a list, map or null, or its id is not a string, int, qlonglong, qulonglong, double or null. A valid one gets exactly one `readyRequest` whose handler is linked and copies method, params and id; `hasId` holds iff the `id` key is present. |
| Peer.RequestObjectHandled | peer.cpp:137-168 | For an object with `method`, one event: `readyRequest` iff the request is valid, else INVALID_REQUEST. The handler's `hasId` holds iff the key `id` is present, even with a null value. |
| Peer.ResponseEvents | peer.cpp:226-254 | One response object yields `readyResponse(result, id)` if it has `result`. Otherwise, if its `error` has an integer code and a string message, it yields `requestError(code, message, data-or-null, id-or-null)`. Otherwise it yields nothing. |
| Peer.BatchEvents | peer.cpp:226-255 | A batch yields at most one event per element, and only response or error events. A batch of one yields exactly that element's events; with `BatchEventsAppend` this gives the element-by-element, in-order meaning. |
| Peer.BatchEventsAppend | peer.cpp:217-226 | The events of a concatenated batch are those of its parts, in order. |
| Peer.BatchEventsSilent | peer.cpp:237-243 | A batch with no result and no well-formed error is skipped without any event. |
| Peer.HandleResponse | peer.cpp:215-256 | A map yields exactly its own response events. A list yields exactly the events of its elements, in order. Anything else yields nothing. Only response and error events come out. |
| Peer.HandleSignal | peer.cpp:258-292 | A map with a string `signal` and params absent, list, map or null yields exactly `readySignal(name, params-or-null)`. Anything else yields exactly one INVALID_REQUEST. |
| Peer.VersionNotChecked | peer.cpp:123-169 | For a message with `method`, changing or removing its `jsonrpc` member does not change what the peer emits. |
| Peer.NullParamsAccepted | responsehandler.cpp:64-74 | A request whose `params` is null is accepted, with null params and no id. |
| Peer.Call | peer.cpp:176-203 | Fails with no event iff the method is under `rpc.`, the params are not list/map/null, or the id is not a string, int, qlonglong, qulonglong, double or null. Otherwise it emits one request object with exactly `jsonrpc` ("2.0"), `method`, `id`, and `params` iff the params are not null. |
| Peer.UIntRefused | peer.cpp:182-187 | `call` refuses a `uint` id, and an error whose `code` is a `uint` yields no event (peer.cpp:237-243). |
| Peer.CallRoundTrip | peer.cpp:137-203 | What `call` sends is accepted by the receiving peer as one request, with the same method, params and id, that expects a reply. |
| Peer.EmitSignal | peer.cpp:205-213 | Always one signal object with exactly `jsonrpc` ("2.0-EXTENSION"), `signal` and `params`. |
| Peer.SignalRoundTrip | peer.cpp:258-292 | What `emitSignal` sends is reported by the receiving peer as the same signal with the same params. |
| Peer.ReplyRoundTrip | peer.cpp:226-253 | What a handler sends is reported by the receiving peer as `readyResponse(result, id)` or `requestError(code, message, null, id)`, with the handler's id. |
| LegacyPeer.HandleMessage | src/peer.cpp:91-109 | A parse failure gives exactly the PARSE_ERROR reply. The older peer never reports a signal and never originates a call. |
| LegacyPeer.AgreesExceptSignals | src/peer.cpp:103-108 | It behaves exactly like the newer peer, except that messages the newer one treats as signals get one INVALID_REQUEST. |
| LegacyPeer.UnclassifiedObjectRejected | src/peer.cpp:107-108 | An object without `method`, `result` and `error` gets one INVALID_REQUEST, even when it names a `signal`. |
| LegacyPeer.ParseFailureReply | src/peer.cpp:98-101 | A parse failure emits one PARSE_ERROR reply without `id`. |
| LegacyPeer.NonObjectRejected | src/peer.cpp:103-116 | Lists and scalars get one INVALID_REQUEST. A non-empty list is routed to `handleRequest`. |
| LegacyPeer.RequestObjectHandled | src/peer.cpp:111-157 | The same accept/reject rules and field copying as the newer peer, including `hasId` iff the `id` key is present. |
| LegacyPeer.ResponseObjectHandled | src/peer.cpp:195-236 | A response object yields its result, or its well-formed error, with its id. A malformed error yields nothing. |
| LegacyPeer.CallRoundTrip | src/peer.cpp:165-193 | What `call` sends is accepted by the older peer as the same request. |
| LegacyPeer.SignalRefused | src/peer.cpp:103-108 | A signal envelope from the newer peer gets one INVALID_REQUEST from the older one. |
| Framing.DecodeSize | tcphelper.cpp:97-98 | The size read is big-endian: the first byte is the high byte and the second the low byte. |
| Framing.EncodeSize | tcphelper.cpp:79-83 | The two big-endian bytes written for a size decode back to that size. |
| Framing.AwaitSize | tcphelper.cpp:94-102 | The size state always ends settled: either no size is known and fewer than 2 bytes are buffered, or the awaited size exceeds the buffer. It never grows the buffer. |
| Framing.AwaitContent | tcphelper.cpp:104-111 | The content state always ends settled as well, and never grows the buffer. |
| Framing.Receive | tcphelper.cpp:87-112 | After `onReadyRead` the framer is settled, whatever state it started in. |
| Framing.OnReadyRead | tcphelper.cpp:87-112 | The explicit two-state loop terminates and computes exactly the functional definition: the same frames and the same settled state. |
| Framing.Disconnect | tcphelper.cpp:114-123 | The buffer is empty and the size is 0. |
| Framing.Frame | tcphelper.cpp:77-85 | The output is 2 header bytes plus the payload. The header decodes to the payload length modulo 65536, the `quint16` truncation. |
| Framing.ReceiveAppend | tcphelper.cpp:87-112 | Two chunks received in turn give the same frames, in order, and the same state as their concatenation received at once. |
| Framing.ChunkingIndependent | tcphelper.cpp:87-112 | From a settled state, any chunking of the same bytes dispatches the same frames and ends in the same state. |
| Framing.FrameRoundTrip | tcphelper.cpp:77-112 | A payload of at most 65535 bytes, framed and read by a fresh framer, is dispatched exactly once and leaves the framer fresh. |
| Framing.StreamRoundTrip | tcphelper.cpp:104-111 | Frames written back to back are dispatched one by one, in order, without loss. |
| Framing.StreamAnyChunking | tcphelper.cpp:89-110 | However a stream of written frames is cut into chunks, exactly the written payloads are dispatched, in order. |
| Framing.ZeroSizeFrame | tcphelper.cpp:104-110 | A declared size of 0 dispatches an empty payload within the same call. |

## Left out

- JSON text parsing and serialisation are left out because they are foreign libraries
  (`QtJson::Json`, `QJson::Parser`/`Serializer`).
  - The input of `handleMessage` is the parser's result as an `Option<Value>`; `None` means
    the parse failed.
  - Outgoing messages are `Value` envelopes, not bytes.
  - The round-trip lemmas therefore compose at the value level. They assume the codec
    gives back the same value, including the same numeric type.
- Qt signal/slot delivery, `QSharedPointer` ownership, and `QPointer` auto-nulling when a
  peer is destroyed are not modelled. Emissions are a returned event sequence, and the peer
  link is the boolean `linked`. `Peer::reply` is the `ResponseMessage` event itself.
- Socket I/O in `TcpHelper` is not modelled: `setSocket`, `readAll`, `write`,
  `deleteLater`, the peer wiring, and `TcpHelper::call` forwarding to the peer. Received
  chunks are inputs, and dispatched frames are the output.
- HTTP transport (`httphelper.*`, `src/httphelper.*`) and the GUI examples are not
  modelled, because they contain no protocol logic of the core.
- QVariant types other than the ten tags are one opaque `Other` tag, identified only by a
  type number; every shape check refuses it, as the source does. Their contents are not
  modelled.
- Doubles are an opaque tag with no arithmetic. QVariant's `isNull` is modelled as the
  null tag only: a null `QString` inside a string-typed QVariant is not distinguished
  from an empty one.
- `QVariant::toInt` is modelled only on the three integer types, which is where the source
  calls it. It is 32-bit two's-complement truncation.
- The getters (`method()`, `params()`, `id()`, `hasId()`) are the record's fields.
