/** The JSON-RPC 2.0 peer engine of peer.cpp: classification of a parsed
    message, validation of requests, responses and signals, and the
    outgoing call and signal envelopes. Qt signals become a returned
    sequence of events, in emission order. */
module Peer {
  import opened Json
  import opened Errors
  import opened ResponseHandlers

  /** One emitted Qt signal. */
  datatype Event =
    | RequestMessage(message: Value)      // readyRequestMessage: an outgoing call
    | ResponseMessage(message: Value)     // readyResponseMessage: an outgoing reply or error (`reply`)
    | SignalMessage(message: Value)       // readySignalMessage: an outgoing signal
    | ReadyRequest(handler: Handler)      // readyRequest: an accepted inbound request
    | ReadyResponse(result: Value, id: Value)
    | RequestError(code: int32, text: string, data: Value, id: Value)
    | ReadySignal(signal: string, params: Value)

  /** The events the peer reports about a message it received, as opposed
      to messages it wants sent. */
  predicate IsInbound(e: Event)
  {
    e.ReadyRequest? || e.ReadyResponse? || e.RequestError? || e.ReadySignal?
  }

  const ParseErrorReply: Event := ResponseMessage(ToMap(FromCode(PARSE_ERROR)))
  const InvalidRequestReply: Event := ResponseMessage(ToMap(FromCode(INVALID_REQUEST)))

  // The three overloads of each classification predicate, folded into one.

  predicate IsRequestMessage(v: Value)
  {
    match v
    case Map(m) => "method" in m
    case List(xs) => |xs| != 0
    case _ => false
  }

  predicate IsResponseMessage(v: Value)
  {
    match v
    case Map(m) => "result" in m || "error" in m
    case List(xs) => |xs| != 0
    case _ => false
  }

  predicate IsSignalMessage(v: Value)
  {
    match v
    case Map(m) => "signal" in m
    case List(xs) => |xs| != 0
    case _ => false
  }

  /** The list and scalar overloads: every non-empty list passes all three
      tests, and an empty list or a scalar passes none. */
  lemma NonObjectOverloads(v: Value)
    requires !v.Map?
    ensures IsRequestMessage(v) <==> v.List? && |v.items| > 0
    ensures IsResponseMessage(v) <==> IsRequestMessage(v)
    ensures IsSignalMessage(v) <==> IsRequestMessage(v)
  {
  }

  datatype Kind = RequestKind | ResponseKind | SignalKind | Unclassified

  /** The if/else-if chain of `handleMessage`: request first, then
      response, then signal. A map with several of the keys takes the
      first match; a non-empty list always counts as a request. */
  function Classify(v: Value): (k: Kind)
    ensures v.Map? ==> (k == RequestKind <==> "method" in v.fields)
    ensures v.Map? ==> (k == ResponseKind <==> "method" !in v.fields && ("result" in v.fields || "error" in v.fields))
    ensures v.Map? ==> (k == SignalKind <==> "method" !in v.fields && "result" !in v.fields
                                             && "error" !in v.fields && "signal" in v.fields)
    ensures v.List? ==> (k == RequestKind <==> |v.items| > 0) && (k == RequestKind || k == Unclassified)
    ensures !v.Map? && !v.List? ==> k == Unclassified
  {
    if IsRequestMessage(v) then RequestKind
    else if IsResponseMessage(v) then ResponseKind
    else if IsSignalMessage(v) then SignalKind
    else Unclassified
  }

  /** A request as this peer checks it: an object whose `method` is a
      String outside the `rpc.` namespace, whose `params`, if present, is a
      list, a map or null, and whose `id`, if present, is a String, a
      Number or Null. This is not quite section 4 of JSON-RPC 2.0: the
      `jsonrpc` member is never looked at, and a null `params` is
      accepted. */
  predicate IsValidRequest(v: Value)
  {
    && v.Map?
    && "method" in v.fields
    && v.fields["method"].String?
    && !("rpc." <= v.fields["method"].s)
    && ("params" in v.fields ==> IsParamsShape(v.fields["params"]))
    && ("id" in v.fields ==> IsIdShape(v.fields["id"]))
  }

  /** `handleRequest`: builds a handler bound to this peer through the
      validating setters, and rejects the message at the first failed
      check with one INVALID_REQUEST reply (without an id). */
  function HandleRequest(v: Value): (es: seq<Event>)
    ensures !IsValidRequest(v) ==> es == [InvalidRequestReply]
    ensures IsValidRequest(v) ==>
      es == [ReadyRequest(Handler(true, v.fields["method"].s, Get(v.fields, "params"),
                                  "id" in v.fields, Get(v.fields, "id")))]
  {
    if !v.Map? then [InvalidRequestReply]
    else if "method" !in v.fields then [InvalidRequestReply]
    else
      var m := v.fields;
      var h0 := New(true);
      if !m["method"].String? then [InvalidRequestReply]
      else
        var (methodOk, h1) := SetMethod(h0, m["method"].s);
        if !methodOk then [InvalidRequestReply]
        else
          var (paramsOk, h2) := if "params" in m then SetParams(h1, m["params"]) else (true, h1);
          if !paramsOk then [InvalidRequestReply]
          else
            var (idOk, h3) := if "id" in m then SetId(h2, m["id"]) else (true, h2);
            if !idOk then [InvalidRequestReply]
            else [ReadyRequest(h3)]
  }

  /** The `error` member of a response as the peer accepts it: an object
      with an integer `code` and a string `message` (JSON-RPC 2.0
      section 5.1). */
  predicate IsErrorObject(e: Value)
  {
    && e.Map?
    && "code" in e.fields && IsInteger(e.fields["code"])
    && "message" in e.fields && e.fields["message"].String?
  }

  /** The body of the `Q_FOREACH` in `handleResponse`: one element of a
      response batch yields at most one event. */
  function ResponseEvents(o: Value): (es: seq<Event>)
    ensures |es| <= 1
    ensures o.Map? && "result" in o.fields ==>
      es == [ReadyResponse(o.fields["result"], Get(o.fields, "id"))]
    ensures o.Map? && "result" !in o.fields && "error" in o.fields && IsErrorObject(o.fields["error"]) ==>
      var e := o.fields["error"].fields;
      es == [RequestError(ToInt(e["code"]), e["message"].s, Get(e, "data"), Get(o.fields, "id"))]
    ensures es == [] <==>
      !o.Map? || ("result" !in o.fields && ("error" !in o.fields || !IsErrorObject(o.fields["error"])))
  {
    if o.Map? then
      var m := o.fields;
      if "result" in m then [ReadyResponse(Get(m, "result"), Get(m, "id"))]
      else if "error" in m && Get(m, "error").Map? then
        var e := m["error"].fields;
        if "code" !in e || !IsInteger(Get(e, "code")) || "message" !in e || !Get(e, "message").String?
        then []
        else
          var data := if "data" in e then e["data"] else Null;
          var id := if "id" in m then m["id"] else Null;
          [RequestError(ToInt(e["code"]), e["message"].s, data, id)]
      else []
    else []
  }

  /** The loop of `handleResponse` over a batch, in input order. */
  function BatchEvents(objects: seq<Value>): (es: seq<Event>)
    ensures |es| <= |objects|
    ensures |objects| == 1 ==> es == ResponseEvents(objects[0])
    ensures forall i :: 0 <= i < |es| ==> es[i].ReadyResponse? || es[i].RequestError?
    decreases |objects|
  {
    if |objects| == 0 then []
    else ResponseEvents(objects[0]) + BatchEvents(objects[1..])
  }

  /** A batch split anywhere is reported as its two halves, one after the
      other: nothing is reordered, merged or lost. */
  lemma {:induction false} BatchEventsAppend(a: seq<Value>, b: seq<Value>)
    ensures BatchEvents(a + b) == BatchEvents(a) + BatchEvents(b)
    decreases |a|
  {
    if |a| == 0 {
      assert a + b == b;
    } else {
      assert (a + b)[1..] == a[1..] + b;
      BatchEventsAppend(a[1..], b);
    }
  }

  /** A batch in which no element is a result or a well-formed error is
      skipped silently. */
  lemma {:induction false} BatchEventsSilent(objects: seq<Value>)
    requires forall i :: 0 <= i < |objects| ==> ResponseEvents(objects[i]) == []
    ensures BatchEvents(objects) == []
    decreases |objects|
  {
    if |objects| > 0 {
      BatchEventsSilent(objects[1..]);
    }
  }

  /** `handleResponse`: a single object is a batch of one, a list is a
      batch, anything else is ignored. Only inbound response events come
      out; no reply is ever sent for a response. */
  function HandleResponse(v: Value): (es: seq<Event>)
    ensures v.Map? ==> es == ResponseEvents(v)
    ensures v.List? ==> es == BatchEvents(v.items)
    ensures !v.Map? && !v.List? ==> es == []
    ensures forall i :: 0 <= i < |es| ==> es[i].ReadyResponse? || es[i].RequestError?
  {
    match v
    case Map(_) =>
      assert BatchEvents([v]) == ResponseEvents(v) + BatchEvents([]);
      BatchEvents([v])
    case List(objects) => BatchEvents(objects)
    case _ => []
  }

  /** A signal (the library's extension of JSON-RPC 2.0): an object with a
      String `signal` and, if present, list, map or null `params`. */
  predicate IsValidSignal(v: Value)
  {
    && v.Map?
    && "signal" in v.fields
    && v.fields["signal"].String?
    && ("params" in v.fields ==> IsParamsShape(v.fields["params"]))
  }

  /** `handleSignal`: one `readySignal`, or one INVALID_REQUEST reply. */
  function HandleSignal(v: Value): (es: seq<Event>)
    ensures !IsValidSignal(v) ==> es == [InvalidRequestReply]
    ensures IsValidSignal(v) ==> es == [ReadySignal(v.fields["signal"].s, Get(v.fields, "params"))]
  {
    if !v.Map? then [InvalidRequestReply]
    else
      var m := v.fields;
      if "signal" !in m then [InvalidRequestReply]
      else if !m["signal"].String? then [InvalidRequestReply]
      else if "params" in m && !IsParamsShape(m["params"]) then [InvalidRequestReply]
      else [ReadySignal(m["signal"].s, if "params" in m then m["params"] else Null)]
  }

  /** `handleMessage`, after the JSON parser has run: `None` is a parse
      failure, answered with PARSE_ERROR; otherwise the value is
      dispatched on its classification. */
  function HandleMessage(parsed: Option<Value>): (es: seq<Event>)
    ensures parsed.None? ==> es == [ParseErrorReply]
    ensures parsed.Some? && Classify(parsed.value) == RequestKind ==> es == HandleRequest(parsed.value)
    ensures parsed.Some? && Classify(parsed.value) == ResponseKind ==> es == HandleResponse(parsed.value)
    ensures parsed.Some? && Classify(parsed.value) == SignalKind ==> es == HandleSignal(parsed.value)
    ensures parsed.Some? && Classify(parsed.value) == Unclassified ==> es == [InvalidRequestReply]
    ensures forall i :: 0 <= i < |es| ==> !es[i].RequestMessage? && !es[i].SignalMessage?
  {
    match parsed
    case None => [ParseErrorReply]
    case Some(v) =>
      if IsRequestMessage(v) then HandleRequest(v)
      else if IsResponseMessage(v) then HandleResponse(v)
      else if IsSignalMessage(v) then HandleSignal(v)
      else [InvalidRequestReply]
  }

  /** A parse failure gets exactly one reply: the PARSE_ERROR envelope
      (-32700 with its description), which has no `id`. */
  lemma ParseFailureReply()
    ensures HandleMessage(None) == [ParseErrorReply]
    ensures ParseErrorReply.message.Map? && "id" !in ParseErrorReply.message.fields
    ensures ErrorOf(ParseErrorReply.message) == Some(Error(-32700, PARSE_ERROR_TEXT))
  {
  }

  /** Every list and every scalar ends in exactly one INVALID_REQUEST: a
      non-empty list is taken for a request and then refused as not an
      object, the rest match no predicate. So the list branch of
      `handleResponse` is never reached from `handleMessage`. */
  lemma NonObjectRejected(v: Value)
    requires !v.Map?
    ensures HandleMessage(Some(v)) == [InvalidRequestReply]
    ensures ErrorOf(InvalidRequestReply.message) == Some(Error(-32600, INVALID_REQUEST_TEXT))
  {
  }

  /** An object that is a request on the wire is accepted exactly when
      `IsValidRequest` holds of it; then the handler carries its fields, and
      it has an id exactly when the object has an `id` key, even a null one. */
  lemma RequestObjectHandled(m: map<string, Value>)
    requires "method" in m
    ensures var es := HandleMessage(Some(Map(m)));
      && |es| == 1
      && (es[0].ReadyRequest? <==> IsValidRequest(Map(m)))
      && (es[0].ReadyRequest? ==>
            && !IsNull(es[0].handler)
            && String(es[0].handler.methodName) == m["method"]
            && es[0].handler.params == Get(m, "params")
            && (es[0].handler.hasId <==> "id" in m)
            && es[0].handler.id == Get(m, "id"))
      && (!es[0].ReadyRequest? ==> es[0] == InvalidRequestReply)
  {
  }

  /** The `jsonrpc` member of an incoming request is never looked at: any
      value, or none, is handled the same way. */
  lemma VersionNotChecked(m: map<string, Value>, version: Value)
    requires "method" in m
    ensures HandleMessage(Some(Map(m["jsonrpc" := version]))) == HandleMessage(Some(Map(m)))
    ensures HandleMessage(Some(Map(m - {"jsonrpc"}))) == HandleMessage(Some(Map(m)))
  {
  }

  /** A null `params` is accepted, although section 4.2 of JSON-RPC 2.0
      asks for an Array or an Object. */
  lemma NullParamsAccepted(methodName: string)
    requires !IsReservedName(methodName)
    ensures HandleMessage(Some(Map(map["method" := String(methodName), "params" := Null])))
         == [ReadyRequest(Handler(true, methodName, Null, false, Null))]
  {
  }

  /** `call`: refuses (emitting nothing) a reserved method, params that
      are not a list, a map or null, or an id that is not a string, an
      `int`, a `qlonglong`, a `qulonglong`, a double or null; otherwise
      emits one request object with `jsonrpc`, `method` and `id`, and
      `params` only when they are not null. */
  function Call(methodName: string, params: Value, id: Value): (r: (bool, seq<Event>))
    ensures r.0 <==> !IsReservedName(methodName) && IsParamsShape(params) && IsIdShape(id)
    ensures !r.0 ==> r.1 == []
    ensures r.0 ==> |r.1| == 1 && r.1[0].RequestMessage? && r.1[0].message.Map?
    ensures r.0 ==>
      var m := r.1[0].message.fields;
      && m.Keys == (if params.Null? then {"jsonrpc", "method", "id"} else {"jsonrpc", "method", "params", "id"})
      && m["jsonrpc"] == String("2.0") && m["method"] == String(methodName)
      && m["id"] == id && Get(m, "params") == params
  {
    if IsReservedName(methodName) || !IsParamsShape(params) || !IsIdShape(id) then (false, [])
    else
      var request := map["jsonrpc" := String("2.0"), "method" := String(methodName)];
      var request := if params != Null then request["params" := params] else request;
      var request := request["id" := id];
      (true, [RequestMessage(Map(request))])
  }

  /** A `uint` is not among the integer types the peer checks for: `call`
      refuses it as an id, and an error whose `code` is one is skipped
      without an event. */
  lemma UIntRefused(methodName: string, params: Value, n: uint32, message: string)
    ensures !Call(methodName, params, UInt(n)).0
    ensures ResponseEvents(Map(map["error" := Map(map["code" := UInt(n), "message" := String(message)])])) == []
  {
  }

  /** What `call` sends is what the receiving peer accepts: a request whose
      handler has the same method, params and id, and expects a reply. */
  lemma CallRoundTrip(methodName: string, params: Value, id: Value)
    requires Call(methodName, params, id).0
    ensures HandleMessage(Some(Call(methodName, params, id).1[0].message))
         == [ReadyRequest(Handler(true, methodName, params, true, id))]
  {
  }

  /** `emitSignal`: always one signal object with the extension's
      `jsonrpc` marker, the name and the params list. */
  function EmitSignal(signal: string, params: seq<Value>): (es: seq<Event>)
    ensures |es| == 1 && es[0].SignalMessage? && es[0].message.Map?
    ensures es[0].message.fields.Keys == {"jsonrpc", "signal", "params"}
    ensures es[0].message.fields["jsonrpc"] == String("2.0-EXTENSION")
    ensures es[0].message.fields["signal"] == String(signal)
    ensures es[0].message.fields["params"] == List(params)
  {
    [SignalMessage(Map(map["jsonrpc" := String("2.0-EXTENSION"), "signal" := String(signal),
                           "params" := List(params)]))]
  }

  /** What `emitSignal` sends is reported by the receiving peer as that
      same signal with those same params. */
  lemma SignalRoundTrip(signal: string, params: seq<Value>)
    ensures HandleMessage(Some(EmitSignal(signal, params)[0].message)) == [ReadySignal(signal, List(params))]
  {
  }

  /** What a response handler sends through `reply` is reported by the
      receiving peer as the matching result or error, for the same id. */
  lemma ReplyRoundTrip(h: Handler, reply: Reply)
    requires h.linked && h.hasId
    ensures var sent := Send(h, reply).1;
      && |sent| == 1
      && (reply.Result? ==> HandleMessage(Some(sent[0])) == [ReadyResponse(reply.result, h.id)])
      && (reply.Failure? ==>
            HandleMessage(Some(sent[0])) == [RequestError(reply.error.code, reply.error.desc, Null, h.id)])
  {
  }
}
