/** The one-shot reply channel handed out with every accepted request
    (responsehandler.h, responsehandler.cpp). */
module ResponseHandlers {
  import opened Json
  import opened Errors

  /** The handler's state. `linked` is the QPointer to the peer: false once
      a reply has been sent, or when the handler was built without a peer. */
  datatype Handler = Handler(linked: bool, methodName: string, params: Value, hasId: bool, id: Value)

  /** `ResponseHandler(peer)`: empty method, null params and id, no id. */
  function New(linked: bool): (h: Handler)
    ensures !h.hasId && h.params == Null && h.id == Null && h.methodName == ""
    ensures IsNull(h) <==> !linked
  {
    Handler(linked, "", Null, false, Null)
  }

  /** `isNull`: no reply can be sent through this handler. */
  predicate IsNull(h: Handler)
  {
    !h.linked
  }

  /** `setMethod`: refuses a name in the reserved `rpc.` namespace and
      leaves the stored method alone; otherwise stores it. */
  function SetMethod(h: Handler, name: string): (r: (bool, Handler))
    ensures r.0 <==> !("rpc." <= name)
    ensures r.0 ==> r.1.methodName == name && r.1 == h.(methodName := r.1.methodName)
    ensures !r.0 ==> r.1 == h
  {
    if IsReservedName(name) then (false, h) else (true, h.(methodName := name))
  }

  /** `setParams`: accepts exactly a list, a map or a null value. */
  function SetParams(h: Handler, params: Value): (r: (bool, Handler))
    ensures r.0 <==> params.List? || params.Map? || params.Null?
    ensures r.0 ==> r.1.params == params && r.1 == h.(params := r.1.params)
    ensures !r.0 ==> r.1 == h
  {
    if IsParamsShape(params) then (true, h.(params := params)) else (false, h)
  }

  /** `resetParams`: forgets the params. */
  function ResetParams(h: Handler): (r: Handler)
    ensures !HasParams(r)
    ensures r.params == Null && r == h.(params := r.params)
  {
    h.(params := Null)
  }

  /** `hasParams`: a non-empty list or a non-empty map is stored. */
  function HasParams(h: Handler): (b: bool)
    ensures b <==> (h.params.List? && |h.params.items| > 0) || (h.params.Map? && |h.params.fields| > 0)
  {
    if h.params != Null then
      if h.params.List? then |h.params.items| != 0
      else h.params.Map? && h.params.fields != map[]
    else false
  }

  /** `setId`: accepts exactly a string, an `int`, a `qlonglong`, a
      `qulonglong`, a double or a null value, and then marks the handler as
      having an id; a `uint` is refused. A refused id changes neither the
      id nor `hasId`. */
  function SetId(h: Handler, id: Value): (r: (bool, Handler))
    ensures r.0 <==> id.String? || IsInteger(id) || id.Double? || id.Null?
    ensures r.0 ==> r.1.id == id && r.1.hasId && r.1 == h.(id := id, hasId := true)
    ensures !r.0 ==> r.1 == h
  {
    if IsIdShape(id) then (true, h.(id := id, hasId := true)) else (false, h)
  }

  /** `resetId`: clears `hasId` only; the stored id value stays. */
  function ResetId(h: Handler): (r: Handler)
    ensures !r.hasId && r.id == h.id && r == h.(hasId := false)
  {
    h.(hasId := false)
  }

  /** A reply the application can send: `response(result)` or `error(e)`. */
  datatype Reply = Result(result: Value) | Failure(error: Error)

  /** The envelope a reply travels in: `{"jsonrpc":"2.0","result":r,"id":id}`,
      or the `Error` envelope with `id` added. */
  function Envelope(reply: Reply, id: Value): (v: Value)
    ensures v.Map? && "id" in v.fields && v.fields["id"] == id
    ensures reply.Result? ==> v.fields.Keys == {"jsonrpc", "result", "id"} && v.fields["result"] == reply.result
    ensures reply.Failure? ==> v.fields.Keys == {"jsonrpc", "error", "id"} && ErrorOf(v) == Some(reply.error)
    ensures v.fields["jsonrpc"] == String("2.0")
  {
    match reply
    case Result(result) =>
      Map(map["jsonrpc" := String("2.0"), "result" := result, "id" := id])
    case Failure(e) =>
      Map(ToMap(e).fields["id" := id])
  }

  /** `response` / `error`: a handler without an id is unlinked and sends
      nothing; an unlinked handler sends nothing; otherwise the envelope
      goes to `peer->reply` and the handler unlinks itself. Returns the new
      handler and what reached the peer. */
  function Send(h: Handler, reply: Reply): (r: (Handler, seq<Value>))
    ensures IsNull(r.0) && r.0 == h.(linked := false)
    ensures !h.hasId ==> r.1 == []
    ensures |r.1| <= 1
    ensures |r.1| == 1 <==> h.linked && h.hasId
    ensures |r.1| == 1 ==> r.1[0] == Envelope(reply, h.id)
  {
    var h' := if !h.hasId then h.(linked := false) else h;
    if !h'.linked then (h', [])
    else (h'.(linked := false), [Envelope(reply, h'.id)])
  }

  /** Any sequence of `response`/`error` calls on one handler. */
  function SendAll(h: Handler, replies: seq<Reply>): (r: (Handler, seq<Value>))
    ensures |r.1| <= 1
    ensures |r.1| == 1 <==> |replies| > 0 && h.linked && h.hasId
    ensures |r.1| == 1 ==> r.1[0] == Envelope(replies[0], h.id)
    ensures |replies| > 0 ==> IsNull(r.0)
    ensures r.0 == h.(linked := r.0.linked)
    decreases |replies|
  {
    if |replies| == 0 then (h, [])
    else
      var (h', sent) := Send(h, replies[0]);
      var (h'', rest) := SendAll(h', replies[1..]);
      (h'', sent + rest)
  }

  /** What `isNull` tells the application: a null handler sends nothing.
      The converse does not hold: a linked handler without an id is not
      null, yet sends nothing either. */
  lemma NullMeansSilent(h: Handler, reply: Reply)
    ensures IsNull(h) ==> Send(h, reply).1 == []
    ensures !IsNull(h) ==> (|Send(h, reply).1| == 1 <==> h.hasId)
  {
  }

  /** A notification (no id) is never answered, however often the
      application tries. */
  lemma NotificationNeverAnswered(h: Handler, replies: seq<Reply>)
    requires !h.hasId
    ensures SendAll(h, replies).1 == []
  {
  }

  /** After `resetId` nothing can be sent: the request became a notification. */
  lemma ResetIdSilences(h: Handler, reply: Reply)
    ensures Send(ResetId(h), reply).1 == []
    ensures IsNull(Send(ResetId(h), reply).0)
  {
  }

  /** Two replies in a row: only the first reaches the peer. */
  lemma SecondReplyDropped(h: Handler, first: Reply, second: Reply)
    requires h.linked && h.hasId
    ensures SendAll(h, [first, second]).1 == [Envelope(first, h.id)]
  {
  }
}
