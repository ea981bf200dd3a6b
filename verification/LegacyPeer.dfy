/** The older peer of src/peer.cpp, without the signal extension. Its
    `handleRequest`, `handleResponse` and `call` are the same code as in
    peer.cpp and are shared with module Peer; only `handleMessage`
    differs. */
module LegacyPeer {
  import opened Json
  import opened Errors
  import opened ResponseHandlers
  import Peer

  /** `handleMessage`: PARSE_ERROR for a parse failure, then request, then
      response, and INVALID_REQUEST for everything else. It never reports
      a signal and never originates a call. */
  function HandleMessage(parsed: Option<Value>): (es: seq<Peer.Event>)
    ensures parsed.None? ==> es == [Peer.ParseErrorReply]
    ensures forall i :: 0 <= i < |es| ==>
      !es[i].ReadySignal? && !es[i].RequestMessage? && !es[i].SignalMessage?
  {
    match parsed
    case None => [Peer.ParseErrorReply]
    case Some(v) =>
      if Peer.IsRequestMessage(v) then Peer.HandleRequest(v)
      else if Peer.IsResponseMessage(v) then Peer.HandleResponse(v)
      else [Peer.InvalidRequestReply]
  }

  /** The two versions agree on every message except the ones the newer
      one classifies as signals, which the older one refuses. */
  lemma AgreesExceptSignals(parsed: Option<Value>)
    ensures parsed.Some? && Peer.Classify(parsed.value) == Peer.SignalKind ==>
      HandleMessage(parsed) == [Peer.InvalidRequestReply]
    ensures parsed.None? || Peer.Classify(parsed.value) != Peer.SignalKind ==>
      HandleMessage(parsed) == Peer.HandleMessage(parsed)
  {
  }

  /** An object with none of `method`, `result` and `error` is refused
      with one INVALID_REQUEST, whether or not it names a `signal`. */
  lemma UnclassifiedObjectRejected(m: map<string, Value>)
    requires "method" !in m && "result" !in m && "error" !in m
    ensures HandleMessage(Some(Map(m))) == [Peer.InvalidRequestReply]
  {
  }

  /** A parse failure gets exactly one PARSE_ERROR reply without an id. */
  lemma ParseFailureReply()
    ensures HandleMessage(None) == [Peer.ParseErrorReply]
    ensures ErrorOf(Peer.ParseErrorReply.message) == Some(Error(PARSE_ERROR, PARSE_ERROR_TEXT))
    ensures "id" !in Peer.ParseErrorReply.message.fields
  {
  }

  /** Lists and scalars are refused with one INVALID_REQUEST: a non-empty
      list goes to `handleRequest`, which refuses anything but an object. */
  lemma NonObjectRejected(v: Value)
    requires !v.Map?
    ensures HandleMessage(Some(v)) == [Peer.InvalidRequestReply]
    ensures v.List? && |v.items| > 0 ==> HandleMessage(Some(v)) == Peer.HandleRequest(v)
  {
  }

  /** Request objects are validated and copied exactly as in peer.cpp. */
  lemma RequestObjectHandled(m: map<string, Value>)
    requires "method" in m
    ensures var es := HandleMessage(Some(Map(m)));
      && |es| == 1
      && (es[0].ReadyRequest? <==> Peer.IsValidRequest(Map(m)))
      && (es[0].ReadyRequest? ==>
            && String(es[0].handler.methodName) == m["method"]
            && es[0].handler.params == Get(m, "params")
            && (es[0].handler.hasId <==> "id" in m)
            && es[0].handler.id == Get(m, "id"))
      && (!es[0].ReadyRequest? ==> es[0] == Peer.InvalidRequestReply)
  {
  }

  /** A response object yields its result, or its well-formed error, for
      its id; anything else in it is skipped without a reply. */
  lemma ResponseObjectHandled(m: map<string, Value>)
    requires "method" !in m && ("result" in m || "error" in m)
    ensures var es := HandleMessage(Some(Map(m)));
      && |es| <= 1
      && ("result" in m ==> es == [Peer.ReadyResponse(m["result"], Get(m, "id"))])
      && ("result" !in m && Peer.IsErrorObject(m["error"]) ==>
            es == [Peer.RequestError(ToInt(m["error"].fields["code"]), m["error"].fields["message"].s,
                                     Get(m["error"].fields, "data"), Get(m, "id"))])
      && ("result" !in m && !Peer.IsErrorObject(m["error"]) ==> es == [])
  {
  }

  /** What `call` sends is accepted by this older peer as the same request. */
  lemma CallRoundTrip(methodName: string, params: Value, id: Value)
    requires Peer.Call(methodName, params, id).0
    ensures HandleMessage(Some(Peer.Call(methodName, params, id).1[0].message))
         == [Peer.ReadyRequest(Handler(true, methodName, params, true, id))]
  {
  }

  /** A signal sent by the newer peer is refused by the older one. */
  lemma SignalRefused(signal: string, params: seq<Value>)
    ensures HandleMessage(Some(Peer.EmitSignal(signal, params)[0].message)) == [Peer.InvalidRequestReply]
  {
  }
}
