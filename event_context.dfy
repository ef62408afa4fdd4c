/**
 * `withEventContext(fn, options)`: the request pre-processor on the far side
 * of the bridge. It reads the event and the context back from the two headers
 * the bridge added, attaches them to the request under a configurable
 * property, by default deletes the two headers, and then calls the handler.
 */
module EventContext {
  import opened Wrappers
  import opened JsObject
  import opened Json
  import opened Gateway
  import opened Mapper
  import UriComponent
  import Utf8

  /** The object attached to the request: the event and the context as JSON. */
  datatype Annotation = Annotation(event: Json, context: Json)

  /** The `options` of `withEventContext`; a missing option takes its default. */
  datatype Options = Options(reqPropKey: Option<string>, deleteHeaders: Option<bool>)

  /** The property the annotation goes under, `apiGateway` by default. */
  function PropKey(o: Options): (k: string)
    ensures o.reqPropKey.None? ==> k == "apiGateway"
    ensures o.reqPropKey.Some? ==> k == o.reqPropKey.value
  {
    if o.reqPropKey.Some? then o.reqPropKey.value else "apiGateway"
  }

  /** Whether the two headers are deleted: unless `deleteHeaders` is given as false. */
  predicate DeletesHeaders(o: Options)
  {
    o.deleteHeaders != Some(false)
  }

  /** `JSON.parse(decodeURIComponent(v))`, None where either of them throws. */
  function DecodeHeader(v: string, ser: Serializer): Option<Json>
  {
    match UriComponent.Decode(v)
      case None => None
      case Some(text) => ser.parse(text)
  }

  /** What the two headers hold: one is missing or empty, one does not decode, or both decode. */
  datatype Reading = Missing | Unreadable | Read(annotation: Annotation)

  /** The headers' reading, the event header decoded first. */
  function ReadHeaders(h: Obj<string>, ser: Serializer): (r: Reading)
    ensures r.Missing? <==> !Truthy(Get(h, EventHeader)) || !Truthy(Get(h, ContextHeader))
    ensures r.Read? ==> DecodeHeader(Get(h, EventHeader).value, ser) == Some(r.annotation.event)
    ensures r.Read? ==> DecodeHeader(Get(h, ContextHeader).value, ser) == Some(r.annotation.context)
    ensures r.Unreadable? ==>
      DecodeHeader(Get(h, EventHeader).value, ser).None? || DecodeHeader(Get(h, ContextHeader).value, ser).None?
  {
    if !Truthy(Get(h, EventHeader)) || !Truthy(Get(h, ContextHeader)) then Missing
    else
      match DecodeHeader(Get(h, EventHeader).value, ser)
        case None => Unreadable
        case Some(event) =>
          match DecodeHeader(Get(h, ContextHeader).value, ser)
            case None => Unreadable
            case Some(context) => Read(Annotation(event, context))
  }

  /** The header table with the two bridge headers deleted and every other header as it was. */
  function WithoutCarriedHeaders(h: Obj<string>): (r: Obj<string>)
    ensures Get(r, EventHeader) == None && Get(r, ContextHeader) == None
    ensures forall k :: k != EventHeader && k != ContextHeader ==> Get(r, k) == Get(h, k)
  {
    Delete(Delete(h, EventHeader), ContextHeader)
  }

  /** A non-empty text percent-encodes to a non-empty text. */
  lemma EncodeNonEmpty(s: string)
    requires s != ""
    ensures UriComponent.Encode(s) != ""
  {
    var c := s[0];
    if !UriComponent.Unreserved(c) {
      Utf8.EncodeLength([c]);
      assert Utf8.Encode([c]) == Utf8.EncodeChar(c) + Utf8.Encode([]);
    }
  }

  /**
   * What the bridge writes into a header, `encodeURIComponent(JSON.stringify(j))`,
   * is a truthy header value that reads back as `j` when `j` is valid.
   */
  lemma DecodeCarried(j: Json, ser: Serializer)
    requires Valid(j) && Faithful(ser)
    ensures Truthy(Some(UriComponent.Encode(ser.stringify(j))))
    ensures DecodeHeader(UriComponent.Encode(ser.stringify(j)), ser) == Some(j)
  {
    EncodeNonEmpty(ser.stringify(j));
    UriComponent.DecodeEncode(ser.stringify(j));
  }

  /**
   * The round trip across the bridge: the headers of a request the bridge
   * mapped from an event read back as that event, without its body, and the
   * context. Both are values a JavaScript object can hold, as an event from
   * the gateway and a context from the runtime are.
   */
  lemma ReadMappedRequest(e: GatewayEvent, context: Json, socketPath: string, ser: Serializer)
    requires WellFormed(e) && Valid(context) && Faithful(ser)
    ensures ReadHeaders(MapRequest(e, context, socketPath, ser).headers, ser)
      == Read(Annotation(EventWithoutBody(e), context))
    ensures Valid(EventWithoutBody(e))
  {
    EventJsonValid(e.(body := Absent));
    CarriedHeaders(e, context, socketPath, ser);
    DecodeCarried(EventWithoutBody(e), ser);
    DecodeCarried(context, ser);
  }

  /** The request as the handler sees it: its header table and the properties the pre-processor may set. */
  class Request {
    var headers: Obj<string>
    var props: map<string, Annotation>

    constructor (headers: Obj<string>)
      ensures this.headers == headers && props == map[]
    {
      this.headers := headers;
      props := map[];
    }
  }

  /** The settled value of the promise `withEventContext(fn, options)(req, res)` returns. */
  datatype Outcome<V> = Returned(value: V) | Rejected

  /**
   * `withEventContext(fn, options)(req, res)`. The handler `fn` is called once,
   * on the request as it is after the update, and its result is returned; the
   * annotation is attached only when both headers are there, and when a
   * header does not decode the promise is rejected before anything changes.
   */
  method WithEventContext<V>(fn: (Obj<string>, map<string, Annotation>) -> V, options: Options, ser: Serializer, req: Request)
    returns (out: Outcome<V>)
    requires PropKey(options) != "headers"
    modifies req
    ensures match ReadHeaders(old(req.headers), ser)
      case Missing =>
        req.headers == old(req.headers) && req.props == old(req.props) && out == Returned(fn(req.headers, req.props))
      case Unreadable =>
        req.headers == old(req.headers) && req.props == old(req.props) && out == Rejected
      case Read(a) =>
        && req.props == old(req.props)[PropKey(options) := a]
        && req.headers == (if DeletesHeaders(options) then WithoutCarriedHeaders(old(req.headers)) else old(req.headers))
        && out == Returned(fn(req.headers, req.props))
  {
    var reqPropKey := if options.reqPropKey.Some? then options.reqPropKey.value else "apiGateway";
    var deleteHeaders := options.deleteHeaders != Some(false);
    var ev := Get(req.headers, EventHeader);
    var cx := Get(req.headers, ContextHeader);
    if ev.None? || ev.value == "" || cx.None? || cx.value == "" {
      out := Returned(fn(req.headers, req.props));
      return;
    }
    var event := DecodeHeader(ev.value, ser);
    if event.None? {
      out := Rejected;
      return;
    }
    var context := DecodeHeader(cx.value, ser);
    if context.None? {
      out := Rejected;
      return;
    }
    req.props := req.props[reqPropKey := Annotation(event.value, context.value)];
    if deleteHeaders {
      req.headers := Delete(req.headers, EventHeader);
      req.headers := Delete(req.headers, ContextHeader);
    }
    out := Returned(fn(req.headers, req.props));
  }
}
