/**
 * The request half of the bridge: from an API Gateway event to the options of
 * the HTTP request made of the local server (`getPathWithQueryStringParams`,
 * `getEventBody`, `getSocketPath`, `mapApiGatewayEventToHttpRequest`).
 */
module Mapper {
  import opened Wrappers
  import opened Octets
  import opened Text
  import opened JsObject
  import opened Json
  import opened Gateway
  import Utf8
  import Base64
  import UriComponent

  // ---------------------------------------------------------------- path

  /** `url.format` escapes the two characters that would end a pathname. */
  function EscapePathname(p: string): (r: string)
    ensures '?' !in r && '#' !in r
  {
    if p == [] then ""
    else (if p[0] == '?' then "%3F" else if p[0] == '#' then "%23" else [p[0]]) + EscapePathname(p[1..])
  }

  /** A pathname without `?` or `#` is formatted as it is. */
  lemma {:induction false} EscapePathnameIdentity(p: string)
    requires '?' !in p && '#' !in p
    ensures EscapePathname(p) == p
  {
    if p != [] {
      EscapePathnameIdentity(p[1..]);
      assert [p[0]] + p[1..] == p;
    }
  }

  /** One `k=v` pair of `querystring.stringify`. */
  function QueryPair(kv: (string, string)): string
  {
    UriComponent.Encode(kv.0) + "=" + UriComponent.Encode(kv.1)
  }

  /** The `k=v` parts of `querystring.stringify(q)`, one per pair, in order. */
  function QueryParts(q: seq<(string, string)>): (r: seq<string>)
    ensures |r| == |q|
    ensures forall i :: 0 <= i < |q| ==> r[i] == QueryPair(q[i])
  {
    if q == [] then [] else [QueryPair(q[0])] + QueryParts(q[1..])
  }

  /** `querystring.stringify(q)`: the pairs in key order, joined by `&`. */
  function QueryString(q: seq<(string, string)>): string
  {
    Join("&", QueryParts(q))
  }

  /** `getPathWithQueryStringParams(event)`: `url.format({pathname, query})`; no `?` for a missing, null or empty query. */
  function PathWithQuery(e: GatewayEvent): string
  {
    EscapePathname(e.path)
      + match e.queryStringParameters
        case Present(q) => if q == [] then "" else "?" + QueryString(q)
        case _ => ""
  }

  // ------------------------------------------------------- query reading

  /** Reads `k=v` pairs back, decoding both halves; None when a part has no `=` or a bad escape. */
  function DecodePairs(parts: seq<string>): (r: Option<seq<(string, string)>>)
    ensures r.Some? ==> |r.value| == |parts|
  {
    if parts == [] then Some([])
    else
      var k := BeforeFirst(parts[0], '=');
      if |k| == |parts[0]| then None
      else
        match (UriComponent.Decode(k), UriComponent.Decode(parts[0][|k| + 1..]), DecodePairs(parts[1..]))
          case (Some(dk), Some(dv), Some(rest)) => Some([(dk, dv)] + rest)
          case _ => None
  }

  /** A reference reader for a query string: split at `&`, then at the first `=`. */
  function ParseQuery(s: string): Option<seq<(string, string)>>
  {
    DecodePairs(Split(s, '&'))
  }

  lemma QueryPairChars(kv: (string, string))
    ensures '&' !in QueryPair(kv)
    ensures BeforeFirst(QueryPair(kv), '=') == UriComponent.Encode(kv.0)
    ensures QueryPair(kv)[|UriComponent.Encode(kv.0)| + 1..] == UriComponent.Encode(kv.1)
  {
    var ek, ev := UriComponent.Encode(kv.0), UriComponent.Encode(kv.1);
    UriComponent.EncodeChars(kv.0);
    UriComponent.EncodeChars(kv.1);
    assert '=' !in ek;
    BeforeFirstSplit(ek, '=', ev);
    var p := QueryPair(kv);
    assert p == ek + "=" + ev;
    assert forall i :: 0 <= i < |p| ==> p[i] != '&' by {
      forall i | 0 <= i < |p| ensures p[i] != '&' {
        if i < |ek| { assert p[i] == ek[i]; }
        else if i > |ek| { assert p[i] == ev[i - |ek| - 1]; }
      }
    }
  }

  /** A part made by `QueryPair` reads back as its pair, in front of whatever the rest reads as. */
  lemma DecodePair(kv: (string, string), rest: seq<string>)
    requires DecodePairs(rest).Some?
    ensures DecodePairs([QueryPair(kv)] + rest) == Some([kv] + DecodePairs(rest).value)
  {
    var parts := [QueryPair(kv)] + rest;
    var k := UriComponent.Encode(kv.0);
    assert parts[0] == QueryPair(kv) && parts[1..] == rest;
    QueryPairChars(kv);
    UriComponent.DecodeEncode(kv.0);
    UriComponent.DecodeEncode(kv.1);
    assert BeforeFirst(parts[0], '=') == k && parts[0][|k| + 1..] == UriComponent.Encode(kv.1);
  }

  lemma {:induction false} DecodeQueryPairs(q: seq<(string, string)>)
    ensures DecodePairs(QueryParts(q)) == Some(q)
  {
    if q != [] {
      DecodeQueryPairs(q[1..]);
      DecodePair(q[0], QueryParts(q[1..]));
      assert [q[0]] + q[1..] == q;
    }
  }

  /** Reading the query string back gives the parameters, in their order. */
  lemma QueryStringRoundTrip(q: seq<(string, string)>)
    requires q != []
    ensures ParseQuery(QueryString(q)) == Some(q)
  {
    var parts := QueryParts(q);
    forall i | 0 <= i < |parts| ensures '&' !in parts[i] {
      QueryPairChars(q[i]);
    }
    SplitJoin(parts, '&');
    DecodeQueryPairs(q);
  }

  /** With no query parameters (missing, null or empty) and a plain path, the result is the path itself. */
  lemma PathWithoutQuery(e: GatewayEvent)
    requires e.queryStringParameters.Present? ==> e.queryStringParameters.value == []
    requires '?' !in e.path && '#' !in e.path
    ensures PathWithQuery(e) == e.path
  {
    EscapePathnameIdentity(e.path);
  }

  /**
   * With parameters, the result is the escaped path, then `?`, then a query
   * string that reads back as the parameters.
   */
  lemma PathWithParameters(e: GatewayEvent)
    requires e.queryStringParameters.Present? && e.queryStringParameters.value != []
    ensures BeforeFirst(PathWithQuery(e), '?') == EscapePathname(e.path)
    ensures ParseQuery(PathWithQuery(e)[|EscapePathname(e.path)| + 1..]) == Some(e.queryStringParameters.value)
  {
    var p := EscapePathname(e.path);
    var q := e.queryStringParameters.value;
    var t := QueryString(q);
    var u := PathWithQuery(e);
    assert u == p + ("?" + t);
    assert u == p + ['?'] + t;
    BeforeFirstSplit(p, '?', t);
    assert u[|p| + 1..] == t;
    QueryStringRoundTrip(q);
  }

  lemma EscapeColonSlash()
    ensures UriComponent.Encode(":") == "%3A" && UriComponent.Encode("/") == "%2F"
  {
    assert Utf8.EncodeChar(':') == [58];
    assert Utf8.EncodeChar('/') == [47];
  }

  /** Escaping a concatenation, given how its two parts escape. */
  lemma EncodeAppend(a: string, b: string, ea: string, eb: string)
    requires UriComponent.Encode(a) == ea && UriComponent.Encode(b) == eb
    ensures UriComponent.Encode(a + b) == ea + eb
  {
    UriComponent.EncodeConcat(a, b);
  }

  lemma EncodeDelimiters()
    ensures UriComponent.Encode(":") == "%3A" && UriComponent.Encode("/") == "%2F"
    ensures UriComponent.Encode("://") == "%3A%2F%2F"
  {
    EscapeColonSlash();
    EncodeAppend("/", "/", "%2F", "%2F");
    assert "/" + "/" == "//";
    EncodeAppend(":", "//", "%3A", "%2F%2F");
    assert ":" + "//" == "://";
  }

  /** A URL `scheme://host:port/path` whose pieces escape to themselves escapes only its delimiters. */
  lemma EncodeUrl(scheme: string, host: string, port: string, path: string)
    requires UriComponent.Encode(scheme) == scheme && UriComponent.Encode(host) == host
    requires UriComponent.Encode(port) == port && UriComponent.Encode(path) == path
    ensures UriComponent.Encode(scheme + "://" + host + ":" + port + "/" + path)
      == scheme + "%3A%2F%2F" + host + "%3A" + port + "%2F" + path
  {
    EncodeDelimiters();
    var u1 := scheme + "://";
    var u2 := u1 + host;
    var u3 := u2 + ":";
    var u4 := u3 + port;
    var u5 := u4 + "/";
    var e1 := scheme + "%3A%2F%2F";
    var e2 := e1 + host;
    var e3 := e2 + "%3A";
    var e4 := e3 + port;
    var e5 := e4 + "%2F";
    EncodeAppend(scheme, "://", scheme, "%3A%2F%2F");
    EncodeAppend(u1, host, e1, host);
    EncodeAppend(u2, ":", e2, "%3A");
    EncodeAppend(u3, port, e3, port);
    EncodeAppend(u4, "/", e4, "%2F");
    EncodeAppend(u5, path, e5, path);
  }

  /**
   * The escaping of the example in the tests, `http://lvh.me:3000/cb` as one
   * parameter value: `http%3A%2F%2Flvh.me%3A3000%2Fcb`. The four parts are
   * parameters bound to those literals by the precondition, so that the
   * general `EncodeUrl` applies to them part by part; the lemma is about this
   * one URL.
   */
  lemma EncodeCallbackUrl(scheme: string, host: string, port: string, path: string)
    requires scheme == "http" && host == "lvh.me" && port == "3000" && path == "cb"
    ensures UriComponent.Encode(scheme + "://" + host + ":" + port + "/" + path)
      == scheme + "%3A%2F%2F" + host + "%3A" + port + "%2F" + path
  {
    UriComponent.EncodeUnreserved(scheme);
    UriComponent.EncodeUnreserved(host);
    UriComponent.EncodeUnreserved(port);
    UriComponent.EncodeUnreserved(path);
    EncodeUrl(scheme, host, port, path);
  }

  // ---------------------------------------------------------------- body

  /** `event.body` is truthy: present and not the empty string. */
  predicate HasBody(e: GatewayEvent)
  {
    e.body.Present? && e.body.value != ""
  }

  /** `getEventBody(event)`: the body's bytes, base64-decoded when `isBase64Encoded` is true, else UTF-8. */
  function EventBody(e: GatewayEvent): seq<Byte>
    requires e.body.Present?
  {
    if e.isBase64Encoded == Present(true) then Base64.Decode(e.body.value) else Utf8.Encode(e.body.value)
  }

  /** A base64 body is read back as the bytes it encodes. */
  lemma EventBodyBase64(e: GatewayEvent, bytes: seq<Byte>)
    requires e.isBase64Encoded == Present(true) && e.body == Present(Base64.Encode(bytes))
    ensures EventBody(e) == bytes
  {
    Base64.DecodeEncode(bytes);
  }

  /** A text body is sent as its UTF-8 bytes, which decode back to the text. */
  lemma EventBodyText(e: GatewayEvent)
    requires e.body.Present? && e.isBase64Encoded != Present(true)
    ensures Utf8.Decode(EventBody(e)) == e.body.value
    ensures |e.body.value| <= |EventBody(e)| <= 4 * |e.body.value|
  {
    Utf8.DecodeEncode(e.body.value);
    Utf8.EncodeLength(e.body.value);
  }

  // --------------------------------------------------------- socket path

  /** `getSocketPath(suffix)` on a POSIX platform. */
  function SocketPath(suffix: string): (p: string)
    ensures |p| == |suffix| + 17 && p[..12] == "/tmp/server-" && p[|p| - 5..] == ".sock"
  {
    "/tmp/server-" + suffix + ".sock"
  }

  /** Different suffixes give different socket paths. */
  lemma SocketPathInjective(a: string, b: string)
    requires SocketPath(a) == SocketPath(b)
    ensures a == b
  {
    var p := SocketPath(a);
    assert a == p[12..|p| - 5];
    assert b == SocketPath(b)[12..|SocketPath(b)| - 5];
  }

  // ------------------------------------------------------------- request

  const ContentLength := "Content-Length"
  const EventHeader := "x-apigateway-event"
  const ContextHeader := "x-apigateway-context"

  /** A header value is truthy: present and not the empty string. */
  predicate Truthy(v: Option<string>)
  {
    v.Some? && v.value != ""
  }

  /** The copied headers, with `Content-Length` set to the body's byte length when the body is truthy and the header is not. */
  function WithContentLength(e: GatewayEvent, h: Obj<string>): Obj<string>
  {
    if HasBody(e) && !Truthy(Get(h, ContentLength)) then Set(h, ContentLength, Decimal(|EventBody(e)|)) else h
  }

  /** The event as `JSON.stringify` sees the clone whose `body` was deleted. */
  function EventWithoutBody(e: GatewayEvent): Json
  {
    EventJson(e.(body := Absent))
  }

  /** `mapApiGatewayEventToHttpRequest(event, context, socketPath)`. */
  function MapRequest(e: GatewayEvent, context: Json, socketPath: string, ser: Serializer): HttpRequest
  {
    var h0 := AssignFrom(if e.headers.Present? then Some(e.headers.value) else None);
    var h1 := WithContentLength(e, h0);
    var h2 := Set(h1, EventHeader, UriComponent.Encode(ser.stringify(EventWithoutBody(e))));
    var h3 := Set(h2, ContextHeader, UriComponent.Encode(ser.stringify(context)));
    HttpRequest(e.httpMethod, PathWithQuery(e), h3, socketPath)
  }

  /** The headers of the event, or none when `headers` is missing or null. */
  function EventHeaders(e: GatewayEvent): Obj<string>
  {
    if e.headers.Present? then e.headers.value else []
  }

  /**
   * The mapped request carries the event's method, its path with query, the
   * given socket path, and the event's headers unchanged except for
   * `Content-Length` and the two added headers.
   */
  lemma MapRequestShape(e: GatewayEvent, context: Json, socketPath: string, ser: Serializer)
    ensures MapRequest(e, context, socketPath, ser).httpMethod == e.httpMethod
    ensures MapRequest(e, context, socketPath, ser).path == PathWithQuery(e)
    ensures MapRequest(e, context, socketPath, ser).socketPath == socketPath
    ensures forall k :: k != ContentLength && k != EventHeader && k != ContextHeader ==>
      Get(MapRequest(e, context, socketPath, ser).headers, k) == Get(EventHeaders(e), k)
  {
  }

  /** Key list `b` starts with `a`, and every key after that is one of `added`. */
  predicate GrowsBy(a: seq<string>, b: seq<string>, added: seq<string>)
  {
    a <= b && forall i :: |a| <= i < |b| ==> b[i] in added
  }

  lemma GrowsByTrans(a: seq<string>, b: seq<string>, c: seq<string>, added: seq<string>)
    requires GrowsBy(a, b, added) && GrowsBy(b, c, added)
    ensures GrowsBy(a, c, added)
  {
    forall i | |a| <= i < |c| ensures c[i] in added {
      if i < |b| {
        assert c[i] == b[i];
      }
    }
  }

  /** Assigning a key of `added` keeps the keys in front and can add only that key after them. */
  lemma SetGrows(h: Obj<string>, k: string, v: string, added: seq<string>)
    requires k in added
    ensures GrowsBy(Keys(h), Keys(Set(h, k, v)), added)
  {
    SetKeys(h, k, v);
  }

  /** The header order of the mapped request is the event's, with only the three bridge keys after it. */
  lemma MapRequestKeys(e: GatewayEvent, context: Json, socketPath: string, ser: Serializer)
    ensures Keys(EventHeaders(e)) <= Keys(MapRequest(e, context, socketPath, ser).headers)
    ensures forall i :: |Keys(EventHeaders(e))| <= i < |Keys(MapRequest(e, context, socketPath, ser).headers)| ==>
      Keys(MapRequest(e, context, socketPath, ser).headers)[i] in [ContentLength, EventHeader, ContextHeader]
  {
    var added := [ContentLength, EventHeader, ContextHeader];
    var h0 := EventHeaders(e);
    var h1 := WithContentLength(e, h0);
    var h2 := Set(h1, EventHeader, UriComponent.Encode(ser.stringify(EventWithoutBody(e))));
    var h3 := Set(h2, ContextHeader, UriComponent.Encode(ser.stringify(context)));
    assert MapRequest(e, context, socketPath, ser).headers == h3;
    assert GrowsBy(Keys(h0), Keys(h1), added) by {
      if HasBody(e) && !Truthy(Get(h0, ContentLength)) {
        SetGrows(h0, ContentLength, Decimal(|EventBody(e)|), added);
      }
    }
    SetGrows(h1, EventHeader, UriComponent.Encode(ser.stringify(EventWithoutBody(e))), added);
    SetGrows(h2, ContextHeader, UriComponent.Encode(ser.stringify(context)), added);
    GrowsByTrans(Keys(h0), Keys(h1), Keys(h2), added);
    GrowsByTrans(Keys(h0), Keys(h2), Keys(h3), added);
  }

  /**
   * `Content-Length` is set exactly when the body is truthy and the header is
   * not, and then it is the decimal byte length of the decoded body.
   */
  lemma ContentLengthHeader(e: GatewayEvent, context: Json, socketPath: string, ser: Serializer)
    ensures HasBody(e) && !Truthy(Get(EventHeaders(e), ContentLength)) ==>
      var v := Get(MapRequest(e, context, socketPath, ser).headers, ContentLength);
      v == Some(Decimal(|EventBody(e)|)) && DigitsValue(v.value) == |EventBody(e)|
    ensures !(HasBody(e) && !Truthy(Get(EventHeaders(e), ContentLength))) ==>
      Get(MapRequest(e, context, socketPath, ser).headers, ContentLength) == Get(EventHeaders(e), ContentLength)
  {
    if HasBody(e) {
      DecimalValue(|EventBody(e)|);
    }
  }

  /** The value of the event header is the escaped serialisation of the event without its body. */
  lemma CarriedHeaders(e: GatewayEvent, context: Json, socketPath: string, ser: Serializer)
    ensures Get(MapRequest(e, context, socketPath, ser).headers, EventHeader) == Some(UriComponent.Encode(ser.stringify(EventWithoutBody(e))))
    ensures Get(MapRequest(e, context, socketPath, ser).headers, ContextHeader) == Some(UriComponent.Encode(ser.stringify(context)))
  {
  }
}
