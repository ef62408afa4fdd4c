/**
 * The records that cross the bridge: the API Gateway proxy event, the HTTP
 * request the bridge makes of the local server, the server's response as it
 * arrives, and the reply handed back to the function runtime.
 */
module Gateway {
  import opened Wrappers
  import opened JsObject
  import opened Json

  /** A property of a JavaScript object that may be missing, `null`, or hold a value. */
  datatype Field<T> = Absent | Null | Present(value: T)

  /**
   * An API Gateway proxy event. The six properties the bridge reads are
   * fields; every other property (`resource`, `requestContext`,
   * `pathParameters`, ...) is in `others`. An event the gateway sends keeps
   * `WellFormed`: the names in `others` are distinct and none of the six, and
   * their values are valid JSON.
   */
  datatype GatewayEvent = GatewayEvent(
    path: string,
    httpMethod: string,
    headers: Field<Obj<string>>,
    queryStringParameters: Field<Obj<string>>,
    body: Field<string>,
    isBase64Encoded: Field<bool>,
    others: seq<(string, Json)>)

  /** A property as a JSON member: none when it is missing, `null` when it is `null`. */
  function FieldJson<T>(name: string, f: Field<T>, value: T -> Json): (r: seq<(string, Json)>)
    ensures |r| <= 1 && forall i :: 0 <= i < |r| ==> r[i].0 == name
  {
    match f
      case Absent => []
      case Null => [(name, JNull)]
      case Present(v) => [(name, value(v))]
  }

  /** The names of the six properties the bridge reads. */
  const FieldNames: set<string> := {"path", "httpMethod", "headers", "queryStringParameters", "body", "isBase64Encoded"}

  /**
   * The event is a JavaScript object: `others` repeats no name, its own or one
   * of the six, and holds valid JSON values.
   */
  predicate WellFormed(e: GatewayEvent)
  {
    DistinctKeys(e.others) && (forall i :: 0 <= i < |e.others| ==> e.others[i].0 !in FieldNames)
    && ValidMembers(e.others)
  }

  /** The members for the six properties the bridge reads, in the order of the datatype. */
  function FieldMembers(e: GatewayEvent): seq<(string, Json)>
  {
    [("path", JStr(e.path)), ("httpMethod", JStr(e.httpMethod))]
      + FieldJson("headers", e.headers, (h: Obj<string>) => JObj(StringMembers(h)))
      + FieldJson("queryStringParameters", e.queryStringParameters, (q: Obj<string>) => JObj(StringMembers(q)))
      + FieldJson("body", e.body, (b: string) => JStr(b))
      + FieldJson("isBase64Encoded", e.isBase64Encoded, (b: bool) => JBool(b))
  }

  /** The event as a JSON object; a missing property is left out, as `JSON.stringify` leaves out `undefined`. */
  function EventJson(e: GatewayEvent): (j: Json)
    ensures j.JObj?
  {
    JObj(FieldMembers(e) + e.others)
  }

  /** A well-formed event serialises to a valid object: distinct member names, valid values. */
  lemma EventJsonValid(e: GatewayEvent)
    requires WellFormed(e)
    ensures Valid(EventJson(e))
  {
    FieldMembersDistinct(e);
    FieldMembersValid(e);
    var fixed := FieldMembers(e);
    var m := fixed + e.others;
    forall i, j | 0 <= i < j < |m|
      ensures m[i].0 != m[j].0
    {
      if j >= |fixed| {
        assert m[j] == e.others[j - |fixed|];
        if i >= |fixed| {
          assert m[i] == e.others[i - |fixed|];
        }
      }
    }
    ValidMembersAppend(fixed, e.others);
  }

  /** The six members hold valid values: strings, booleans, `null`, and string-valued objects. */
  lemma FieldMembersValid(e: GatewayEvent)
    ensures ValidMembers(FieldMembers(e))
  {
    var m0: seq<(string, Json)> := [("path", JStr(e.path)), ("httpMethod", JStr(e.httpMethod))];
    var p1 := FieldJson("headers", e.headers, (h: Obj<string>) => JObj(StringMembers(h)));
    var p2 := FieldJson("queryStringParameters", e.queryStringParameters, (q: Obj<string>) => JObj(StringMembers(q)));
    var p3 := FieldJson("body", e.body, (b: string) => JStr(b));
    var p4 := FieldJson("isBase64Encoded", e.isBase64Encoded, (b: bool) => JBool(b));
    if e.headers.Present? {
      StringMembersValid(e.headers.value);
    }
    if e.queryStringParameters.Present? {
      StringMembersValid(e.queryStringParameters.value);
    }
    assert ValidMembers(m0) && ValidMembers(p1) && ValidMembers(p2) && ValidMembers(p3) && ValidMembers(p4);
    ValidMembersAppend(m0, p1);
    ValidMembersAppend(m0 + p1, p2);
    ValidMembersAppend(m0 + p1 + p2, p3);
    ValidMembersAppend(m0 + p1 + p2 + p3, p4);
  }

  /** The six members have distinct names, all among the six. */
  lemma FieldMembersDistinct(e: GatewayEvent)
    ensures var m := FieldMembers(e);
      DistinctKeys(m) && forall i :: 0 <= i < |m| ==> m[i].0 in FieldNames
  {
    var m0: seq<(string, Json)> := [("path", JStr(e.path)), ("httpMethod", JStr(e.httpMethod))];
    var m1 := m0 + FieldJson("headers", e.headers, (h: Obj<string>) => JObj(StringMembers(h)));
    var m2 := m1 + FieldJson("queryStringParameters", e.queryStringParameters, (q: Obj<string>) => JObj(StringMembers(q)));
    var m3 := m2 + FieldJson("body", e.body, (b: string) => JStr(b));
    var m4 := m3 + FieldJson("isBase64Encoded", e.isBase64Encoded, (b: bool) => JBool(b));
    AppendField(m0, {"path", "httpMethod"}, "headers", m1[|m0|..]);
    AppendField(m1, {"path", "httpMethod", "headers"}, "queryStringParameters", m2[|m1|..]);
    AppendField(m2, {"path", "httpMethod", "headers", "queryStringParameters"}, "body", m3[|m2|..]);
    AppendField(m3, {"path", "httpMethod", "headers", "queryStringParameters", "body"}, "isBase64Encoded", m4[|m3|..]);
    assert m4 == FieldMembers(e);
  }

  /** Appending at most one member under a name not yet used keeps the names distinct. */
  lemma AppendField(a: seq<(string, Json)>, names: set<string>, name: string, piece: seq<(string, Json)>)
    requires DistinctKeys(a) && (forall i :: 0 <= i < |a| ==> a[i].0 in names) && name !in names
    requires |piece| <= 1 && forall i :: 0 <= i < |piece| ==> piece[i].0 == name
    ensures DistinctKeys(a + piece) && forall i :: 0 <= i < |a + piece| ==> (a + piece)[i].0 in names + {name}
  {
  }

  /** The options object given to `http.request`; `httpMethod` is its `method`. */
  datatype HttpRequest = HttpRequest(httpMethod: string, path: string, headers: Obj<string>, socketPath: string)

  /** A header of an incoming response: a string, or an array of strings. */
  datatype HeaderValue = Single(s: string) | Multi(vs: seq<string>)

  /**
   * The object passed to `resolver.succeed` as `response`. Error replies have
   * no `isBase64Encoded` property, successful ones always have it.
   */
  datatype Reply = Reply(statusCode: int, body: string, headers: Obj<HeaderValue>, isBase64Encoded: Option<bool>)
}
