/**
 * JSON values and the `JSON.stringify`/`JSON.parse` pair, kept abstract.
 * A serializer is a pair of functions. The property the bridge relies on,
 * that parsing what was stringified gives the value back, is the predicate
 * `Faithful`, which the lemmas that need it take as a precondition. It is
 * promised only for `Valid` values, whose objects repeat no member name:
 * `JSON.parse` keeps the last of repeated names, so `{"a":1,"a":2}` reads
 * back as `{"a":2}`.
 */
module Json {
  import opened Wrappers
  import JsObject

  datatype Json =
    | JNull
    | JBool(b: bool)
    | JNum(n: int)
    | JStr(s: string)
    | JArr(items: seq<Json>)
    | JObj(members: seq<(string, Json)>)

  datatype Serializer = Serializer(stringify: Json -> string, parse: string -> Option<Json>)

  /** A value a JavaScript object can hold: at every level, an object's member names are distinct. */
  predicate Valid(j: Json)
  {
    match j
      case JArr(items) => forall i :: 0 <= i < |items| ==> Valid(items[i])
      case JObj(members) =>
        JsObject.DistinctKeys(members) && forall i :: 0 <= i < |members| ==> Valid(members[i].1)
      case _ => true
  }

  /** Every member's value is valid. */
  predicate ValidMembers(members: seq<(string, Json)>)
  {
    forall i :: 0 <= i < |members| ==> Valid(members[i].1)
  }

  /** An object that repeats a name is not valid, whatever the two values. */
  lemma RepeatedNameInvalid(name: string, x: Json, y: Json)
    ensures !Valid(JObj([(name, x), (name, y)]))
  {
    var m := [(name, x), (name, y)];
    assert m[0].0 == m[1].0;
  }

  lemma ValidMembersAppend(a: seq<(string, Json)>, b: seq<(string, Json)>)
    requires ValidMembers(a) && ValidMembers(b)
    ensures ValidMembers(a + b)
  {
    forall i | 0 <= i < |a + b|
      ensures Valid((a + b)[i].1)
    {
      if i >= |a| {
        assert (a + b)[i] == b[i - |a|];
      }
    }
  }

  /**
   * `JSON.stringify` never gives the empty text, and `JSON.parse(JSON.stringify(j))`
   * is `j` for every valid `j`.
   */
  ghost predicate Faithful(ser: Serializer)
  {
    forall j :: ser.stringify(j) != "" && (Valid(j) ==> ser.parse(ser.stringify(j)) == Some(j))
  }

  /** A string-valued object as the members of a JSON object, in key order. */
  function StringMembers(o: seq<(string, string)>): seq<(string, Json)>
  {
    seq(|o|, i requires 0 <= i < |o| => (o[i].0, JStr(o[i].1)))
  }

  /** A string-valued object with distinct keys is a valid JSON object. */
  lemma StringMembersValid(o: seq<(string, string)>)
    requires JsObject.DistinctKeys(o)
    ensures Valid(JObj(StringMembers(o)))
  {
    var m := StringMembers(o);
    assert forall i :: 0 <= i < |m| ==> m[i].0 == o[i].0;
  }
}
