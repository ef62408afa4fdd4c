/**
 * A JavaScript plain object with string keys, as the bridge uses it for header
 * tables: an association list, in the order `Object.keys` reports, whose keys
 * are pairwise distinct. Assigning to a present key keeps its position;
 * assigning to a new key appends it; `delete` removes it. That is the order
 * `Object.keys` gives for keys that are not array indices, and every key the
 * bridge assigns (`Content-Length`, the two `x-apigateway-*` headers, the
 * `set-cookie` variants) is one of those.
 */
module JsObject {
  import opened Wrappers

  predicate DistinctKeys<V>(o: seq<(string, V)>)
  {
    forall i, j :: 0 <= i < j < |o| ==> o[i].0 != o[j].0
  }

  type Obj<V> = o: seq<(string, V)> | DistinctKeys(o) witness []

  /** `Object.keys(o)`. */
  function Keys<V>(o: seq<(string, V)>): (ks: seq<string>)
    ensures |ks| == |o|
    ensures forall i :: 0 <= i < |o| ==> ks[i] == o[i].0
  {
    seq(|o|, i requires 0 <= i < |o| => o[i].0)
  }

  /** `o[k]`, with None for `undefined`. */
  function Get<V>(o: seq<(string, V)>, k: string): Option<V>
  {
    if o == [] then None else if o[0].0 == k then Some(o[0].1) else Get(o[1..], k)
  }

  predicate Has<V>(o: seq<(string, V)>, k: string)
  {
    Get(o, k).Some?
  }

  /** A key is present exactly when some entry carries it. */
  lemma {:induction false} HasIff<V>(o: seq<(string, V)>, k: string)
    ensures Has(o, k) <==> exists i :: 0 <= i < |o| && o[i].0 == k
  {
    if o != [] {
      HasIff(o[1..], k);
      if o[0].0 != k && Has(o, k) {
        var i :| 0 <= i < |o[1..]| && o[1..][i].0 == k;
        assert o[i + 1].0 == k;
      }
      if exists i :: 0 <= i < |o| && o[i].0 == k {
        var i :| 0 <= i < |o| && o[i].0 == k;
        if o[0].0 != k {
          assert o[1..][i - 1].0 == k;
        }
      }
    }
  }

  /** A key is present exactly when `Object.keys` lists it. */
  lemma HasKeys<V>(o: seq<(string, V)>, k: string)
    ensures Has(o, k) <==> k in Keys(o)
  {
    HasIff(o, k);
    if k in Keys(o) {
      var i :| 0 <= i < |Keys(o)| && Keys(o)[i] == k;
      assert o[i].0 == k;
    }
  }

  /** In an object, looking up the key of an entry gives that entry's value. */
  lemma {:induction false} GetAt<V>(o: Obj<V>, i: nat)
    requires i < |o|
    ensures Get(o, o[i].0) == Some(o[i].1)
  {
    if i > 0 {
      assert o[0].0 != o[i].0;
      GetAt(o[1..], i - 1);
    }
  }

  /** Putting an entry in front of an object whose keys avoid its key gives an object. */
  lemma ConsDistinct<V>(e: (string, V), rest: Obj<V>)
    requires !Has(rest, e.0)
    ensures DistinctKeys([e] + rest)
  {
    HasIff(rest, e.0);
    var r := [e] + rest;
    forall i, j | 0 <= i < j < |r| ensures r[i].0 != r[j].0 {
      if i > 0 {
        assert r[i] == rest[i - 1] && r[j] == rest[j - 1];
      }
    }
  }

  /** The tail of an object is an object without the head's key. */
  lemma TailLacksHead<V>(o: Obj<V>)
    requires o != []
    ensures DistinctKeys(o[1..]) && !Has(o[1..], o[0].0)
  {
    HasIff(o[1..], o[0].0);
  }

  /** `o[k] = v`: the value of `k` becomes `v` and no other key changes. */
  function Set<V>(o: Obj<V>, k: string, v: V): (r: Obj<V>)
    ensures Get(r, k) == Some(v)
    ensures forall x :: x != k ==> Get(r, x) == Get(o, x)
  {
    if o == [] then [(k, v)]
    else if o[0].0 == k then
      TailLacksHead(o);
      [(k, v)] + o[1..]
    else
      TailLacksHead(o);
      var rest := Set(o[1..], k, v);
      ConsDistinct(o[0], rest);
      [o[0]] + rest
  }

  /** The keys of an entry put in front are that entry's key, then the rest's keys. */
  lemma KeysCons<V>(e: (string, V), rest: seq<(string, V)>)
    ensures Keys([e] + rest) == [e.0] + Keys(rest)
  {
  }

  /** Assigning keeps the key order, appending a key that was absent. */
  lemma {:induction false} SetKeys<V>(o: Obj<V>, k: string, v: V)
    ensures Keys(Set(o, k, v)) == if Has(o, k) then Keys(o) else Keys(o) + [k]
  {
    if o == [] {
      assert Set(o, k, v) == [(k, v)];
    } else {
      TailLacksHead(o);
      var tail: Obj<V> := o[1..];
      assert o == [o[0]] + tail;
      KeysCons(o[0], tail);
      if o[0].0 == k {
        assert Set(o, k, v) == [(k, v)] + tail;
        KeysCons((k, v), tail);
      } else {
        var rest := Set(tail, k, v);
        assert Set(o, k, v) == [o[0]] + rest;
        SetKeys(tail, k, v);
        KeysCons(o[0], rest);
        assert Has(o, k) == Has(tail, k);
      }
    }
  }

  /** `delete o[k]`: `k` becomes absent and no other key changes. */
  function Delete<V>(o: Obj<V>, k: string): (r: Obj<V>)
    ensures Get(r, k) == None
    ensures forall x :: x != k ==> Get(r, x) == Get(o, x)
  {
    if o == [] then []
    else if o[0].0 == k then
      TailLacksHead(o);
      o[1..]
    else
      TailLacksHead(o);
      var rest := Delete(o[1..], k);
      ConsDistinct(o[0], rest);
      [o[0]] + rest
  }

  /** `Object.assign({}, o)` where `o` may be undefined or null: a copy, or `{}`. */
  function AssignFrom<V>(o: Option<Obj<V>>): (r: Obj<V>)
    ensures forall x :: Get(r, x) == (if o.Some? then Get(o.value, x) else None)
  {
    if o.Some? then o.value else []
  }
}
