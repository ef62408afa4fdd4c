/**
 * `makeResolver`: the one object through which every reply of the bridge is
 * delivered. Its `succeed` hands the response to the first capability the
 * caller supplied, in a fixed order: the Lambda context's `succeed`, then a
 * promise's `resolve`, then a Node-style `callback(null, response)`.
 *
 * A capability is a function from the response to what the caller's code
 * returns; the `resolve` of a promise returns `undefined`, so only its
 * presence matters.
 */
module Resolver {
  import opened Wrappers
  import opened Gateway

  /**
   * The parameters of `makeResolver`. `context` is a missing property (then
   * `{}` is used), `null`, or an object whose `succeed` property may be
   * missing; `promise` says whether a `{resolve, reject}` pair was given.
   */
  datatype Params<!T, V> = Params(context: Field<Option<T -> V>>, callback: Option<T -> V>, promise: bool)

  /** The three ways of delivering a reply. */
  datatype Target = ContextSucceed | PromiseResolve | NodeCallback

  /**
   * What one call of `resolver.succeed` did: one delivery and the value it
   * returned (None for `undefined`), nothing at all when no capability was
   * supplied, or the `TypeError` of reading `succeed` from a `null` context.
   */
  datatype Delivery<T, V> =
    | Delivered(target: Target, response: T, returned: Option<V>)
    | NothingDelivered
    | Threw

  /** The order in which the capabilities are tried. */
  function Rank(t: Target): nat
  {
    match t
      case ContextSucceed => 0
      case PromiseResolve => 1
      case NodeCallback => 2
  }

  /** The `succeed` of the context object, when there is a context object and it has one. */
  function ContextSucceedOf<T, V>(p: Params<T, V>): Option<T -> V>
  {
    if p.context.Present? then p.context.value else None
  }

  /** Whether the caller supplied capability `t`. */
  predicate Offers<T, V>(p: Params<T, V>, t: Target)
  {
    match t
      case ContextSucceed => ContextSucceedOf(p).Some?
      case PromiseResolve => p.promise
      case NodeCallback => p.callback.Some?
  }

  /** Whether the caller supplied any capability at all. */
  predicate OffersAny<T, V>(p: Params<T, V>)
  {
    Offers(p, ContextSucceed) || Offers(p, PromiseResolve) || Offers(p, NodeCallback)
  }

  /**
   * `makeResolver(params).succeed({ response })`. The response is delivered
   * unchanged, to the supplied capability that ranks first, and the value the
   * capability returned is passed back; a context that is `null` throws.
   */
  function Succeed<T, V>(p: Params<T, V>, response: T): (d: Delivery<T, V>)
    ensures d == Threw <==> p.context == Null
    ensures d.Delivered? <==> p.context != Null && OffersAny(p)
    ensures d.Delivered? ==> d.response == response && Offers(p, d.target)
    ensures d.Delivered? ==> forall t :: Offers(p, t) ==> Rank(d.target) <= Rank(t)
    ensures d.Delivered? && d.target == ContextSucceed ==> d.returned == Some(ContextSucceedOf(p).value(response))
    ensures d.Delivered? && d.target == PromiseResolve ==> d.returned == None
    ensures d.Delivered? && d.target == NodeCallback ==> d.returned == Some(p.callback.value(response))
  {
    if p.context == Null then Threw
    else
      var succeed := ContextSucceedOf(p);
      if succeed.Some? then Delivered(ContextSucceed, response, Some(succeed.value(response)))
      else if p.promise then Delivered(PromiseResolve, response, None)
      else if p.callback.Some? then Delivered(NodeCallback, response, Some(p.callback.value(response)))
      else NothingDelivered
  }

  /**
   * The resolver `proxy` builds: with no callback, one around the promise it
   * returns; with a callback, one around the callback.
   */
  function ProxyParams<T, V>(context: Field<Option<T -> V>>, callback: Option<T -> V>): (p: Params<T, V>)
    ensures p.context == context && p.callback == callback
    ensures p.promise <==> callback.None?
  {
    if callback.None? then Params(context, None, true) else Params(context, callback, false)
  }

  /**
   * A resolver built by `proxy` from a context that is not `null` always
   * delivers: the promise or the callback is there when the context has no
   * `succeed`.
   */
  lemma ProxyAlwaysDelivers<T, V>(context: Field<Option<T -> V>>, callback: Option<T -> V>, response: T)
    requires context != Null
    ensures Succeed(ProxyParams(context, callback), response).Delivered?
    ensures Succeed(ProxyParams(context, callback), response).response == response
  {
  }

  /**
   * A context with `succeed` wins even when `proxy` made a promise: the reply
   * goes to `context.succeed` and the promise `proxy` returned never settles.
   */
  lemma ContextWinsOverPromise<T, V>(succeed: T -> V, response: T)
    ensures Succeed(ProxyParams(Present(Some(succeed)), None), response)
      == Delivered(ContextSucceed, response, Some(succeed(response)))
  {
  }

  /** The callback variant returns what the callback returns, as `succeed` passes it back. */
  lemma CallbackResult<T, V>(callback: T -> V, response: T)
    ensures Succeed(Params(Absent, Some(callback), false), response)
      == Delivered(NodeCallback, response, Some(callback(response)))
  {
  }
}
