/**
 * The server side of the bridge: the error replies, one forwarding of an
 * event to the local server (`forwardRequestToNodeServer`), and the managed
 * server with its listening state, its socket suffix and the `proxy` entry
 * point (`createServer`, `startServer`, `proxy`).
 *
 * Sockets are not modelled. What the network does with one forwarded request
 * is an `Exchange` given as a parameter, and the server's events (`listening`,
 * `close`, `error`) are methods that the environment calls. The class keeps
 * the log of what the bridge asked of the network: the addresses passed to
 * `server.listen` and the requests forwarded, each with its socket path.
 */
module Server {
  import opened Wrappers
  import opened Octets
  import opened JsObject
  import opened Json
  import opened Gateway
  import opened Mapper
  import Collector
  import Resolver
  import TypeIs

  // --------------------------------------------------------- error replies

  /** The reply that stands for a failure: a status, an empty body, no headers. */
  function ErrorReply(statusCode: int): Reply
  {
    Reply(statusCode, "", [], None)
  }

  /**
   * `forwardConnectionErrorResponseToApiGateway`: a 502 reply with an empty
   * body and no headers goes through the resolver, and it is delivered
   * whenever the resolver can deliver anything.
   */
  function ForwardConnectionError(p: Resolver.Params<Reply, Json>): (d: Resolver.Delivery<Reply, Json>)
    ensures d.Delivered? ==> d.response == Reply(502, "", [], None)
    ensures p.context != Null && Resolver.OffersAny(p) ==> d.Delivered?
  {
    Resolver.Succeed(p, ErrorReply(502))
  }

  /** `forwardLibraryErrorResponseToApiGateway`: the same, with status 500. */
  function ForwardLibraryError(p: Resolver.Params<Reply, Json>): (d: Resolver.Delivery<Reply, Json>)
    ensures d.Delivered? ==> d.response == Reply(500, "", [], None)
    ensures p.context != Null && Resolver.OffersAny(p) ==> d.Delivered?
  {
    Resolver.Succeed(p, ErrorReply(500))
  }

  // ------------------------------------------------------------ forwarding

  /** One call of the bridge: the event, the context as JSON, and the resolver built for it. */
  datatype Invocation = Invocation(event: GatewayEvent, context: Json, resolver: Resolver.Params<Reply, Json>)

  /**
   * What the network did with one forwarded request: the local server
   * answered (its status, its header table as Node parsed it, and the body
   * chunks in arrival order), the request failed at the connection level, or
   * building the request threw.
   */
  datatype Exchange =
    | Responded(statusCode: int, headers: Obj<HeaderValue>, chunks: seq<seq<Byte>>)
    | ConnectionFailed
    | RequestThrew

  /** The request written to the socket: the options of `http.request` and the body bytes. */
  datatype SentRequest = SentRequest(options: HttpRequest, body: seq<Byte>)

  /** The reply an exchange ends in. */
  function ReplyFor(x: Exchange, binaryTypes: seq<string>, lookup: TypeIs.MimeLookup): Reply
  {
    match x
      case Responded(status, headers, chunks) =>
        Collector.SuccessReply(status, chunks, Collector.FinalHeaders(headers), binaryTypes, lookup)
      case ConnectionFailed => ErrorReply(502)
      case RequestThrew => ErrorReply(500)
  }

  /**
   * `forwardRequestToNodeServer`: the event is mapped to a request on the
   * socket of `suffix`, the body (if truthy) is written as the request body,
   * and the reply the exchange ends in is delivered through the invocation's
   * resolver, exactly once.
   */
  method ForwardRequest(binaryTypes: seq<string>, lookup: TypeIs.MimeLookup, suffix: string, inv: Invocation, ser: Serializer, x: Exchange)
    returns (sent: Option<SentRequest>, delivery: Resolver.Delivery<Reply, Json>)
    ensures sent.None? <==> x.RequestThrew?
    ensures sent.Some? ==> sent.value.options == MapRequest(inv.event, inv.context, SocketPath(suffix), ser)
    ensures sent.Some? ==> sent.value.body == if HasBody(inv.event) then EventBody(inv.event) else []
    ensures delivery == Resolver.Succeed(inv.resolver, ReplyFor(x, binaryTypes, lookup))
  {
    var options := MapRequest(inv.event, inv.context, SocketPath(suffix), ser);
    match x {
      case RequestThrew =>
        sent := None;
        delivery := ForwardLibraryError(inv.resolver);
      case ConnectionFailed =>
        var body := if HasBody(inv.event) then EventBody(inv.event) else [];
        sent := Some(SentRequest(options, body));
        delivery := ForwardConnectionError(inv.resolver);
      case Responded(status, headers, chunks) =>
        var body := if HasBody(inv.event) then EventBody(inv.event) else [];
        sent := Some(SentRequest(options, body));
        var reply := CollectResponse(binaryTypes, lookup, status, headers, chunks);
        delivery := Resolver.Succeed(inv.resolver, reply);
    }
  }

  /**
   * `forwardResponseToApiGateway` on a response of the local server: its
   * chunks are collected as they arrive, and at the end the reply is built
   * from the collected body and the cleaned-up headers.
   */
  method CollectResponse(binaryTypes: seq<string>, lookup: TypeIs.MimeLookup, status: int, headers: Obj<HeaderValue>, chunks: seq<seq<Byte>>)
    returns (reply: Reply)
    ensures reply == Collector.SuccessReply(status, chunks, Collector.FinalHeaders(headers), binaryTypes, lookup)
  {
    var response := new Collector.IncomingResponse(status, headers);
    var collector := new Collector.ResponseCollector(binaryTypes, lookup);
    var i := 0;
    while i < |chunks|
      invariant 0 <= i <= |chunks|
      invariant collector.buf == chunks[..i]
      invariant fresh(collector) && collector.binaryTypes == binaryTypes && collector.lookup == lookup
      invariant response.statusCode == status && response.headers == headers
    {
      collector.OnData(chunks[i]);
      assert chunks[..i + 1] == chunks[..i] + [chunks[i]];
      i := i + 1;
    }
    assert chunks[..|chunks|] == chunks;
    reply := collector.OnEnd(response);
  }

  /**
   * Whatever happens on the network, a forwarding whose resolver can deliver
   * delivers exactly one reply: the collected response, a 502, or a 500.
   */
  lemma ForwardingResolves(x: Exchange, binaryTypes: seq<string>, lookup: TypeIs.MimeLookup, p: Resolver.Params<Reply, Json>)
    requires p.context != Null && Resolver.OffersAny(p)
    ensures Resolver.Succeed(p, ReplyFor(x, binaryTypes, lookup)).Delivered?
    ensures x.ConnectionFailed? ==> Resolver.Succeed(p, ReplyFor(x, binaryTypes, lookup)).response.statusCode == 502
    ensures x.RequestThrew? ==> Resolver.Succeed(p, ReplyFor(x, binaryTypes, lookup)).response.statusCode == 500
    ensures x.Responded? ==> Resolver.Succeed(p, ReplyFor(x, binaryTypes, lookup)).response.statusCode == x.statusCode
  {
  }

  // ---------------------------------------------------------------- server

  const AddressInUse := "EADDRINUSE"

  /** One call of `forwardRequestToNodeServer`, with the socket path it used. */
  datatype Forwarding = Forwarding(invocation: Invocation, socketPath: string)

  /** What `proxy` returns: a promise when no callback was given, else the server. */
  datatype ProxyReturn = ReturnsPromise | ReturnsServer

  /** The forwardings of `invs`, in order, all to `path`. */
  function ForwardAll(invs: seq<Invocation>, path: string): (fs: seq<Forwarding>)
    ensures |fs| == |invs|
    ensures forall i :: 0 <= i < |invs| ==> fs[i] == Forwarding(invs[i], path)
  {
    seq(|invs|, i requires 0 <= i < |invs| => Forwarding(invs[i], path))
  }

  /**
   * The HTTP server `createServer` returns, with the fields the bridge adds to
   * it. `listeners` are the `listening` handlers `proxy` registered; they are
   * registered with `on`, so they stay and run on every later `listening`.
   */
  class ManagedServer {
    const binaryTypes: seq<string>
    const hasListenCallback: bool
    var socketPathSuffix: string
    var isListening: bool
    var listenCallbackCalls: nat
    var listenRequests: seq<string>
    var listeners: seq<Invocation>
    var forwarded: seq<Forwarding>

    /**
     * A listening server listens on the address of its current suffix, the
     * last one it was asked to listen on, and every request went to an
     * address the server was asked to listen on.
     */
    ghost predicate Valid()
      reads this
    {
      && (isListening ==> |listenRequests| > 0 && listenRequests[|listenRequests| - 1] == SocketPath(socketPathSuffix))
      && forall i :: 0 <= i < |forwarded| ==> forwarded[i].socketPath in listenRequests
    }

    /**
     * `createServer(requestListener, serverListenCallback, binaryTypes)`: a
     * copy of the binary types, or none; the given random suffix; not yet
     * listening.
     */
    constructor (binaryTypes: Option<seq<string>>, hasListenCallback: bool, suffix: string)
      ensures Valid()
      ensures this.binaryTypes == (if binaryTypes.Some? then binaryTypes.value else [])
      ensures this.hasListenCallback == hasListenCallback && socketPathSuffix == suffix
      ensures !isListening && listenCallbackCalls == 0
      ensures listenRequests == [] && listeners == [] && forwarded == []
    {
      this.binaryTypes := if binaryTypes.Some? then binaryTypes.value else [];
      this.hasListenCallback := hasListenCallback;
      socketPathSuffix := suffix;
      isListening := false;
      listenCallbackCalls := 0;
      listenRequests := [];
      listeners := [];
      forwarded := [];
    }

    /**
     * The `listening` event, which Node emits once the last `listen` call has
     * bound its address: the server is marked listening, the listen callback
     * runs, then every handler `proxy` registered forwards its invocation.
     */
    method OnListening()
      requires Valid()
      requires |listenRequests| > 0 && listenRequests[|listenRequests| - 1] == SocketPath(socketPathSuffix)
      modifies this
      ensures Valid() && isListening
      ensures forwarded == old(forwarded) + ForwardAll(listeners, SocketPath(socketPathSuffix))
      ensures listenCallbackCalls == old(listenCallbackCalls) + (if hasListenCallback then 1 else 0)
      ensures socketPathSuffix == old(socketPathSuffix) && listenRequests == old(listenRequests)
      ensures listeners == old(listeners)
    {
      isListening := true;
      if hasListenCallback {
        listenCallbackCalls := listenCallbackCalls + 1;
      }
      var path := SocketPath(socketPathSuffix);
      var i := 0;
      while i < |listeners|
        invariant 0 <= i <= |listeners|
        invariant isListening && Valid()
        invariant socketPathSuffix == old(socketPathSuffix) && listenRequests == old(listenRequests)
        invariant listeners == old(listeners) && path == SocketPath(socketPathSuffix)
        invariant listenCallbackCalls == old(listenCallbackCalls) + (if hasListenCallback then 1 else 0)
        invariant forwarded == old(forwarded) + ForwardAll(listeners[..i], path)
      {
        assert ForwardAll(listeners[..i + 1], path) == ForwardAll(listeners[..i], path) + [Forwarding(listeners[i], path)];
        forwarded := forwarded + [Forwarding(listeners[i], path)];
        i := i + 1;
      }
      assert listeners[..|listeners|] == listeners;
    }

    /** The `close` event: the server is no longer listening. */
    method OnClose()
      requires Valid()
      modifies this`isListening
      ensures Valid() && !isListening
    {
      isListening := false;
    }

    /**
     * The `error` event. On `EADDRINUSE` the server takes the new suffix,
     * closes (its `close` handler marks it not listening) and listens again
     * on the address of the new suffix; any other error is only logged.
     */
    method OnError(code: string, freshSuffix: string)
      requires Valid()
      requires code == AddressInUse ==> freshSuffix != socketPathSuffix
      modifies this
      ensures Valid()
      ensures code == AddressInUse ==>
        && socketPathSuffix == freshSuffix && !isListening
        && listenRequests == old(listenRequests) + [SocketPath(freshSuffix)]
      ensures code != AddressInUse ==>
        socketPathSuffix == old(socketPathSuffix) && isListening == old(isListening) && listenRequests == old(listenRequests)
      ensures listeners == old(listeners) && forwarded == old(forwarded)
      ensures listenCallbackCalls == old(listenCallbackCalls)
    {
      if code == AddressInUse {
        socketPathSuffix := freshSuffix;
        isListening := false;
        StartServer();
      }
    }

    /** `startServer(server)`: listen on the address of the current suffix. */
    method StartServer()
      requires Valid() && !isListening
      modifies this`listenRequests
      ensures Valid()
      ensures listenRequests == old(listenRequests) + [SocketPath(socketPathSuffix)]
    {
      listenRequests := listenRequests + [SocketPath(socketPathSuffix)];
    }

    /**
     * `proxy(server, event, context, callback)`. A listening server forwards
     * the invocation at once, to the address of its suffix; otherwise the
     * server is started and the invocation waits for `listening`. No request
     * is forwarded while the server is not listening.
     */
    method Proxy(event: GatewayEvent, context: Json, contextSucceed: Field<Option<Reply -> Json>>, callback: Option<Reply -> Json>)
      returns (ret: ProxyReturn)
      requires Valid()
      modifies this`listenRequests, this`listeners, this`forwarded
      ensures Valid()
      ensures ret == if callback.None? then ReturnsPromise else ReturnsServer
      ensures var inv := Invocation(event, context, Resolver.ProxyParams(contextSucceed, callback));
        if isListening then
          && forwarded == old(forwarded) + [Forwarding(inv, SocketPath(socketPathSuffix))]
          && listeners == old(listeners) && listenRequests == old(listenRequests)
        else
          && forwarded == old(forwarded)
          && listeners == old(listeners) + [inv]
          && listenRequests == old(listenRequests) + [SocketPath(socketPathSuffix)]
    {
      var inv := Invocation(event, context, Resolver.ProxyParams(contextSucceed, callback));
      if isListening {
        forwarded := forwarded + [Forwarding(inv, SocketPath(socketPathSuffix))];
      } else {
        StartServer();
        listeners := listeners + [inv];
      }
      ret := if callback.None? then ReturnsPromise else ReturnsServer;
    }
  }

  /**
   * The contention case of the integration tests: a server created with a
   * suffix whose socket is taken gets `EADDRINUSE` on its first listen,
   * rebinds to a new suffix, becomes listening and forwards the waiting
   * invocation exactly once, to the new address, which differs from the
   * taken one.
   */
  method AddressInUseRecovery(event: GatewayEvent, context: Json, succeed: Reply -> Json, taken: string, newSuffix: string)
    returns (listening: bool, sentTo: seq<string>)
    requires newSuffix != taken
    ensures listening
    ensures sentTo == [SocketPath(newSuffix)] && SocketPath(newSuffix) != SocketPath(taken)
  {
    var server := new ManagedServer(None, false, taken);
    var _ := server.Proxy(event, context, Present(Some(succeed)), None);
    server.OnError(AddressInUse, newSuffix);
    server.OnListening();
    listening := server.isListening;
    sentTo := seq(|server.forwarded|, i requires 0 <= i < |server.forwarded| reads server => server.forwarded[i].socketPath);
    if SocketPath(newSuffix) == SocketPath(taken) {
      SocketPathInjective(newSuffix, taken);
    }
  }

  /**
   * The `listening` handlers of `proxy` are never removed: an invocation that
   * once waited for the server is forwarded again on every later `listening`.
   * After a close and a restart caused by a second invocation, the first one
   * has been forwarded twice.
   */
  method RestartForwardsAgain(first: GatewayEvent, second: GatewayEvent, context: Json, succeed: Reply -> Json, suffix: string)
    returns (sentEvents: seq<GatewayEvent>)
    ensures sentEvents == [first, first, second]
  {
    var server := new ManagedServer(None, false, suffix);
    var _ := server.Proxy(first, context, Present(Some(succeed)), None);
    server.OnListening();
    server.OnClose();
    var _ := server.Proxy(second, context, Present(Some(succeed)), None);
    server.OnListening();
    sentEvents := seq(|server.forwarded|, i requires 0 <= i < |server.forwarded| reads server => server.forwarded[i].invocation.event);
  }
}
