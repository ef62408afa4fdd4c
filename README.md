# micro-lambda bridge, modelled in Dafny

micro-lambda runs an ordinary Node.js HTTP request handler inside an AWS
Lambda invocation. The bridge (`micro-lambda/utils.js`) starts a local HTTP
server on a UNIX socket, turns each API Gateway proxy event into an HTTP
request to that server, collects the response, and hands an API Gateway
reply back through whichever delivery mechanism the caller supplied: the
context's `succeed`, a promise, or a Node-style callback. On the far side,
`withEventContext` (`src/withEventContext.js`) reads the event and context
back out of the two `x-apigateway-*` headers the bridge adds.

The project has these modules, one per file:

- `Wrappers`, `Octets`, `Text`, `JsObject`: optional values, bytes and
  `Buffer.concat`, string helpers, and JavaScript plain objects. A plain object
  is a list with distinct keys, in the order `Object.keys` reports, with `Get`,
  `Set` and `Delete`. A new key goes at the end, which is where `Object.keys`
  puts it when it is not an array index. No key the bridge assigns is an index.
- Stand-ins for the libraries the bridge calls:
  - `Utf8` and `Base64` model `Buffer`.
  - `UriComponent` models `encodeURIComponent`/`decodeURIComponent` and Node's
    `querystring.escape`.
  - `BinaryCase` models `binary-case` and `TypeIs` models `type-is`.
  - `Json` is an abstract serializer. It is a pair of functions, and its
    round-trip property is the predicate `Faithful`, which lemmas take as a
    hypothesis. The round trip is promised only for `Valid` values, whose
    objects repeat no member name at any level: `JSON.parse` keeps the last of
    repeated names, so no real serializer gives such a value back.
- `Gateway`: the event, the request options, the response header values and
  the reply.
- `Mapper`: the query string, the event body, the socket path, and
  `mapApiGatewayEventToHttpRequest`.
- `Collector`: `forwardResponseToApiGateway`. Its class `ResponseCollector`
  takes the data chunks. Its `OnEnd` method cleans up the response's header
  table in place, as the source's `forEach` does. The spec function
  `FinalHeaders` describes that clean-up, and lemmas state what it does to
  each key.
- `Resolver`: `makeResolver` and the resolver `proxy` builds.
- `Server`: the error replies and `forwardRequestToNodeServer`. Its class
  `ManagedServer` holds `createServer`'s fields. The server's `listening`,
  `close` and `error` events are methods of that class. `proxy` is the class
  method `Proxy`.
- `EventContext`: `withEventContext`, which updates a `Request` object in place.

The network is not modelled. The class `ManagedServer` keeps three logs: the
addresses passed to `server.listen`, the `listening` handlers `proxy`
registered, and the requests forwarded, each with its socket path. What
happens to one forwarded request is an `Exchange` parameter: the local
server answered, the connection failed, or building the request threw.
`ForwardRequest` turns that `Exchange` into the delivered reply.

The `listening` handlers that `proxy` registers use `on`, not `once`, so
they are never removed. The model keeps this behaviour. After a `close` and
a later restart, every invocation that ever waited is forwarded again
(`Server.RestartForwardsAgain`).

## Model

| member | source | states |
|---|---|---|
| Mapper.PathWithoutQuery | micro-lambda/utils.js:7-9 | with no query parameters (missing, null or empty) and a path without `?`/`#`, the result is the path itself |
| Mapper.PathWithParameters | micro-lambda/utils.js:7-9 | with parameters, the result is the path, `?`, and a query string that reads back as exactly the parameters, in insertion order |
| Mapper.QueryStringRoundTrip | micro-lambda/__tests__/unit.spec.js:24-56 | splitting the query string at `&` and `=` and decoding each half gives back the key/value pairs in order |
| Mapper.EscapePathnameIdentity | micro-lambda/utils.js:8 | `url.format` leaves a pathname without `?` or `#` unchanged |
| Mapper.EncodeCallbackUrl | micro-lambda/__tests__/unit.spec.js:35-44 | `http://lvh.me:3000/cb` escapes to `http%3A%2F%2Flvh.me%3A3000%2Fcb` |
| UriComponent.EncodeChars | micro-lambda/utils.js:8 | escaped text holds only unreserved characters and `%`, so never `&`, `=`, `?` or `#` |
| UriComponent.EncodeUnreserved | micro-lambda/utils.js:8 | text made only of `A-Z a-z 0-9 - _ . ! ~ * ' ( )` is left as it is |
| UriComponent.EncodeConcat | micro-lambda/utils.js:8 | escaping works character by character, so it distributes over concatenation |
| UriComponent.DecodeEncode | src/withEventContext.js:13-14 | `decodeURIComponent(encodeURIComponent(s))` is `s` for every string, non-ASCII included |
| Mapper.EventBodyBase64 | micro-lambda/utils.js:11-13 | a base64 body decodes to the bytes it encodes |
| Mapper.EventBodyText | micro-lambda/utils.js:11-13 | a text body is its UTF-8 bytes, which decode back to it, and there are 1 to 4 bytes per character |
| Base64.DecodeEncode | micro-lambda/utils.js:12 | Node's lenient base64 decoder inverts the RFC 4648 section 4 encoder |
| Utf8.DecodeEncode | micro-lambda/utils.js:12 | decoding the UTF-8 bytes of a string gives the string back |
| Utf8.EncodeLength | micro-lambda/utils.js:63 | the byte length of a string is between its length and four times its length |
| Mapper.SocketPath | micro-lambda/utils.js:84-92 | the socket path is `/tmp/server-` + suffix + `.sock` |
| Mapper.SocketPathInjective | micro-lambda/utils.js:90 | different suffixes give different socket paths |
| Mapper.MapRequestShape | micro-lambda/utils.js:57-82 | the method, the path with query and the socket path pass through. Every header other than `Content-Length` and the two `x-apigateway-*` headers is unchanged |
| Mapper.MapRequestKeys | micro-lambda/utils.js:58-70 | the event's header order is kept, and only `Content-Length` and the two `x-apigateway-*` keys can be added after it |
| Mapper.ContentLengthHeader | micro-lambda/utils.js:60-64 | `Content-Length` is added exactly when the body is truthy and the header is not, and its value is then the decimal rendering of the decoded body's byte length (digits only, reading back to that length). Otherwise the header is as in the event |
| Mapper.CarriedHeaders | micro-lambda/utils.js:66-70 | the two added headers hold the escaped serialisation of the event without its body and of the context |
| Text.DecimalValue | micro-lambda/utils.js:63 | the decimal rendering of the byte length reads back as that number |
| Text.SplitJoin | micro-lambda/utils.js:8 | joining parts with a separator they do not contain and splitting again gives the parts |
| JsObject.SetKeys | micro-lambda/utils.js:63 | assigning a key keeps the key order, and appends the key if it was absent |
| JsObject.HasKeys | micro-lambda/utils.js:137 | a key is present exactly when `Object.keys` lists it |
| Gateway.EventJsonValid | micro-lambda/utils.js:66-69 | a well-formed event, whose other properties repeat none of the six the bridge reads and hold valid values, serialises to a valid object: distinct member names at every level |
| Octets.ConcatAppend | micro-lambda/utils.js:123-125 | pushing a chunk appends its bytes to the concatenation |
| Octets.ConcatLength | micro-lambda/utils.js:125 | the concatenation is as long as all chunks together |
| Collector.DropChunked | micro-lambda/utils.js:129-133 | `transfer-encoding` is deleted exactly when it is `chunked`, and no other header changes |
| Collector.ResponseCollector.OnData | micro-lambda/utils.js:123 | the chunk is pushed and the body so far gains its bytes at the end |
| Collector.ResponseCollector.OnEnd | micro-lambda/utils.js:124-157 | the headers become `FinalHeaders` of the old ones, in place, and the reply is built from them and the chunks |
| Collector.FoldHeader | micro-lambda/utils.js:138-148 | one turn of the `forEach` over the header keys, in place |
| Collector.SpreadCookie | micro-lambda/utils.js:140-144 | cookie `i` is written under case variant `i + 1` of the name, then the name is deleted |
| Collector.NoArrays | micro-lambda/utils.js:137-149 | after the loop no header holds an array |
| Collector.OtherHeader | micro-lambda/utils.js:146 | a header not named `set-cookie` in any case keeps its value, and an array becomes its elements joined with `,` |
| Collector.CookieArray | micro-lambda/utils.js:140-144 | a `set-cookie` array of fewer than 512 values loses its name. Value `j` sits under case variant `j` of the name, and no other cookie header is left |
| Collector.CookieString | micro-lambda/utils.js:139 | a `set-cookie` header holding a string is kept as it is |
| Collector.CookieExample | micro-lambda/__tests__/unit.spec.js:192-208 | `Set-Cookie: [a, b]` becomes `set-Cookie: a` and `SEt-Cookie: b`, and `Set-Cookie` is gone |
| BinaryCase.Injective | micro-lambda/utils.js:142 | distinct variant numbers below 2 to the number of letters give distinct header names |
| BinaryCase.VariantDiffers | micro-lambda/utils.js:142-144 | variants 1 and up differ from the original name, so deleting it keeps them |
| BinaryCase.SameLetters | micro-lambda/utils.js:140-142 | a variant differs from the name only in case, so it is still a cookie header |
| BinaryCase.SetCookieVariants | micro-lambda/__tests__/unit.spec.js:205 | variants 1 and 2 of `Set-Cookie` are `set-Cookie` and `SEt-Cookie` |
| Collector.ContentType | micro-lambda/utils.js:15-18 | the type is the text before the first `;` of the `content-type` header, or `''` when there is none |
| Collector.IsBinary | micro-lambda/utils.js:24-26 | an empty binary-type list never makes a body binary, and a binary type is a well-formed media type |
| Collector.SpaceBeforeParameters | micro-lambda/utils.js:15-18 | the space left before the `;` of a `content-type` does not change whether the body is binary |
| TypeIs.ExactEntryMatches | micro-lambda/__tests__/unit.spec.js:230-246 | an entry equal to the normalised type matches it |
| TypeIs.WildcardEntryMatches | micro-lambda/__tests__/unit.spec.js:266-282 | a `type/*` entry matches every subtype of that type |
| TypeIs.ExtensionEntryMatches | micro-lambda/__tests__/unit.spec.js:284-300 | an extension entry matches the type the MIME table gives for it |
| TypeIs.EmptyPatternsMatchAll | micro-lambda/utils.js:25 | `type-is` alone accepts any well-formed type for an empty list, which is why the length check is needed |
| TypeIs.Normalize | micro-lambda/utils.js:24-26 | a type that `type-is` accepts contains a slash, and its normal form is lower-cased and no longer than the value |
| TypeIs.FormatSubtype | micro-lambda/utils.js:24-26 | an accepted subtype formats as a well-formed subtype token: the subtype itself, or the subtype without a final `+` (an empty suffix) |
| TypeIs.SpacesIgnored | micro-lambda/utils.js:15-18 | spaces before or after a type do not change its normal form, like the one `split(';')[0]` leaves before `; charset=utf-8` |
| TypeIs.EmptySuffixDropped | micro-lambda/utils.js:24-26 | `type/name+` formats as `type/name` when the name holds no `+` and the `+` fits in 127 characters |
| TypeIs.SecondPlusRejected | micro-lambda/utils.js:24-26 | a subtype holding two `+` is malformed, so no pattern matches it |
| TypeIs.NormalizeIdempotent | micro-lambda/utils.js:24-26 | the normal form of a type is its own normal form |
| Collector.SuccessReplyBody | micro-lambda/utils.js:151-156 | the status and headers pass through. A binary body decodes to the received bytes, and a text body is the text the bytes encode |
| Resolver.Succeed | micro-lambda/utils.js:204-214 | with a non-null context, the response is delivered unchanged exactly when some capability is supplied, to the supplied capability that ranks first: context `succeed`, then promise, then callback. The callback's or `succeed`'s result is returned. A null context throws |
| Resolver.ProxyParams | micro-lambda/utils.js:190-200 | `proxy` builds a promise resolver exactly when no callback is given |
| Resolver.ProxyAlwaysDelivers | micro-lambda/utils.js:178-202 | a resolver built by `proxy` from a non-null context always delivers the response |
| Resolver.ContextWinsOverPromise | micro-lambda/utils.js:209-210 | a context `succeed` wins over the promise `proxy` made |
| Resolver.CallbackResult | micro-lambda/__tests__/unit.spec.js:320-330 | the callback variant returns the callback's result |
| Server.ForwardConnectionError | micro-lambda/utils.js:94-105 | the delivered reply is `{statusCode: 502, body: '', headers: {}}`, and it is delivered whenever the resolver can deliver |
| Server.ForwardLibraryError | micro-lambda/utils.js:107-117 | the same with status 500 |
| Server.ForwardRequest | micro-lambda/utils.js:160-176 | the request is the mapped event on the suffix's socket, and its body is the decoded event body when that is truthy. No request is sent when building it throws. The delivered reply is the collected response, a 502 or a 500 |
| Server.CollectResponse | micro-lambda/utils.js:119-157 | the chunks are collected in arrival order, and the reply built at the end is the success reply of the whole body and the cleaned-up headers |
| Server.ForwardingResolves | micro-lambda/utils.js:160-176 | whatever the network does, a resolver that can deliver delivers one reply with the matching status |
| Server.ManagedServer.constructor | micro-lambda/utils.js:30-34 | a copy of the binary types or `[]`, the given suffix, not listening |
| Server.ManagedServer.OnListening | micro-lambda/utils.js:35-38 | the server becomes listening, the listen callback runs, and every waiting invocation is forwarded, in order, to the current socket path |
| Server.ManagedServer.OnClose | micro-lambda/utils.js:39-41 | the server is no longer listening |
| Server.ManagedServer.OnError | micro-lambda/utils.js:42-52 | on `EADDRINUSE` the suffix is replaced, the server stops listening and listens again at the new socket path. Other errors change nothing |
| Server.ManagedServer.StartServer | micro-lambda/utils.js:20-22 | listen is requested at the socket path of the current suffix |
| Server.ManagedServer.Proxy | micro-lambda/utils.js:178-202 | a listening server forwards at once to its socket path. Otherwise it starts listening and the invocation waits. A promise is returned exactly when there is no callback. No request goes to an address the server was not asked to listen on |
| Server.AddressInUseRecovery | micro-lambda/__tests__/integration.spec.js:392-404 | a server whose socket is taken rebinds to a new suffix, becomes listening, and forwards the waiting invocation once, to the new address |
| Server.RestartForwardsAgain | micro-lambda/utils.js:184-186 | after a close and a restart, an invocation that waited earlier is forwarded a second time |
| EventContext.PropKey | src/withEventContext.js:2-5 | the property is `apiGateway` unless `reqPropKey` is given |
| EventContext.ReadHeaders | src/withEventContext.js:7-15 | the headers read as missing exactly when either is missing or empty. Otherwise both decode to the annotation, or one fails to decode |
| EventContext.WithoutCarriedHeaders | src/withEventContext.js:17-20 | exactly the two bridge headers are removed, and every other header is unchanged |
| EventContext.DecodeCarried | src/withEventContext.js:13-14 | a header value the bridge wrote is truthy and, for a valid value, decodes back to the JSON value it carries |
| Json.RepeatedNameInvalid | src/withEventContext.js:13-14 | an object that repeats a member name is not valid, so the round trip is not promised for it (`JSON.parse` keeps the last of the repeated names) |
| EventContext.ReadMappedRequest | src/withEventContext.js:12-15 | for a well-formed event and a valid context, the headers of a mapped request read back as the event without its body and as the context, and the event read back is valid |
| EventContext.WithEventContext | src/withEventContext.js:1-23 | if a header is missing or empty, the request is untouched and `fn` is called. If a header does not decode, the promise rejects and nothing changes. Otherwise the annotation is set under the key, the two headers are deleted unless `deleteHeaders` is false, and `fn`'s result on the updated request is returned |

## Left out

- The sockets, `http.createServer`, `server.listen`, `http.request` and
  `req.write` are I/O. They appear as the logs and events of
  `ManagedServer` and as the `Exchange` parameter of `ForwardRequest`.
- `console.log`, `console.warn` and `console.error` are logging only.
- `getRandomString` (micro-lambda/utils.js:28) draws from `Math.random`. The
  suffix is a parameter instead. After `EADDRINUSE` the new suffix is only
  required to differ from the old one.
- The Windows named-pipe branch of `getSocketPath` (micro-lambda/utils.js:86-89)
  depends on the platform. Only the POSIX path is modelled.
- Promise timing and the order in which concurrent invocations interleave are
  not modelled, and neither is the unbounded `EADDRINUSE` retry. One rebind
  is one `OnError` step.
- Server.ManagedServer.Proxy: two invocations that start a server that is not
  yet listening both call `listen`, and Node throws `ERR_SERVER_ALREADY_LISTEN`
  on the second. The model only records the second listen request.
- Server.ForwardRequest: an `error` event on the request after a response has
  started, and exceptions thrown inside the response handlers, are not
  modelled.
- `JSON.stringify`/`JSON.parse` are an abstract serializer. Their round trip
  is the hypothesis `Faithful`, not a definition. The `res` object that
  `withEventContext` passes to `fn` unchanged is not modelled.
- EventContext.DecodeCarried: promises the round trip only for a `Valid`
  value. The values JavaScript objects hold are always valid, but nothing is
  promised for a value that repeats a member name.
- EventContext.ReadMappedRequest: requires a `WellFormed` event and a `Valid`
  context, for the same reason. An event from the gateway and a context from
  the runtime always meet both.
- `JNum` holds integers only. Fractions, exponents, and how `JSON.stringify`
  rounds a number are not modelled.
- EventContext.WithEventContext: requires `reqPropKey` other than `headers`.
  With that key, the source would replace the header table by the annotation,
  which the model's separate header table cannot represent.
- Collector.CookieArray: covers fewer than 512 cookie values. The nine
  letters of `set-cookie` give 511 variants besides the name itself, and what
  `binary-case` does beyond that is not modelled.
- `type-is` is reduced to exact, wildcard, suffix and extension matching. The
  extension-to-type table is a parameter.
- TypeIs.Normalize: lower-cases ASCII letters only. JavaScript's `toLowerCase`
  also maps a few other letters onto ASCII ones, such as the Kelvin sign onto
  `k`, so a type spelled with one of those is malformed in the model.
- JsObject.Set: appends every new key. `Object.keys` lists array-index keys
  (`"0"`, `"42"`) first, in numeric order. A header named like an index,
  arriving from the gateway or the server, would be listed in another place.
- Gateway.EventJson: writes the six properties the bridge reads first, in a
  fixed order, then the others. `_.clone(event)` keeps the event's own order,
  so the text in `x-apigateway-event` may list the same members in another order.
- Lone UTF-16 surrogates cannot occur: a Dafny string is a sequence of code
  points. So the `URIError` that `encodeURIComponent` throws on them is not modelled.
- The `Content-Length` value is kept as its decimal text. The source stores a
  number, which Node renders the same way.
- The sample handlers, example functions, test runners and configuration
  files are application code and tooling, not part of the bridge.
