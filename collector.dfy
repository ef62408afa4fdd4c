/**
 * The response half of the bridge, `forwardResponseToApiGateway`: the body
 * chunks the local server sends are collected, and when the response ends its
 * header table is cleaned up in place for API Gateway and the reply is built.
 *
 * The header clean-up is specified by `FinalHeaders`, a fold over the key list
 * taken before the loop, one key at a time, as the source's `forEach` does.
 * The lemmas below then say what the fold yields, key by key.
 */
module Collector {
  import opened Wrappers
  import opened Octets
  import opened Text
  import opened JsObject
  import opened Gateway
  import BinaryCase
  import TypeIs
  import Base64
  import Utf8

  const TransferEncoding := "transfer-encoding"
  const ContentTypeHeader := "content-type"

  /** `transfer-encoding: chunked` is deleted; any other value, and every other header, stays. */
  function DropChunked(h: Obj<HeaderValue>): (r: Obj<HeaderValue>)
    ensures Get(r, TransferEncoding) == if Get(h, TransferEncoding) == Some(Single("chunked")) then None else Get(h, TransferEncoding)
    ensures forall k :: k != TransferEncoding ==> Get(r, k) == Get(h, k)
  {
    if Get(h, TransferEncoding) == Some(Single("chunked")) then Delete(h, TransferEncoding) else h
  }

  /** `h.toLowerCase() === 'set-cookie'`. */
  predicate IsCookieKey(k: string)
  {
    ToLower(k) == "set-cookie"
  }

  /** The first `n` cookie values written under the case variants 1..n of `k`. */
  function AddVariants(h: Obj<HeaderValue>, k: string, vs: seq<string>, n: nat): Obj<HeaderValue>
    requires n <= |vs|
  {
    if n == 0 then h else Set(AddVariants(h, k, vs, n - 1), BinaryCase.BinaryCase(k, n), Single(vs[n - 1]))
  }

  /** One step of the `forEach`: the treatment of header `k`. */
  function FoldKey(h: Obj<HeaderValue>, k: string): Obj<HeaderValue>
  {
    match Get<HeaderValue>(h, k)
      case Some(Multi(vs)) =>
        if IsCookieKey(k) then Delete(AddVariants(h, k, vs, |vs|), k)
        else Set(h, k, Single(Join(",", vs)))
      case _ => h
  }

  /** The `forEach` over the keys `ks`, in order. */
  function FoldKeys(h: Obj<HeaderValue>, ks: seq<string>): Obj<HeaderValue>
  {
    if ks == [] then h else FoldKey(FoldKeys(h, ks[..|ks| - 1]), ks[|ks| - 1])
  }

  /** The header table as the reply carries it. */
  function FinalHeaders(h: Obj<HeaderValue>): Obj<HeaderValue>
  {
    var d := DropChunked(h);
    FoldKeys(d, Keys(d))
  }

  /** The expected treatment of a header that is not a cookie header: an array is joined with commas. */
  function Flatten(v: Option<HeaderValue>): (r: Option<HeaderValue>)
    ensures r.Some? <==> v.Some?
    ensures r.Some? ==> r.value.Single?
  {
    match v
      case Some(Multi(vs)) => Some(Single(Join(",", vs)))
      case _ => v
  }

  predicate IsArray(v: Option<HeaderValue>)
  {
    v.Some? && v.value.Multi?
  }

  // ----------------------------------------------------- one step at a time

  lemma VariantIsCookieKey(k: string, j: nat)
    requires IsCookieKey(k)
    ensures IsCookieKey(BinaryCase.BinaryCase(k, j))
  {
    BinaryCase.SameLetters(k, j);
  }

  /** Writing the variants touches no key other than the variants. */
  lemma {:induction false} AddVariantsElsewhere(h: Obj<HeaderValue>, k: string, vs: seq<string>, n: nat, y: string)
    requires n <= |vs|
    requires forall j :: 1 <= j <= n ==> y != BinaryCase.BinaryCase(k, j)
    ensures Get(AddVariants(h, k, vs, n), y) == Get(h, y)
  {
    if n > 0 {
      AddVariantsElsewhere(h, k, vs, n - 1, y);
    }
  }

  /** Writing the variants leaves any key either as it was or holding a string. */
  lemma {:induction false} AddVariantsStrings(h: Obj<HeaderValue>, k: string, vs: seq<string>, n: nat, y: string)
    requires n <= |vs|
    ensures IsArray(Get(AddVariants(h, k, vs, n), y)) ==> Get(AddVariants(h, k, vs, n), y) == Get(h, y)
  {
    if n > 0 {
      AddVariantsStrings(h, k, vs, n - 1, y);
    }
  }

  /** While the variants are distinct, variant `j` holds the `j`-th value. */
  lemma {:induction false} AddVariantsAt(h: Obj<HeaderValue>, k: string, vs: seq<string>, n: nat)
    requires n <= |vs| < BinaryCase.Pow2(BinaryCase.Letters(k))
    ensures forall j :: 1 <= j <= n ==> Get(AddVariants(h, k, vs, n), BinaryCase.BinaryCase(k, j)) == Some(Single(vs[j - 1]))
  {
    if n > 0 {
      AddVariantsAt(h, k, vs, n - 1);
      forall j | 1 <= j < n
        ensures BinaryCase.BinaryCase(k, j) != BinaryCase.BinaryCase(k, n)
      {
        if BinaryCase.BinaryCase(k, j) == BinaryCase.BinaryCase(k, n) {
          BinaryCase.Injective(k, j, n);
        }
      }
    }
  }

  /** Treating `k` changes no other key unless both are cookie headers. */
  lemma FoldKeyElsewhere(h: Obj<HeaderValue>, k: string, x: string)
    requires x != k && !(IsCookieKey(k) && IsCookieKey(x))
    ensures Get(FoldKey(h, k), x) == Get(h, x)
  {
    match Get<HeaderValue>(h, k)
      case Some(Multi(vs)) =>
        if IsCookieKey(k) {
          forall j | 1 <= j <= |vs| ensures x != BinaryCase.BinaryCase(k, j) {
            VariantIsCookieKey(k, j);
          }
          AddVariantsElsewhere(h, k, vs, |vs|, x);
        }
      case _ =>
  }

  /** Treating `k` leaves no array under `k` and adds none anywhere. */
  lemma FoldKeyNoNewArrays(h: Obj<HeaderValue>, k: string, x: string)
    requires IsArray(Get(FoldKey(h, k), x))
    ensures x != k && Get(FoldKey(h, k), x) == Get(h, x)
  {
    match Get<HeaderValue>(h, k)
      case Some(Multi(vs)) =>
        if IsCookieKey(k) {
          AddVariantsStrings(h, k, vs, |vs|, x);
        }
      case _ =>
  }

  lemma FoldKeysStep(h: Obj<HeaderValue>, ks: seq<string>, n: nat)
    requires n < |ks|
    ensures FoldKeys(h, ks[..n + 1]) == FoldKey(FoldKeys(h, ks[..n]), ks[n])
  {
    assert ks[..n + 1][..n] == ks[..n];
  }

  // ------------------------------------------------------------ no arrays

  /** After folding a key list, an array is left only under a key the list does not name, as it was. */
  lemma {:induction false} PendingArrays(h: Obj<HeaderValue>, ks: seq<string>, x: string)
    requires IsArray(Get(FoldKeys(h, ks), x))
    ensures x !in ks && Get(FoldKeys(h, ks), x) == Get(h, x)
  {
    if ks != [] {
      var front, k := ks[..|ks| - 1], ks[|ks| - 1];
      FoldKeyNoNewArrays(FoldKeys(h, front), k, x);
      PendingArrays(h, front, x);
      assert ks == front + [k];
    }
  }

  /** After the loop no header holds an array. */
  lemma NoArrays(h: Obj<HeaderValue>, x: string)
    ensures !IsArray(Get(FinalHeaders(h), x))
  {
    var d := DropChunked(h);
    if IsArray(Get(FinalHeaders(h), x)) {
      PendingArrays(d, Keys(d), x);
      HasKeys(d, x);
    }
  }

  // ------------------------------------------------------- other headers

  /** Treating a header that is not a cookie header joins an array under it and leaves anything else. */
  lemma FoldKeySelf(h: Obj<HeaderValue>, x: string)
    requires !IsCookieKey(x)
    ensures Get(FoldKey(h, x), x) == Flatten(Get(h, x))
  {
  }

  /**
   * Folding any key list leaves a header that is not a cookie header as it
   * was, or flattened when the list names it (flattening twice changes
   * nothing).
   */
  lemma {:induction false} OtherHeaderFold(h: Obj<HeaderValue>, ks: seq<string>, x: string)
    requires !IsCookieKey(x)
    ensures Get(FoldKeys(h, ks), x) == if x in ks then Flatten(Get(h, x)) else Get(h, x)
  {
    if ks != [] {
      var front, k := ks[..|ks| - 1], ks[|ks| - 1];
      OtherHeaderFold(h, front, x);
      var g := FoldKeys(h, front);
      assert ks == front + [k];
      assert x in ks <==> x in front || x == k;
      if k == x {
        FoldKeySelf(g, x);
      } else {
        FoldKeyElsewhere(g, k, x);
      }
    }
  }

  lemma OtherHeaderAll(d: Obj<HeaderValue>, x: string)
    requires !IsCookieKey(x)
    ensures Get(FoldKeys(d, Keys(d)), x) == Flatten(Get(d, x))
  {
    OtherHeaderFold(d, Keys(d), x);
    HasKeys(d, x);
  }

  /**
   * A header whose name is not `set-cookie` in any case keeps its value, an
   * array becoming its elements joined with `,`.
   */
  lemma OtherHeader(h: Obj<HeaderValue>, x: string)
    requires !IsCookieKey(x)
    ensures Get(FinalHeaders(h), x) == Flatten(Get(DropChunked(h), x))
  {
    OtherHeaderAll(DropChunked(h), x);
  }

  // ------------------------------------------------------ cookie headers

  /** At most one header name is `set-cookie` in some case, as Node's parser gives it. */
  predicate OneCookieKey(h: Obj<HeaderValue>)
  {
    forall i, j :: 0 <= i < |h| && 0 <= j < |h| && IsCookieKey(h[i].0) && IsCookieKey(h[j].0) ==> i == j
  }

  /** Every cookie header is as in `h`. */
  ghost predicate CookiesAsIn(o: Obj<HeaderValue>, h: Obj<HeaderValue>)
  {
    forall y :: IsCookieKey(y) ==> Get(o, y) == Get(h, y)
  }

  /** The cookies `vs` of `c` sit under the variants 1..|vs| of `c`, and no other cookie header is left. */
  ghost predicate CookiesSpread(o: Obj<HeaderValue>, c: string, vs: seq<string>)
  {
    && Get(o, c) == None
    && (forall j :: 1 <= j <= |vs| ==> Get(o, BinaryCase.BinaryCase(c, j)) == Some(Single(vs[j - 1])))
    && (forall y :: IsCookieKey(y) && Get(o, y).Some? ==> exists j :: 1 <= j <= |vs| && y == BinaryCase.BinaryCase(c, j))
  }

  lemma CookieNameLetters(l: string)
    requires l == "set-cookie"
    ensures BinaryCase.Letters(l) == 9
  {
    var i := 10;
    while i > 0
      invariant 0 <= i <= 10
      invariant BinaryCase.Letters(l[i..]) == if i <= 3 then 9 - i else 10 - i
    {
      BinaryCase.LettersTail(l[i - 1..]);
      assert l[i - 1..][1..] == l[i..];
      i := i - 1;
    }
    assert l[0..] == l;
  }

  /** A name of `set-cookie` in some case has nine letters, so 511 variants besides itself. */
  lemma CookieKeyLetters(k: string)
    requires IsCookieKey(k)
    ensures BinaryCase.Pow2(BinaryCase.Letters(k)) == 512
  {
    BinaryCase.LettersOfLower(k);
    CookieNameLetters(ToLower(k));
  }

  /** Under `OneCookieKey`, two cookie headers that are both present are the same header. */
  lemma SameCookieKey(h: Obj<HeaderValue>, a: string, b: string)
    requires OneCookieKey(h) && Has(h, a) && Has(h, b) && IsCookieKey(a) && IsCookieKey(b)
    ensures a == b
  {
    HasIff(h, a);
    HasIff(h, b);
    var i :| 0 <= i < |h| && h[i].0 == a;
    var j :| 0 <= j < |h| && h[j].0 == b;
  }

  lemma OnlyCookieKey(h: Obj<HeaderValue>, c: string, y: string)
    requires OneCookieKey(h) && Get(h, c).Some? && IsCookieKey(c) && IsCookieKey(y) && y != c
    ensures Get(h, y) == None
  {
    if Get(h, y).Some? {
      SameCookieKey(h, c, y);
    }
  }

  lemma SpreadCookies(g: Obj<HeaderValue>, h: Obj<HeaderValue>, c: string, vs: seq<string>)
    requires OneCookieKey(h) && IsCookieKey(c) && Get(h, c) == Some(Multi(vs)) && |vs| < 512
    requires CookiesAsIn(g, h)
    ensures CookiesSpread(FoldKey(g, c), c, vs)
  {
    CookieKeyLetters(c);
    var a := AddVariants(g, c, vs, |vs|);
    assert Get(g, c) == Some(Multi(vs));
    assert FoldKey(g, c) == Delete(a, c);
    AddVariantsAt(g, c, vs, |vs|);
    forall j | 1 <= j <= |vs| ensures BinaryCase.BinaryCase(c, j) != c {
      BinaryCase.VariantDiffers(c, j);
    }
    forall y | IsCookieKey(y) && Get(Delete(a, c), y).Some?
      ensures exists j :: 1 <= j <= |vs| && y == BinaryCase.BinaryCase(c, j)
    {
      if forall j :: 1 <= j <= |vs| ==> y != BinaryCase.BinaryCase(c, j) {
        AddVariantsElsewhere(g, c, vs, |vs|, y);
        OnlyCookieKey(h, c, y);
        assert false;
      }
    }
  }

  /** Treating a header whose value is not an array changes nothing. */
  lemma FoldKeyNoArray(h: Obj<HeaderValue>, k: string)
    requires !IsArray(Get(h, k))
    ensures FoldKey(h, k) == h
  {
  }

  /** Treating a header other than `c` and not a cookie header keeps every cookie header. */
  lemma FoldKeyKeepsCookies(g: Obj<HeaderValue>, k: string)
    requires !IsCookieKey(k)
    ensures forall y :: IsCookieKey(y) ==> Get(FoldKey(g, k), y) == Get(g, y)
  {
    forall y | IsCookieKey(y) ensures Get(FoldKey(g, k), y) == Get(g, y) {
      FoldKeyElsewhere(g, k, y);
    }
  }

  /**
   * Folding any key list over a table whose one cookie header is `c`: once the
   * list has named `c`, an array under it is spread over its variants;
   * otherwise every cookie header is as it was.
   */
  lemma {:induction false} CookieFold(h: Obj<HeaderValue>, ks: seq<string>, c: string)
    requires OneCookieKey(h) && IsCookieKey(c) && Get(h, c).Some?
    requires Get(h, c).value.Multi? ==> |Get(h, c).value.vs| < 512
    ensures var o := FoldKeys(h, ks);
      if c in ks && Get(h, c).value.Multi? then CookiesSpread(o, c, Get(h, c).value.vs) else CookiesAsIn(o, h)
  {
    if ks != [] {
      var front, k := ks[..|ks| - 1], ks[|ks| - 1];
      CookieFold(h, front, c);
      var g := FoldKeys(h, front);
      assert ks == front + [k];
      assert c in ks <==> c in front || c == k;
      var spread := c in front && Get(h, c).value.Multi?;
      if !IsCookieKey(k) {
        FoldKeyKeepsCookies(g, k);
      } else if k == c && !spread && Get(h, c).value.Multi? {
        SpreadCookies(g, h, c, Get(h, c).value.vs);
      } else if spread {
        assert !IsArray(Get(g, k)) by {
          if Get(g, k).Some? {
            var j :| 1 <= j <= |Get(h, c).value.vs| && k == BinaryCase.BinaryCase(c, j);
          }
        }
        FoldKeyNoArray(g, k);
      } else if k == c {
        FoldKeyNoArray(g, k);
      } else {
        OnlyCookieKey(h, c, k);
        FoldKeyNoArray(g, k);
      }
    }
  }

  lemma CookieArrayAll(d: Obj<HeaderValue>, c: string, vs: seq<string>)
    requires OneCookieKey(d) && IsCookieKey(c) && Get(d, c) == Some(Multi(vs)) && |vs| < 512
    ensures CookiesSpread(FoldKeys(d, Keys(d)), c, vs)
  {
    HasKeys(d, c);
    CookieFold(d, Keys(d), c);
  }

  lemma CookieStringAll(d: Obj<HeaderValue>, c: string, s: string)
    requires OneCookieKey(d) && IsCookieKey(c) && Get(d, c) == Some(Single(s))
    ensures Get(FoldKeys(d, Keys(d)), c) == Some(Single(s))
  {
    CookieFold(d, Keys(d), c);
  }

  /**
   * With a single `set-cookie` header holding an array of fewer than 512
   * values: the header is removed, value `j` sits under case variant `j` of
   * its name, and no other cookie header is left.
   */
  lemma CookieArray(h: Obj<HeaderValue>, c: string, vs: seq<string>)
    requires OneCookieKey(h) && IsCookieKey(c) && Get(h, c) == Some(Multi(vs)) && |vs| < 512
    ensures CookiesSpread(FinalHeaders(h), c, vs)
  {
    DropChunkedOneCookieKey(h);
    DropChunkedCookies(h, c);
    CookieArrayAll(DropChunked(h), c, vs);
  }

  /** A single `set-cookie` header holding a string is kept as it is. */
  lemma CookieString(h: Obj<HeaderValue>, c: string, s: string)
    requires OneCookieKey(h) && IsCookieKey(c) && Get(h, c) == Some(Single(s))
    ensures Get(FinalHeaders(h), c) == Some(Single(s))
  {
    DropChunkedOneCookieKey(h);
    DropChunkedCookies(h, c);
    CookieStringAll(DropChunked(h), c, s);
  }

  lemma TransferEncodingNoCookie()
    ensures !IsCookieKey(TransferEncoding)
  {
    assert |ToLower(TransferEncoding)| == 17;
  }

  /** Dropping `transfer-encoding` keeps every cookie header. */
  lemma DropChunkedCookies(h: Obj<HeaderValue>, c: string)
    requires IsCookieKey(c)
    ensures Get(DropChunked(h), c) == Get(h, c)
  {
    TransferEncodingNoCookie();
  }

  /** Dropping `transfer-encoding` keeps the single-cookie-name condition. */
  lemma DropChunkedOneCookieKey(h: Obj<HeaderValue>)
    requires OneCookieKey(h)
    ensures OneCookieKey(DropChunked(h))
  {
    var d := DropChunked(h);
    forall i, j | 0 <= i < |d| && 0 <= j < |d| && IsCookieKey(d[i].0) && IsCookieKey(d[j].0)
      ensures i == j
    {
      GetAt(d, i);
      GetAt(d, j);
      DropChunkedCookies(h, d[i].0);
      DropChunkedCookies(h, d[j].0);
      SameCookieKey(h, d[i].0, d[j].0);
    }
  }

  // `Set-Cookie`, given as its first two letters and the tail `rest`, is a cookie key.
  lemma SetCookieKey(c: string, rest: string)
    requires rest == "t-Cookie" && c == ['S', 'e'] + rest
    ensures IsCookieKey(c)
  {
    var l := ToLower(c);
    var name := "set-cookie";
    forall i | 0 <= i < |name| ensures l[i] == name[i] {
      assert c[i] == "Set-Cookie"[i];
    }
  }

  /**
   * The example of the tests: two cookies under `Set-Cookie`, and nothing else
   * of the kind. `c` is bound to `Set-Cookie` by the precondition, with its
   * unchanged tail named `rest`, so that the variants are stated letter by
   * letter; the example is this one header, not a family of them.
   */
  lemma CookieExample(h: Obj<HeaderValue>, c: string, rest: string, a: string, b: string)
    requires rest == "t-Cookie" && c == ['S', 'e'] + rest
    requires OneCookieKey(h) && Get(h, c) == Some(Multi([a, b]))
    ensures Get(FinalHeaders(h), ['s', 'e'] + rest) == Some(Single(a))
    ensures Get(FinalHeaders(h), ['S', 'E'] + rest) == Some(Single(b))
    ensures Get(FinalHeaders(h), c) == None
  {
    SetCookieKey(c, rest);
    CookieArray(h, c, [a, b]);
    BinaryCase.SetCookieVariants(c, rest);
    var o := FinalHeaders(h);
    assert Get(o, BinaryCase.BinaryCase(c, 1)) == Some(Single(a));
    assert Get(o, BinaryCase.BinaryCase(c, 2)) == Some(Single(b));
  }

  // ----------------------------------------------------------------- body

  /** `getContentType`: the text before the first `;`, or `''` when there is no truthy `content-type`. */
  function ContentType(h: Obj<HeaderValue>): (r: string)
    ensures Get(h, ContentTypeHeader) == None ==> r == ""
    ensures forall s :: Get(h, ContentTypeHeader) == Some(Single(s)) ==>
      |r| <= |s| && r == s[..|r|] && ';' !in r && (|r| < |s| ==> s[|r|] == ';')
  {
    match Get<HeaderValue>(h, ContentTypeHeader)
      case Some(Single(s)) => if s != "" then BeforeFirst(s, ';') else ""
      case _ => ""
  }

  /** `isContentTypeBinaryMimeType`: never with an empty list; otherwise `type-is` decides. */
  function IsBinary(contentType: string, binaryTypes: seq<string>, lookup: TypeIs.MimeLookup): (r: bool)
    ensures binaryTypes == [] ==> !r
    ensures r ==> TypeIs.Normalize(contentType).Some?
  {
    |binaryTypes| > 0 && TypeIs.Is(contentType, binaryTypes, lookup)
  }

  /**
   * The space that `type; charset=…` leaves before the `;` does not change the
   * answer: `image/png ` is binary exactly when `image/png` is.
   */
  lemma SpaceBeforeParameters(contentType: string, binaryTypes: seq<string>, lookup: TypeIs.MimeLookup)
    ensures IsBinary(contentType + " ", binaryTypes, lookup) == IsBinary(contentType, binaryTypes, lookup)
  {
    TypeIs.SpacesIgnored(contentType);
  }

  /** `bodyBuffer.toString(isBase64Encoded ? 'base64' : 'utf8')`. */
  function RenderBody(bytes: seq<Byte>, binary: bool): string
  {
    if binary then Base64.Encode(bytes) else Utf8.Decode(bytes)
  }

  /** The reply built once the response has ended, from its cleaned-up headers. */
  function SuccessReply(statusCode: int, chunks: seq<seq<Byte>>, headers: Obj<HeaderValue>, binaryTypes: seq<string>, lookup: TypeIs.MimeLookup): Reply
  {
    var binary := IsBinary(ContentType(headers), binaryTypes, lookup);
    Reply(statusCode, RenderBody(Concat(chunks), binary), headers, Some(binary))
  }

  /**
   * A binary reply's body decodes back to the bytes received, in order; a text
   * reply's body is the text the bytes encode.
   */
  lemma SuccessReplyBody(statusCode: int, chunks: seq<seq<Byte>>, headers: Obj<HeaderValue>, binaryTypes: seq<string>, lookup: TypeIs.MimeLookup, text: string)
    ensures var r := SuccessReply(statusCode, chunks, headers, binaryTypes, lookup);
      r.statusCode == statusCode && r.headers == headers && r.isBase64Encoded.Some?
      && (r.isBase64Encoded == Some(true) ==> Base64.Decode(r.body) == Concat(chunks))
      && (r.isBase64Encoded == Some(false) && Concat(chunks) == Utf8.Encode(text) ==> r.body == text)
  {
    Base64.DecodeEncode(Concat(chunks));
    Utf8.DecodeEncode(text);
  }

  // -------------------------------------------------------------- objects

  /** The `http.IncomingResponse` of the local server, whose header table is updated in place. */
  class IncomingResponse {
    const statusCode: int
    var headers: Obj<HeaderValue>

    constructor (statusCode: int, headers: Obj<HeaderValue>)
      ensures this.statusCode == statusCode && this.headers == headers
    {
      this.statusCode := statusCode;
      this.headers := headers;
    }
  }

  /** The state of one `forwardResponseToApiGateway` call: the server's binary types and the chunks so far. */
  class ResponseCollector {
    const binaryTypes: seq<string>
    const lookup: TypeIs.MimeLookup
    var buf: seq<seq<Byte>>

    constructor (binaryTypes: seq<string>, lookup: TypeIs.MimeLookup)
      ensures this.binaryTypes == binaryTypes && this.lookup == lookup && buf == []
    {
      this.binaryTypes := binaryTypes;
      this.lookup := lookup;
      buf := [];
    }

    /** The `data` handler: the chunk is pushed, so the body so far gains it at the end. */
    method OnData(chunk: seq<Byte>)
      modifies this
      ensures buf == old(buf) + [chunk]
      ensures Concat(buf) == Concat(old(buf)) + chunk
    {
      ConcatAppend(buf, chunk);
      buf := buf + [chunk];
    }

    /**
     * The `end` handler: the response's headers are cleaned up in place and the
     * reply is built from them and from the chunks received.
     */
    method OnEnd(response: IncomingResponse) returns (reply: Reply)
      modifies response
      ensures response.headers == FinalHeaders(old(response.headers))
      ensures reply == SuccessReply(response.statusCode, buf, response.headers, binaryTypes, lookup)
    {
      var bodyBuffer := Concat(buf);
      if Get(response.headers, TransferEncoding) == Some(Single("chunked")) {
        response.headers := Delete(response.headers, TransferEncoding);
      }
      var start := response.headers;
      assert start == DropChunked(old(response.headers));
      var keys := Keys(start);
      var i := 0;
      while i < |keys|
        invariant 0 <= i <= |keys|
        invariant response.headers == FoldKeys(start, keys[..i])
      {
        FoldKeysStep(start, keys, i);
        FoldHeader(response, keys[i]);
        i := i + 1;
      }
      assert keys[..|keys|] == keys;
      var contentType := ContentType(response.headers);
      var isBase64Encoded := IsBinary(contentType, binaryTypes, lookup);
      var body := if isBase64Encoded then Base64.Encode(bodyBuffer) else Utf8.Decode(bodyBuffer);
      reply := Reply(response.statusCode, body, response.headers, Some(isBase64Encoded));
    }
  }

  /** One turn of the `forEach`: header `h` of the response is treated in place. */
  method FoldHeader(response: IncomingResponse, h: string)
    modifies response
    ensures response.headers == FoldKey(old(response.headers), h)
  {
    match Get<HeaderValue>(response.headers, h) {
      case Some(Multi(vs)) =>
        if ToLower(h) == "set-cookie" {
          SpreadCookie(response, h, vs);
        } else {
          response.headers := Set(response.headers, h, Single(Join(",", vs)));
        }
      case _ =>
    }
  }

  /** The inner `forEach`: cookie `i` is written under case variant `i + 1` of `h`, then `h` is deleted. */
  method SpreadCookie(response: IncomingResponse, h: string, vs: seq<string>)
    modifies response
    ensures response.headers == Delete(AddVariants(old(response.headers), h, vs, |vs|), h)
  {
    var j := 0;
    while j < |vs|
      invariant 0 <= j <= |vs|
      invariant response.headers == AddVariants(old(response.headers), h, vs, j)
    {
      response.headers := Set(response.headers, BinaryCase.BinaryCase(h, j + 1), Single(vs[j]));
      j := j + 1;
    }
    response.headers := Delete(response.headers, h);
  }
}
