/**
 * Percent-encoding of URI components, as ECMAScript's `encodeURIComponent`
 * and `decodeURIComponent` do it (the Encode and Decode operations of section
 * 19.2.6 of ECMA-262, with the unreserved set `A-Z a-z 0-9 - _ . ! ~ * ' ( )`
 * and an empty reserved set). Node's `querystring.escape` uses the same set.
 * A string here is a sequence of code points, so the lone surrogates that make
 * `encodeURIComponent` throw do not arise.
 */
module UriComponent {
  import opened Wrappers
  import opened Octets
  import Utf8

  /** The characters `encodeURIComponent` leaves as they are. */
  predicate Unreserved(c: char)
  {
    'A' <= c <= 'Z' || 'a' <= c <= 'z' || '0' <= c <= '9'
    || c == '-' || c == '_' || c == '.' || c == '!' || c == '~' || c == '*' || c == '\'' || c == '(' || c == ')'
  }

  /** An upper-case hexadecimal digit. */
  function HexDigit(d: int): char
    requires 0 <= d < 16
  {
    if d < 10 then ('0' as int + d) as char else ('A' as int + d - 10) as char
  }

  /** The value of a hexadecimal digit of either case. */
  function HexValue(c: char): Option<int>
  {
    if '0' <= c <= '9' then Some(c as int - '0' as int)
    else if 'A' <= c <= 'F' then Some(c as int - 'A' as int + 10)
    else if 'a' <= c <= 'f' then Some(c as int - 'a' as int + 10)
    else None
  }

  /** `%XY` for one byte. */
  function Escape(b: Byte): string
  {
    ['%', HexDigit(b / 16), HexDigit(b % 16)]
  }

  function EscapeAll(bs: seq<Byte>): (s: string)
    ensures |s| == 3 * |bs|
  {
    if bs == [] then "" else Escape(bs[0]) + EscapeAll(bs[1..])
  }

  function EncodeChar(c: char): string
  {
    if Unreserved(c) then [c] else EscapeAll(Utf8.EncodeChar(c))
  }

  /** `encodeURIComponent(s)`. */
  function Encode(s: string): string
  {
    if s == [] then "" else EncodeChar(s[0]) + Encode(s[1..])
  }

  /** The byte that `%XY` at position `i` of `s` denotes. */
  function EscapedByte(s: string, i: nat): Option<Byte>
  {
    if i + 2 < |s| && s[i] == '%' && HexValue(s[i + 1]).Some? && HexValue(s[i + 2]).Some?
    then Some(HexValue(s[i + 1]).value * 16 + HexValue(s[i + 2]).value)
    else None
  }

  /** The `k` escaped bytes that follow the first escape of `s`, at positions 3, 6, .... */
  function EscapedBytes(s: string, k: nat): (r: Option<seq<Byte>>)
    ensures r.Some? ==> |r.value| == k
  {
    if k == 0 then Some([])
    else match (EscapedBytes(s, k - 1), EscapedByte(s, 3 * k))
      case (Some(bs), Some(b)) => Some(bs + [b])
      case _ => None
  }

  /** The number of leading one bits of a byte. */
  function LeadingOnes(b: Byte): nat
  {
    if b < 0x80 then 0 else if b < 0xC0 then 1 else if b < 0xE0 then 2 else if b < 0xF0 then 3
    else if b < 0xF8 then 4 else 5
  }

  /** One decoded character at the head of `s` and the length of its source; None is a URIError. */
  function DecodeUnit(s: string): (r: Option<(char, nat)>)
    requires |s| > 0
    ensures r.Some? ==> 1 <= r.value.1 <= |s|
  {
    if s[0] != '%' then Some((s[0], 1))
    else match EscapedByte(s, 0)
      case None => None
      case Some(b) =>
        var n := LeadingOnes(b);
        if n == 0 then Some((b as char, 3))
        else if n == 1 || n > 4 || |s| < 3 * n then None
        else match EscapedBytes(s, n - 1)
          case None => None
          case Some(rest) =>
            match Utf8.DecodeScalar([b] + rest)
              case Some((cp, m)) => if m == n then Some((cp as char, 3 * n)) else None
              case None => None
  }

  /** `decodeURIComponent(s)`, with None for the URIError it throws. */
  function Decode(s: string): Option<string>
    decreases |s|
  {
    if s == [] then Some("")
    else match DecodeUnit(s)
      case None => None
      case Some((c, n)) =>
        match Decode(s[n..])
          case None => None
          case Some(t) => Some([c] + t)
  }

  /** What `encodeURIComponent` emits: unreserved characters, `%` and upper-case hex digits. */
  predicate EncodedChar(c: char)
  {
    Unreserved(c) || c == '%'
  }

  lemma {:induction false} EscapeAllChars(bs: seq<Byte>)
    ensures forall i :: 0 <= i < |EscapeAll(bs)| ==> EncodedChar(EscapeAll(bs)[i])
  {
    if bs != [] {
      EscapeAllChars(bs[1..]);
      var s := EscapeAll(bs);
      assert s == Escape(bs[0]) + EscapeAll(bs[1..]);
      forall i | 0 <= i < |s| ensures EncodedChar(s[i]) {
        if i >= 3 {
          assert s[i] == EscapeAll(bs[1..])[i - 3];
        }
      }
    }
  }

  lemma NotDelimiter(c: char)
    requires EncodedChar(c)
    ensures c !in "&=?#"
  {
  }

  /** What one character encodes to holds only unreserved characters and escapes. */
  lemma EncodeCharChars(c: char)
    ensures forall i :: 0 <= i < |EncodeChar(c)| ==> EncodedChar(EncodeChar(c)[i])
  {
    if !Unreserved(c) {
      EscapeAllChars(Utf8.EncodeChar(c));
    }
  }

  /**
   * The output of `encodeURIComponent` holds only unreserved characters and
   * escapes, so none of the query-string delimiters `&`, `=`, `?`, `#`.
   */
  lemma {:induction false} EncodeChars(s: string)
    ensures forall i :: 0 <= i < |Encode(s)| ==> EncodedChar(Encode(s)[i])
    ensures forall i :: 0 <= i < |Encode(s)| ==> Encode(s)[i] !in "&=?#"
  {
    var t := Encode(s);
    if s != [] {
      EncodeChars(s[1..]);
      EncodeCharChars(s[0]);
      var e, r := EncodeChar(s[0]), Encode(s[1..]);
      assert t == e + r;
      forall i | 0 <= i < |t| ensures EncodedChar(t[i]) {
        if i < |e| {
          assert t[i] == e[i];
        } else {
          assert t[i] == r[i - |e|];
        }
      }
    }
    forall i | 0 <= i < |t| ensures t[i] !in "&=?#" {
      NotDelimiter(t[i]);
    }
  }

  lemma HexRoundTrip(b: Byte)
    ensures HexValue(HexDigit(b / 16)) == Some(b / 16) && HexValue(HexDigit(b % 16)) == Some(b % 16)
  {
  }

  /** The escape of byte `b` at position `i` of a text reads back as `b`. */
  lemma EscapedByteAt(s: string, i: nat, b: Byte)
    requires i + 3 <= |s| && s[i..i + 3] == Escape(b)
    ensures EscapedByte(s, i) == Some(b)
  {
    HexRoundTrip(b);
    var e := Escape(b);
    assert s[i] == e[0] && s[i + 1] == e[1] && s[i + 2] == e[2];
    assert b / 16 * 16 + b % 16 == b;
  }

  /** The escapes of a byte string read back as those bytes. */
  lemma {:induction false} EscapedBytesOf(bs: seq<Byte>, rest: string, k: nat)
    requires 1 <= k < |bs|
    ensures EscapedBytes(EscapeAll(bs) + rest, k) == Some(bs[1..k + 1])
  {
    var e := EscapeAll(bs);
    var s := e + rest;
    if k > 1 {
      EscapedBytesOf(bs, rest, k - 1);
    }
    EscapeAt(bs, k);
    assert s[3 * k..3 * k + 3] == e[3 * k..3 * k + 3];
    EscapedByteAt(s, 3 * k, bs[k]);
    assert bs[1..k] + [bs[k]] == bs[1..k + 1];
  }

  /** Escape `k` of a byte string sits at position `3 * k`. */
  lemma {:induction false} EscapeAt(bs: seq<Byte>, k: nat)
    requires k < |bs|
    ensures EscapeAll(bs)[3 * k..3 * k + 3] == Escape(bs[k])
  {
    if k > 0 {
      EscapeAt(bs[1..], k - 1);
      assert EscapeAll(bs) == Escape(bs[0]) + EscapeAll(bs[1..]);
    }
  }

  /** A lead byte of UTF-8 announces the length of its sequence in its leading one bits. */
  lemma LeadOnes(b: Byte)
    requires Utf8.SequenceLength(b) >= 1
    ensures LeadingOnes(b) == if Utf8.SequenceLength(b) == 1 then 0 else Utf8.SequenceLength(b)
  {
  }

  /** What one character encodes to decodes back to that character, whatever follows. */
  lemma DecodeEncodeChar(c: char, rest: string)
    ensures DecodeUnit(EncodeChar(c) + rest) == Some((c, |EncodeChar(c)|))
  {
    if !Unreserved(c) {
      var bs := Utf8.EncodeChar(c);
      var s := EscapeAll(bs) + rest;
      EscapeAt(bs, 0);
      assert s[0..3] == EscapeAll(bs)[0..3];
      EscapedByteAt(s, 0, bs[0]);
      Utf8.DecodeEncodeScalar(c as int, []);
      assert bs + [] == bs;
      var n := |bs|;
      LeadOnes(bs[0]);
      if n > 1 {
        EscapedBytesOf(bs, rest, n - 1);
        assert [bs[0]] + bs[1..n] == bs;
      }
    }
  }

  /** `decodeURIComponent(encodeURIComponent(s))` is `s`. */
  lemma {:induction false} DecodeEncode(s: string)
    ensures Decode(Encode(s)) == Some(s)
  {
    if s != [] {
      var e := EncodeChar(s[0]);
      var rest := Encode(s[1..]);
      var t := Encode(s);
      assert t == e + rest;
      DecodeEncodeChar(s[0], rest);
      assert DecodeUnit(t) == Some((s[0], |e|));
      assert t[|e|..] == rest;
      DecodeEncode(s[1..]);
      assert Decode(t) == Some([s[0]] + s[1..]);
      assert [s[0]] + s[1..] == s;
    }
  }

  /** Encoding works character by character, so it distributes over concatenation. */
  lemma {:induction false} EncodeConcat(a: string, b: string)
    ensures Encode(a + b) == Encode(a) + Encode(b)
  {
    if a != [] {
      assert (a + b)[0] == a[0] && (a + b)[1..] == a[1..] + b;
      EncodeConcat(a[1..], b);
      assert Encode(a + b) == EncodeChar(a[0]) + Encode(a[1..] + b);
      assert Encode(a) == EncodeChar(a[0]) + Encode(a[1..]);
    } else {
      assert a + b == b;
    }
  }

  /** Text made only of unreserved characters is left as it is. */
  lemma {:induction false} EncodeUnreserved(s: string)
    requires forall i :: 0 <= i < |s| ==> Unreserved(s[i])
    ensures Encode(s) == s
  {
    if s != [] {
      EncodeUnreserved(s[1..]);
      assert [s[0]] + s[1..] == s;
    }
  }
}
