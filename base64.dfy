/**
 * Base64 as Node's `Buffer` applies it. `buf.toString('base64')` is the
 * encoding of section 4 of RFC 4648, with `=` padding. `Buffer.from(s, 'base64')`
 * is lenient: it reads up to the first `=`, skips characters outside the
 * alphabet, also accepts the URL-safe digits `-` and `_` of section 5, and
 * drops a final lone digit.
 */
module Base64 {
  import opened Wrappers
  import opened Octets

  type Sextet = v: int | 0 <= v < 64

  /** The digit of the standard alphabet, `A`-`Z`, `a`-`z`, `0`-`9`, `+`, `/`, for a sextet. */
  function Digit(v: Sextet): char
  {
    if v < 26 then ('A' as int + v) as char
    else if v < 52 then ('a' as int + v - 26) as char
    else if v < 62 then ('0' as int + v - 52) as char
    else if v == 62 then '+'
    else '/'
  }

  /** The value of a base64 digit, for both alphabets. */
  function SextetOf(c: char): Option<Sextet>
  {
    if 'A' <= c <= 'Z' then Some(c as int - 'A' as int)
    else if 'a' <= c <= 'z' then Some(c as int - 'a' as int + 26)
    else if '0' <= c <= '9' then Some(c as int - '0' as int + 52)
    else if c == '+' || c == '-' then Some(62)
    else if c == '/' || c == '_' then Some(63)
    else None
  }

  lemma SextetOfDigit(v: Sextet)
    ensures SextetOf(Digit(v)) == Some(v) && Digit(v) != '='
  {
  }

  /** The sextets of a byte string, three bytes to four sextets, the last group zero-filled. */
  function ToSextets(bs: seq<Byte>): seq<Sextet>
  {
    var b: seq<int> := bs;
    if |b| == 0 then []
    else if |b| == 1 then [b[0] / 4, (b[0] % 4) * 16]
    else if |b| == 2 then [b[0] / 4, (b[0] % 4) * 16 + b[1] / 16, (b[1] % 16) * 4]
    else [b[0] / 4, (b[0] % 4) * 16 + b[1] / 16, (b[1] % 16) * 4 + b[2] / 64, b[2] % 64]
         + ToSextets(bs[3..])
  }

  /** The digits of the sextets: each character reads back as its sextet, and none is `=`. */
  function Render(vs: seq<Sextet>): (s: string)
    ensures |s| == |vs|
    ensures forall i :: 0 <= i < |vs| ==> SextetOf(s[i]) == Some(vs[i]) && s[i] != '='
  {
    if vs == [] then ""
    else
      SextetOfDigit(vs[0]);
      [Digit(vs[0])] + Render(vs[1..])
  }

  function Padding(n: nat): string
  {
    if n % 3 == 1 then "==" else if n % 3 == 2 then "=" else ""
  }

  /** `buf.toString('base64')`. */
  function Encode(bs: seq<Byte>): string
  {
    Render(ToSextets(bs)) + Padding(|bs|)
  }

  /** The digit values before the first `=`, other characters skipped. */
  function Sextets(s: string): seq<Sextet>
  {
    if s == [] || s[0] == '=' then []
    else match SextetOf(s[0])
      case Some(v) => [v] + Sextets(s[1..])
      case None => Sextets(s[1..])
  }

  /** Four sextets to three bytes; a final group of three gives two bytes, of two one, of one none. */
  function FromSextets(vs: seq<Sextet>): seq<Byte>
  {
    var v: seq<int> := vs;
    if |v| <= 1 then []
    else if |v| == 2 then [v[0] * 4 + v[1] / 16]
    else if |v| == 3 then [v[0] * 4 + v[1] / 16, (v[1] % 16) * 16 + v[2] / 4]
    else [v[0] * 4 + v[1] / 16, (v[1] % 16) * 16 + v[2] / 4, (v[2] % 4) * 64 + v[3]]
         + FromSextets(vs[4..])
  }

  /** `Buffer.from(s, 'base64')`. */
  function Decode(s: string): seq<Byte>
  {
    FromSextets(Sextets(s))
  }

  lemma {:induction false} SextetsOfRendered(vs: seq<Sextet>, pad: string)
    requires pad == [] || pad[0] == '='
    ensures Sextets(Render(vs) + pad) == vs
  {
    if vs != [] {
      assert (Render(vs) + pad)[1..] == Render(vs[1..]) + pad;
      SextetsOfRendered(vs[1..], pad);
    }
  }

  lemma {:induction false} FromToSextets(bs: seq<Byte>)
    ensures FromSextets(ToSextets(bs)) == bs
  {
    if |bs| >= 3 {
      var vs := ToSextets(bs);
      assert vs[4..] == ToSextets(bs[3..]);
      FromToSextets(bs[3..]);
      assert FromSextets(vs) == bs[..3] + FromSextets(vs[4..]);
      assert bs == bs[..3] + bs[3..];
    }
  }

  /** Decoding what `buf.toString('base64')` produced gives back the bytes. */
  lemma DecodeEncode(bs: seq<Byte>)
    ensures Decode(Encode(bs)) == bs
  {
    SextetsOfRendered(ToSextets(bs), Padding(|bs|));
    FromToSextets(bs);
  }
}
