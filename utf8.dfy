/**
 * UTF-8 as Node's `Buffer` applies it: `Buffer.from(s, 'utf8')` encodes each
 * code point of `s`, and `buf.toString('utf8')` decodes the well-formed
 * sequences of Table 3-7 of the Unicode Standard (section 3.9), replacing each
 * maximal ill-formed subpart by U+FFFD.
 */
module Utf8 {
  import opened Wrappers
  import opened Octets

  predicate IsScalar(cp: int)
  {
    0 <= cp < 0xD800 || 0xE000 <= cp < 0x11_0000
  }

  /** The UTF-8 bytes of one code point. */
  function EncodeScalar(cp: int): (bs: seq<Byte>)
    requires IsScalar(cp)
    ensures 1 <= |bs| <= 4
  {
    if cp < 0x80 then [cp]
    else if cp < 0x800 then [0xC0 + cp / 64, 0x80 + cp % 64]
    else if cp < 0x1_0000 then [0xE0 + cp / 4096, 0x80 + (cp / 64) % 64, 0x80 + cp % 64]
    else [0xF0 + cp / 262144, 0x80 + (cp / 4096) % 64, 0x80 + (cp / 64) % 64, 0x80 + cp % 64]
  }

  function EncodeChar(c: char): seq<Byte>
  {
    EncodeScalar(c as int)
  }

  /** `Buffer.from(s, 'utf8')`. */
  function Encode(s: string): seq<Byte>
  {
    if s == [] then [] else EncodeChar(s[0]) + Encode(s[1..])
  }

  /** Length of the well-formed sequence a lead byte starts, 0 for a byte that starts none. */
  function SequenceLength(lead: Byte): nat
  {
    if lead < 0x80 then 1
    else if 0xC2 <= lead <= 0xDF then 2
    else if 0xE0 <= lead <= 0xEF then 3
    else if 0xF0 <= lead <= 0xF4 then 4
    else 0
  }

  /** Whether byte `b` may stand at position `i` (1 to 3) after `lead` (Table 3-7). */
  predicate Follows(lead: Byte, i: nat, b: Byte)
  {
    if i == 1 then
      (if lead == 0xE0 then 0xA0 else if lead == 0xF0 then 0x90 else 0x80) <= b
      && b <= (if lead == 0xED then 0x9F else if lead == 0xF4 then 0x8F else 0xBF)
    else 0x80 <= b <= 0xBF
  }

  /** The number of bytes after the lead of `bs`, below `n`, that may continue it. */
  function Continuing(bs: seq<Byte>, n: nat, i: nat): (k: nat)
    requires 1 <= i <= |bs|
    ensures i + k <= |bs|
    ensures k == 0 || i + k <= n
    ensures forall j :: i <= j < i + k ==> Follows(bs[0], j, bs[j])
    decreases n - i
  {
    if i < n && i < |bs| && Follows(bs[0], i, bs[i]) then 1 + Continuing(bs, n, i + 1) else 0
  }

  /** The code point a lead and its continuation bytes denote. */
  function ValueOf(bs: seq<Byte>, n: nat): int
    requires 2 <= n <= 4 && |bs| >= n
  {
    if n == 2 then (bs[0] as int - 0xC0) * 64 + (bs[1] as int - 0x80)
    else if n == 3 then (bs[0] as int - 0xE0) * 4096 + (bs[1] as int - 0x80) * 64 + (bs[2] as int - 0x80)
    else (bs[0] as int - 0xF0) * 262144 + (bs[1] as int - 0x80) * 4096 + (bs[2] as int - 0x80) * 64 + (bs[3] as int - 0x80)
  }

  /** The well-formed sequence at the head of `bs`, as its code point and length. */
  function DecodeScalar(bs: seq<Byte>): (r: Option<(int, nat)>)
    ensures r.Some? ==> IsScalar(r.value.0) && 1 <= r.value.1 <= |bs|
    ensures r.Some? ==> r.value.1 == SequenceLength(bs[0])
  {
    if |bs| == 0 then None
    else
      var n := SequenceLength(bs[0]);
      if n == 0 || |bs| < n then None
      else if n == 1 then Some((bs[0], 1))
      else if Continuing(bs, n, 1) != n - 1 then None
      else
        assert Follows(bs[0], 1, bs[1]);
        assert n >= 3 ==> Follows(bs[0], 2, bs[2]);
        assert n == 4 ==> Follows(bs[0], 3, bs[3]);
        Some((ValueOf(bs, n), n))
  }

  /** The length of the maximal subpart that one U+FFFD replaces. */
  function SubpartLength(bs: seq<Byte>): (k: nat)
    requires |bs| > 0
    ensures 1 <= k <= |bs|
  {
    var n := SequenceLength(bs[0]);
    if n <= 1 then 1 else 1 + Continuing(bs, n, 1)
  }

  /** `buf.toString('utf8')`. */
  function Decode(bs: seq<Byte>): string
    decreases |bs|
  {
    if bs == [] then []
    else match DecodeScalar(bs)
      case Some((cp, n)) => [cp as char] + Decode(bs[n..])
      case None => ['�'] + Decode(bs[SubpartLength(bs)..])
  }

  /** Arithmetic of the 2-byte form. */
  lemma Split2(cp: int)
    requires 0x80 <= cp < 0x800
    ensures cp == (cp / 64) * 64 + cp % 64 && 2 <= cp / 64 < 32
  {
  }

  /** Arithmetic of the 3-byte form. */
  lemma Split3(cp: int)
    requires 0x800 <= cp < 0x1_0000
    ensures cp == (cp / 4096) * 4096 + ((cp / 64) % 64) * 64 + cp % 64
    ensures cp / 4096 == 0 ==> (cp / 64) % 64 >= 32
    ensures cp / 4096 == 13 && cp < 0xD800 ==> (cp / 64) % 64 < 32
  {
    var q := cp / 64;
    assert cp == q * 64 + cp % 64;
    assert q == (q / 64) * 64 + q % 64;
    assert q / 64 == cp / 4096;
  }

  /** Arithmetic of the 4-byte form. */
  lemma Split4(cp: int)
    requires 0x1_0000 <= cp < 0x11_0000
    ensures cp == (cp / 262144) * 262144 + ((cp / 4096) % 64) * 4096 + ((cp / 64) % 64) * 64 + cp % 64
    ensures cp / 262144 <= 4
    ensures cp / 262144 == 0 ==> (cp / 4096) % 64 >= 16
    ensures cp / 262144 == 4 ==> (cp / 4096) % 64 < 16
  {
    var q := cp / 64;
    var p := q / 64;
    assert cp == q * 64 + cp % 64;
    assert q == p * 64 + q % 64;
    assert p == (p / 64) * 64 + p % 64;
    assert p == cp / 4096;
    assert p / 64 == cp / 262144;
  }

  lemma DecodeEncode2(cp: int, rest: seq<Byte>)
    requires 0x80 <= cp < 0x800
    ensures DecodeScalar(EncodeScalar(cp) + rest) == Some((cp, 2))
  {
    Split2(cp);
    var bs := EncodeScalar(cp) + rest;
    assert bs[0] == 0xC0 + cp / 64 && bs[1] == 0x80 + cp % 64;
    assert SequenceLength(bs[0]) == 2;
    assert Continuing(bs, 2, 2) == 0;
    assert ValueOf(bs, 2) == cp;
  }

  lemma DecodeEncode3(cp: int, rest: seq<Byte>)
    requires 0x800 <= cp < 0x1_0000 && IsScalar(cp)
    ensures DecodeScalar(EncodeScalar(cp) + rest) == Some((cp, 3))
  {
    Split3(cp);
    var bs := EncodeScalar(cp) + rest;
    assert bs[0] == 0xE0 + cp / 4096 && bs[1] == 0x80 + (cp / 64) % 64 && bs[2] == 0x80 + cp % 64;
    assert SequenceLength(bs[0]) == 3;
    assert Follows(bs[0], 1, bs[1]) && Follows(bs[0], 2, bs[2]);
    assert Continuing(bs, 3, 3) == 0;
    assert ValueOf(bs, 3) == cp;
  }

  lemma DecodeEncode4(cp: int, rest: seq<Byte>)
    requires 0x1_0000 <= cp < 0x11_0000
    ensures DecodeScalar(EncodeScalar(cp) + rest) == Some((cp, 4))
  {
    Split4(cp);
    var bs := EncodeScalar(cp) + rest;
    assert bs[0] == 0xF0 + cp / 262144 && bs[1] == 0x80 + (cp / 4096) % 64;
    assert bs[2] == 0x80 + (cp / 64) % 64 && bs[3] == 0x80 + cp % 64;
    assert SequenceLength(bs[0]) == 4;
    assert Follows(bs[0], 1, bs[1]) && Follows(bs[0], 2, bs[2]) && Follows(bs[0], 3, bs[3]);
    assert Continuing(bs, 4, 4) == 0;
    assert ValueOf(bs, 4) == cp;
  }

  /** The bytes of a code point decode back to it, whatever follows them. */
  lemma DecodeEncodeScalar(cp: int, rest: seq<Byte>)
    requires IsScalar(cp)
    ensures DecodeScalar(EncodeScalar(cp) + rest) == Some((cp, |EncodeScalar(cp)|))
  {
    if cp < 0x80 {
      assert (EncodeScalar(cp) + rest)[0] == cp;
    } else if cp < 0x800 {
      DecodeEncode2(cp, rest);
    } else if cp < 0x1_0000 {
      DecodeEncode3(cp, rest);
    } else {
      DecodeEncode4(cp, rest);
    }
  }

  /** Decoding what `Buffer.from(s, 'utf8')` produced gives back `s`. */
  lemma {:induction false} DecodeEncode(s: string)
    ensures Decode(Encode(s)) == s
  {
    if s != [] {
      var e := EncodeChar(s[0]);
      DecodeEncodeScalar(s[0] as int, Encode(s[1..]));
      assert (e + Encode(s[1..]))[|e|..] == Encode(s[1..]);
      DecodeEncode(s[1..]);
    }
  }

  /** Each code point takes one to four bytes. */
  lemma {:induction false} EncodeLength(s: string)
    ensures |s| <= |Encode(s)| <= 4 * |s|
  {
    if s != [] {
      EncodeLength(s[1..]);
    }
  }
}
