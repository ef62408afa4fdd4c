/**
 * The `binary-case` library: `binaryCase(s, n)` toggles the case of the
 * letters of `s` that the bits of `n` select, the lowest bit selecting the
 * first letter. Only numbers below 2 to the number of letters are modelled
 * faithfully; the model ignores the higher bits.
 */
module BinaryCase {
  import opened Text

  function Toggle(c: char): char
  {
    if IsUpper(c) then (c as int - 'A' as int + 'a' as int) as char
    else if IsLower(c) then (c as int - 'a' as int + 'A' as int) as char
    else c
  }

  /** The number of letters of `s`. */
  function Letters(s: string): nat
  {
    if s == [] then 0 else (if IsAsciiLetter(s[0]) then 1 else 0) + Letters(s[1..])
  }

  /** The letters of a non-empty text: its first character's, then the rest's. */
  lemma LettersTail(s: string)
    requires s != []
    ensures Letters(s) == (if IsAsciiLetter(s[0]) then 1 else 0) + Letters(s[1..])
  {
  }

  function Pow2(k: nat): (p: nat)
    ensures p >= 1
  {
    if k == 0 then 1 else 2 * Pow2(k - 1)
  }

  /** `binaryCase(s, n)`. */
  function BinaryCase(s: string, n: nat): string
  {
    if s == [] then ""
    else if IsAsciiLetter(s[0]) then [if n % 2 == 1 then Toggle(s[0]) else s[0]] + BinaryCase(s[1..], n / 2)
    else [s[0]] + BinaryCase(s[1..], n)
  }

  /** A case variant differs from `s` only in case. */
  lemma {:induction false} SameLetters(s: string, n: nat)
    ensures |BinaryCase(s, n)| == |s|
    ensures ToLower(BinaryCase(s, n)) == ToLower(s)
  {
    if s != [] {
      SameLetters(s[1..], if IsAsciiLetter(s[0]) then n / 2 else n);
    }
  }

  /** Variant 0 is the string itself. */
  lemma {:induction false} ZeroIsIdentity(s: string)
    ensures BinaryCase(s, 0) == s
  {
    if s != [] {
      ZeroIsIdentity(s[1..]);
    }
  }

  /**
   * Distinct numbers below 2 to the number of letters give distinct variants,
   * so variants 1, 2, ..., n of a string differ from it and from each other.
   */
  lemma {:induction false} Injective(s: string, n: nat, m: nat)
    requires n < Pow2(Letters(s)) && m < Pow2(Letters(s))
    requires BinaryCase(s, n) == BinaryCase(s, m)
    ensures n == m
  {
    if s != [] {
      var a, b := BinaryCase(s, n), BinaryCase(s, m);
      assert a[0] == b[0] && a[1..] == b[1..];
      if IsAsciiLetter(s[0]) {
        assert Toggle(s[0]) != s[0];
        assert n % 2 == m % 2;
        Injective(s[1..], n / 2, m / 2);
      } else {
        Injective(s[1..], n, m);
      }
    }
  }

  /** Lower-casing keeps the letters, so case variants have as many letters. */
  lemma {:induction false} LettersOfLower(s: string)
    ensures Letters(ToLower(s)) == Letters(s)
  {
    if s != [] {
      LettersOfLower(s[1..]);
      assert ToLower(s)[1..] == ToLower(s[1..]);
    }
  }

  /** Variants 1 up to 2 to the number of letters, less one, all differ from the string itself. */
  lemma VariantDiffers(s: string, n: nat)
    requires 0 < n < Pow2(Letters(s))
    ensures BinaryCase(s, n) != s
  {
    ZeroIsIdentity(s);
    if BinaryCase(s, n) == s {
      Injective(s, n, 0);
    }
  }

  /** A letter at the head is toggled when the lowest bit is set, and the rest takes the other bits. */
  lemma LetterHead(s: string, n: nat)
    requires s != [] && IsAsciiLetter(s[0])
    ensures BinaryCase(s, n) == [if n % 2 == 1 then Toggle(s[0]) else s[0]] + BinaryCase(s[1..], n / 2)
  {
  }

  /** Variant 1 toggles only the first letter, variant 2 only the second. */
  lemma FirstVariants(s: string)
    requires |s| >= 2 && IsAsciiLetter(s[0]) && IsAsciiLetter(s[1])
    ensures BinaryCase(s, 1) == [Toggle(s[0])] + s[1..]
    ensures BinaryCase(s, 2) == [s[0], Toggle(s[1])] + s[2..]
  {
    var t := s[1..];
    assert t[0] == s[1] && t[1..] == s[2..];
    LetterHead(s, 1);
    LetterHead(s, 2);
    LetterHead(t, 1);
    ZeroIsIdentity(t);
    ZeroIsIdentity(t[1..]);
    assert [s[0]] + ([Toggle(s[1])] + s[2..]) == [s[0], Toggle(s[1])] + s[2..];
  }

  /**
   * The variants the tests expect for two cookies under `Set-Cookie`:
   * `set-Cookie` and `SEt-Cookie`. The parameters are bound to those literals
   * by the precondition; naming the unchanged tail `rest` lets the proof speak
   * of the two letters that change without unfolding the whole literal.
   */
  lemma SetCookieVariants(s: string, rest: string)
    requires rest == "t-Cookie" && s == ['S', 'e'] + rest
    ensures BinaryCase(s, 1) == ['s', 'e'] + rest && BinaryCase(s, 2) == ['S', 'E'] + rest
  {
    FirstVariants(s);
    assert s[2..] == rest;
  }
}
