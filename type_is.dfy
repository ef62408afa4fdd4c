// The `type-is` library's `is(value, types)`, reduced to what the bridge uses:
// whether a media type matches one of a list of patterns. A pattern is an exact
// type (`image/jpeg`), a wildcard (`image/*`, `*/*`), a structured-syntax
// suffix (`+json`, `*/*+json`), one of the shorthands `urlencoded` and
// `multipart`, or an extension (`.png`, `png`) looked up in a MIME table that
// is a parameter here.
module TypeIs {
  import opened Wrappers
  import opened Text

  /** The extension-to-type table of the `mime-types` library; None for `false`. */
  type MimeLookup = string -> Option<string>

  predicate IsTypeChar(c: char)
  {
    IsAsciiLetter(c) || IsDigit(c) || c in "!#$&^_-"
  }

  predicate IsSubtypeChar(c: char)
  {
    IsTypeChar(c) || c == '.' || c == '+'
  }

  /** A token of the media-type grammar: an alphanumeric first character, at most 127 characters. */
  predicate IsToken(s: string, subtype: bool)
  {
    0 < |s| <= 127 && (IsAsciiLetter(s[0]) || IsDigit(s[0]))
    && forall i :: 0 < i < |s| ==> if subtype then IsSubtypeChar(s[i]) else IsTypeChar(s[i])
  }

  /** `s` without its leading spaces. */
  function DropLeadingSpaces(s: string): (r: string)
    ensures |r| <= |s| && r == s[|s| - |r|..]
    ensures forall i :: 0 <= i < |s| - |r| ==> s[i] == ' '
    ensures r == [] || r[0] != ' '
  {
    if s != [] && s[0] == ' ' then DropLeadingSpaces(s[1..]) else s
  }

  /** `s` without its trailing spaces. */
  function DropTrailingSpaces(s: string): (r: string)
    ensures |r| <= |s| && r == s[..|r|]
    ensures forall i :: |r| <= i < |s| ==> s[i] == ' '
    ensures r == [] || r[|r| - 1] != ' '
  {
    if s != [] && s[|s| - 1] == ' ' then DropTrailingSpaces(s[..|s| - 1]) else s
  }

  /** The value lower-cased without the spaces around it, as `media-typer` matches it. */
  function Trimmed(value: string): (r: string)
    ensures |r| <= |value| && LowerCased(r)
    ensures '/' in r ==> '/' in value
  {
    var w := DropTrailingSpaces(DropLeadingSpaces(value));
    LowerKeepsSlash(w);
    SpacesKeepSlash(value);
    ToLower(w)
  }

  /** Lower-casing makes no slash. */
  lemma LowerKeepsSlash(w: string)
    ensures '/' in ToLower(w) ==> '/' in w
  {
    var l := ToLower(w);
    if '/' in l {
      var i :| 0 <= i < |l| && l[i] == '/';
      assert l[i] == LowerChar(w[i]);
    }
  }

  /** Dropping spaces drops no slash. */
  lemma SpacesKeepSlash(value: string)
    ensures '/' in DropTrailingSpaces(DropLeadingSpaces(value)) ==> '/' in value
  {
    var u := DropLeadingSpaces(value);
    var w := DropTrailingSpaces(u);
    if '/' in w {
      var i :| 0 <= i < |w| && w[i] == '/';
      assert u[i] == '/';
      assert value[|value| - |u| + i] == '/';
    }
  }

  /**
   * The subtype as `media-typer` splits and formats it: it splits at its last
   * `+` into a name, which may hold no `+`, and a suffix, which must be a type
   * token when present; an empty suffix is dropped. None when it is malformed.
   * The result is the subtype itself, or the subtype without a final `+`.
   */
  function FormatSubtype(sub: string): (r: Option<string>)
    ensures r.Some? ==> IsToken(r.value, true) && '/' !in r.value
    ensures r.Some? ==> r.value == sub || sub == r.value + "+"
  {
    var k := LastIndexOf(sub, '+');
    var name := if k < 0 then sub else sub[..k];
    var suffix := if k < 0 then "" else sub[k + 1..];
    if IsToken(sub, true) && IsToken(name, true) && '+' !in name && (suffix == "" || IsToken(suffix, false))
    then
      FormattedSubtype(sub, k, name, suffix);
      Some(name + (if suffix == "" then "" else "+" + suffix))
    else None
  }

  /**
   * The normalised form of a media type, as `media-typer` parses and formats
   * it: the text between optional spaces, lower-cased, must be `type/subtype`
   * with a well-formed type and subtype. None when the value is malformed.
   */
  function Normalize(value: string): (r: Option<string>)
    ensures r.Some? ==> '/' in value && |r.value| <= |value| && LowerCased(r.value)
  {
    var v := Trimmed(value);
    var t := BeforeFirst(v, '/');
    if |t| == |v| || !IsToken(t, false) then None
    else
      match FormatSubtype(v[|t| + 1..])
        case None => None
        case Some(sub) =>
          JoinedLowerCased(v, t, sub);
          Some(t + "/" + sub)
  }

  /** The type a pattern stands for, as `type-is` normalises it; None for `false`. */
  function PatternType(p: string, lookup: MimeLookup): Option<string>
  {
    if p == "urlencoded" then Some("application/x-www-form-urlencoded")
    else if p == "multipart" then Some("multipart/*")
    else if |p| > 0 && p[0] == '+' then Some("*/*" + p)
    else if '/' !in p then lookup(p)
    else Some(p)
  }

  /** `s.split('/')` has exactly two parts. */
  predicate TwoParts(s: string)
  {
    var t := BeforeFirst(s, '/');
    |t| < |s| && '/' !in s[|t| + 1..]
  }

  /** Whether the normalised pattern `expected` matches the normalised type `actual`. */
  predicate MimeMatch(expected: string, actual: string)
  {
    TwoParts(expected) && TwoParts(actual) &&
    var et := BeforeFirst(expected, '/');
    var es := expected[|et| + 1..];
    var at := BeforeFirst(actual, '/');
    var as_ := actual[|at| + 1..];
    (et == "*" || et == at) &&
    if |es| >= 2 && es[..2] == "*+" then
      |es| <= |as_| + 1 && as_[|as_| - (|es| - 1)..] == es[1..]
    else es == "*" || es == as_
  }

  /** `!!typeis.is(value, types)`. With no patterns it holds of every well-formed type. */
  predicate Is(value: string, types: seq<string>, lookup: MimeLookup)
  {
    match Normalize(value)
      case None => false
      case Some(actual) =>
        |types| == 0 ||
        exists i :: 0 <= i < |types| && PatternType(types[i], lookup).Some? && MimeMatch(PatternType(types[i], lookup).value, actual)
  }

  /** A token holds no slash. */
  lemma TokenHasNoSlash(s: string, subtype: bool)
    requires IsToken(s, subtype)
    ensures '/' !in s
  {
    forall i | 0 <= i < |s|
      ensures s[i] != '/'
    {
      if 0 < i {
        assert if subtype then IsSubtypeChar(s[i]) else IsTypeChar(s[i]);
      }
    }
  }

  /** The subtype as formatted is the name alone or the whole subtype parsed. */
  lemma FormattedSubtype(whole: string, k: int, name: string, suffix: string)
    requires IsToken(whole, true) && IsToken(name, true)
    requires -1 <= k < |whole| && (0 <= k ==> whole[k] == '+')
    requires name == (if k < 0 then whole else whole[..k]) && suffix == (if k < 0 then "" else whole[k + 1..])
    ensures var sub := name + (if suffix == "" then "" else "+" + suffix);
      IsToken(sub, true) && '/' !in sub && (sub == whole || whole == sub + "+")
  {
    var sub := name + (if suffix == "" then "" else "+" + suffix);
    if suffix == "" {
      assert sub == name;
      if 0 <= k {
        assert whole == whole[..k] + [whole[k]];
      }
      TokenHasNoSlash(name, true);
    } else {
      assert whole == whole[..k] + [whole[k]] + whole[k + 1..];
      assert sub == whole;
      TokenHasNoSlash(whole, true);
    }
  }

  /** `type/subtype` cut from lower-cased text is lower-cased. */
  lemma JoinedLowerCased(v: string, t: string, sub: string)
    requires LowerCased(v) && |t| < |v| && t == v[..|t|]
    requires sub == v[|t| + 1..] || v[|t| + 1..] == sub + "+"
    ensures LowerCased(t + "/" + sub)
  {
    var r := t + "/" + sub;
    forall i | 0 <= i < |r|
      ensures !IsUpper(r[i])
    {
      if i < |t| {
        assert r[i] == v[i];
      } else if i > |t| {
        assert r[i] == v[i];
      }
    }
  }

  /** A well-formed media type is `type/subtype`, neither part with a slash. */
  lemma NormalizedParts(value: string) returns (t: string, sub: string)
    requires Normalize(value).Some?
    ensures Normalize(value).value == t + "/" + sub
    ensures IsToken(t, false) && IsToken(sub, true) && '/' !in t && '/' !in sub
    ensures BeforeFirst(t + "/" + sub, '/') == t && (t + "/" + sub)[|t| + 1..] == sub
  {
    var v := Trimmed(value);
    t := BeforeFirst(v, '/');
    sub := FormatSubtype(v[|t| + 1..]).value;
    BeforeFirstSplit(t, '/', sub);
    assert (t + "/" + sub)[|t| + 1..] == sub;
  }

  /** Spaces around a media type do not change its normal form, before or after it. */
  lemma SpacesIgnored(value: string)
    ensures Normalize(" " + value) == Normalize(value)
    ensures Normalize(value + " ") == Normalize(value)
  {
    assert (" " + value)[1..] == value;
    SameTrimmed(" " + value, value);
    TrailingSpaceTrimmed(value);
    SameTrimmed(value + " ", value);
  }

  /** The normal form depends on the trimmed text alone. */
  lemma SameTrimmed(x: string, y: string)
    requires Trimmed(x) == Trimmed(y)
    ensures Normalize(x) == Normalize(y)
  {
  }

  /** A space after the text is dropped with the trailing spaces. */
  lemma {:induction false} TrailingSpaceTrimmed(s: string)
    ensures DropTrailingSpaces(DropLeadingSpaces(s + " ")) == DropTrailingSpaces(DropLeadingSpaces(s))
    decreases |s|
  {
    var t := s + " ";
    if s == [] {
      assert DropLeadingSpaces(t) == DropLeadingSpaces(t[1..]);
      assert t[1..] == [];
    } else if s[0] == ' ' {
      assert t[1..] == s[1..] + " ";
      assert DropLeadingSpaces(t) == DropLeadingSpaces(s[1..] + " ");
      assert DropLeadingSpaces(s) == DropLeadingSpaces(s[1..]);
      TrailingSpaceTrimmed(s[1..]);
    } else {
      assert DropLeadingSpaces(t) == t && DropLeadingSpaces(s) == s;
      assert t[..|s|] == s;
      assert DropTrailingSpaces(t) == DropTrailingSpaces(s);
    }
  }

  /** A name followed by an empty suffix formats as the name alone, unless the `+` makes it too long. */
  lemma EmptySuffixDropped(name: string)
    requires IsToken(name, true) && '+' !in name && |name| < 127
    ensures FormatSubtype(name + "+") == Some(name)
    ensures FormatSubtype(name) == Some(name)
  {
    var sub := name + "+";
    assert sub[..|name|] == name;
    assert IsToken(sub, true);
  }

  /** A subtype holding two `+` is malformed: the name before the last `+` would hold one. */
  lemma SecondPlusRejected(a: string, b: string, c: string)
    ensures FormatSubtype(a + "+" + b + "+" + c) == None
  {
    var sub := a + "+" + b + "+" + c;
    var k := LastIndexOf(sub, '+');
    assert sub[|a| + 1 + |b|] == '+';
    assert sub[..k][|a|] == '+';
  }

  /** Normalising twice changes nothing: the normal form is its own normal form. */
  lemma NormalizeIdempotent(value: string)
    requires Normalize(value).Some?
    ensures Normalize(Normalize(value).value) == Normalize(value)
  {
    var v := Trimmed(value);
    var t := BeforeFirst(v, '/');
    var rest := v[|t| + 1..];
    var sub := FormatSubtype(rest).value;
    NormalizeOf(value, t, rest);
    FormatSubtypeIdempotent(rest);
    NormalizeCanonical(t, sub);
  }

  /** A lower-cased `type/subtype` whose subtype is already formatted is its own normal form. */
  lemma NormalizeCanonical(t: string, sub: string)
    requires IsToken(t, false) && FormatSubtype(sub) == Some(sub) && LowerCased(t + "/" + sub)
    ensures Normalize(t + "/" + sub) == Some(t + "/" + sub)
  {
    var r := t + "/" + sub;
    EndsOfToken(t, false);
    EndsOfToken(sub, true);
    assert r[0] == t[0] && r[|r| - 1] == sub[|sub| - 1];
    CanonicalTrimmed(r);
    TokenHasNoSlash(t, false);
    BeforeFirstSplit(t, '/', sub);
    AfterPrefix(t + "/", sub);
    NormalizeOf(r, t, sub);
  }

  lemma AfterPrefix(p: string, s: string)
    ensures (p + s)[|p|..] == s
  {
  }

  /** A token neither starts nor ends with a space. */
  lemma EndsOfToken(s: string, subtype: bool)
    requires IsToken(s, subtype)
    ensures s[0] != ' ' && s[|s| - 1] != ' '
  {
    if |s| > 1 {
      assert if subtype then IsSubtypeChar(s[|s| - 1]) else IsTypeChar(s[|s| - 1]);
    }
  }

  /** The normal form of a value whose trimmed text is `t/rest`, with `t` a type token. */
  lemma NormalizeOf(value: string, t: string, rest: string)
    requires |t| < |Trimmed(value)| && BeforeFirst(Trimmed(value), '/') == t && Trimmed(value)[|t| + 1..] == rest
    requires IsToken(t, false) && FormatSubtype(rest).Some?
    ensures Normalize(value) == Some(t + "/" + FormatSubtype(rest).value)
  {
  }

  /** Formatting a formatted subtype gives it back. */
  lemma FormatSubtypeIdempotent(sub: string)
    requires FormatSubtype(sub).Some?
    ensures FormatSubtype(FormatSubtype(sub).value) == FormatSubtype(sub)
  {
    var f := FormatSubtype(sub).value;
    if f != sub {
      assert sub[..|f|] == f;
      assert LastIndexOf(sub, '+') == |f|;
      assert '+' !in f;
      assert LastIndexOf(f, '+') == -1;
    }
  }

  /** Lower-cased text with no space at either end is its own trimmed form. */
  lemma CanonicalTrimmed(s: string)
    requires LowerCased(s) && (s == [] || (s[0] != ' ' && s[|s| - 1] != ' '))
    ensures Trimmed(s) == s
  {
    var l := ToLower(s);
    assert forall i :: 0 <= i < |s| ==> l[i] == s[i];
  }

  /** A well-formed `type/subtype` matches itself. */
  lemma SelfMatch(t: string, sub: string)
    requires IsToken(t, false) && IsToken(sub, true) && '/' !in t && '/' !in sub
    ensures MimeMatch(t + "/" + sub, t + "/" + sub)
  {
    var a := t + "/" + sub;
    BeforeFirstSplit(t, '/', sub);
    assert a[|t| + 1..] == sub;
    assert sub[0] != '*';
  }

  /** A pattern holding a slash and not starting with `+` stands for itself. */
  lemma PlainPattern(t: string, rest: string, lookup: MimeLookup)
    requires IsToken(t, false)
    ensures PatternType(t + "/" + rest, lookup) == Some(t + "/" + rest)
  {
    var p := t + "/" + rest;
    assert p[|t|] == '/';
    assert p != "urlencoded" && p != "multipart" by {
      assert '/' !in "urlencoded" && '/' !in "multipart";
    }
  }

  /** An exact entry equal to the normalised type matches it. */
  lemma ExactEntryMatches(value: string, types: seq<string>, i: nat, lookup: MimeLookup)
    requires Normalize(value).Some? && i < |types| && types[i] == Normalize(value).value
    ensures Is(value, types, lookup)
  {
    var t, sub := NormalizedParts(value);
    PlainPattern(t, sub, lookup);
    SelfMatch(t, sub);
    MatchAt(value, types, i, lookup, t + "/" + sub);
  }

  // The pattern "t/" followed by a star matches every "t/sub".
  lemma WildcardMatch(t: string, sub: string)
    requires '/' !in t && '/' !in sub
    ensures MimeMatch(t + "/*", t + "/" + sub)
  {
    var a := t + "/" + sub;
    var p := t + "/" + "*";
    assert p == t + "/*";
    BeforeFirstSplit(t, '/', sub);
    BeforeFirstSplit(t, '/', "*");
    assert a[|t| + 1..] == sub;
    assert p[|t| + 1..] == "*";
  }

  // A wildcard entry "type/" followed by a star matches every subtype of that type.
  lemma WildcardEntryMatches(value: string, types: seq<string>, i: nat, lookup: MimeLookup)
    requires Normalize(value).Some? && i < |types|
    requires types[i] == BeforeFirst(Normalize(value).value, '/') + "/*"
    ensures Is(value, types, lookup)
  {
    var t, sub := NormalizedParts(value);
    WildcardPattern(t, sub, types[i], lookup);
    MatchAt(value, types, i, lookup, t + "/" + sub);
  }

  /** The entry "t/" followed by a star stands for itself and matches "t/sub". */
  lemma WildcardPattern(t: string, sub: string, p: string, lookup: MimeLookup)
    requires IsToken(t, false) && '/' !in t && '/' !in sub && p == t + "/*"
    ensures PatternType(p, lookup) == Some(p) && MimeMatch(p, t + "/" + sub)
  {
    assert t + "/" + "*" == p;
    PlainPattern(t, "*", lookup);
    WildcardMatch(t, sub);
  }

  /** One matching entry is enough. */
  lemma MatchAt(value: string, types: seq<string>, i: nat, lookup: MimeLookup, actual: string)
    requires Normalize(value) == Some(actual) && i < |types|
    requires PatternType(types[i], lookup).Some? && MimeMatch(PatternType(types[i], lookup).value, actual)
    ensures Is(value, types, lookup)
  {
  }

  /** An extension entry matches the type the MIME table gives for it. */
  lemma ExtensionEntryMatches(value: string, types: seq<string>, i: nat, lookup: MimeLookup)
    requires Normalize(value).Some? && i < |types|
    requires '/' !in types[i] && types[i] != "urlencoded" && types[i] != "multipart"
    requires types[i] == [] || types[i][0] != '+'
    requires lookup(types[i]) == Some(Normalize(value).value)
    ensures Is(value, types, lookup)
  {
    var t, sub := NormalizedParts(value);
    var a := t + "/" + sub;
    assert PatternType(types[i], lookup) == Some(a);
    SelfMatch(t, sub);
    MatchAt(value, types, i, lookup, a);
  }

  /** With no patterns at all `is` answers with the type itself, which is truthy. */
  lemma EmptyPatternsMatchAll(value: string, lookup: MimeLookup)
    requires Normalize(value).Some?
    ensures Is(value, [], lookup)
  {
  }
}
