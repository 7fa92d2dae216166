/**
 * The host bridge's escaping of a string for use inside a regular
 * expression (main.dart.mjs, `_1524`): every occurrence of one of the
 * fourteen metacharacters `[ ] { } ( ) * + ? . \ ^ $ |` is prefixed with a
 * backslash.
 */
module RegExpEscape {
  import opened JsString

  const Backslash: CodeUnit := 0x5C

  /** The character class `[[\]{}()*+?.\\^$|]`, as code units. */
  const MetaChars: set<CodeUnit> := {
    0x5B, 0x5D,   // [ ]
    0x7B, 0x7D,   // { }
    0x28, 0x29,   // ( )
    0x2A, 0x2B,   // * +
    0x3F, 0x2E,   // ? .
    0x5C, 0x5E,   // \ ^
    0x24, 0x7C    // $ |
  }

  predicate IsMeta(c: CodeUnit) {
    c in MetaChars
  }

  /** The `test` of the character class: some unit of `s` is a
      metacharacter. */
  predicate HasMeta(s: JsStr) {
    exists i :: 0 <= i < |s| && IsMeta(s[i])
  }

  /** `s.replace(/[...]/g, '\\$&')`: each match, a single metacharacter, is
      replaced by a backslash followed by the match. */
  function ReplaceAll(s: JsStr): JsStr {
    if s == [] then []
    else (if IsMeta(s[0]) then [Backslash, s[0]] else [s[0]]) + ReplaceAll(s[1..])
  }

  /** `_1524(s)`: the replacement runs only when the test finds a
      metacharacter. */
  function EscapeRegExp(s: JsStr): JsStr {
    if HasMeta(s) then ReplaceAll(s) else s
  }

  /** The number of metacharacters in `s`. */
  function CountMeta(s: JsStr): nat {
    if s == [] then 0 else (if IsMeta(s[0]) then 1 else 0) + CountMeta(s[1..])
  }

  /** Without a metacharacter the replacement changes nothing, so the test
      in front of it only saves work: `_1524` always equals the
      replacement. */
  lemma {:induction false} ReplaceAllWithoutMeta(s: JsStr)
    requires !HasMeta(s)
    ensures ReplaceAll(s) == s
  {
    if s != [] {
      assert !IsMeta(s[0]);
      assert !HasMeta(s[1..]) by {
        forall i | 0 <= i < |s[1..]|
          ensures !IsMeta(s[1..][i])
        {
          assert s[1..][i] == s[i + 1];
        }
      }
      ReplaceAllWithoutMeta(s[1..]);
    }
  }

  lemma EscapeIsReplaceAll(s: JsStr)
    ensures EscapeRegExp(s) == ReplaceAll(s)
    ensures !HasMeta(s) ==> EscapeRegExp(s) == s
  {
    if !HasMeta(s) {
      ReplaceAllWithoutMeta(s);
    }
  }

  /** The escaped string is one unit longer per metacharacter. */
  lemma {:induction false} EscapeLength(s: JsStr)
    ensures |EscapeRegExp(s)| == |s| + CountMeta(s)
  {
    EscapeIsReplaceAll(s);
    ReplaceAllLength(s);
  }

  lemma {:induction false} ReplaceAllLength(s: JsStr)
    ensures |ReplaceAll(s)| == |s| + CountMeta(s)
  {
    if s != [] {
      ReplaceAllLength(s[1..]);
    }
  }

  /** Reading an escaped string back: a backslash followed by a unit stands
      for that unit. */
  function Unescape(s: JsStr): JsStr
    decreases |s|
  {
    if s == [] then []
    else if s[0] == Backslash && |s| >= 2 then [s[1]] + Unescape(s[2..])
    else [s[0]] + Unescape(s[1..])
  }

  /** Escaping loses nothing: the original string is recovered from the
      escaped one, so different strings escape differently. */
  lemma {:induction false} UnescapeEscape(s: JsStr)
    ensures Unescape(EscapeRegExp(s)) == s
  {
    EscapeIsReplaceAll(s);
    UnescapeReplaceAll(s);
  }

  lemma {:induction false} UnescapeReplaceAll(s: JsStr)
    ensures Unescape(ReplaceAll(s)) == s
  {
    if s != [] {
      UnescapeReplaceAll(s[1..]);
      var r := ReplaceAll(s);
      if IsMeta(s[0]) {
        assert r[0] == Backslash && r[1] == s[0] && r[2..] == ReplaceAll(s[1..]);
      } else {
        assert s[0] != Backslash;
        assert r[1..] == ReplaceAll(s[1..]);
      }
    }
  }

  /** Each unit of `s` is escaped in place: the escaping of `s[..i]` is the
      head of the escaping of `s`, and right after it stands `s[i]`, preceded
      by a backslash when it is a metacharacter. */
  lemma EscapedPrefix(s: JsStr, i: int)
    requires 0 <= i <= |s|
    ensures |EscapeRegExp(s[..i])| <= |EscapeRegExp(s)|
    ensures EscapeRegExp(s)[..|EscapeRegExp(s[..i])|] == EscapeRegExp(s[..i])
  {
    EscapeIsReplaceAll(s);
    EscapeIsReplaceAll(s[..i]);
    ReplaceAllAppend(s[..i], s[i..]);
    assert s == s[..i] + s[i..];
  }

  /** A metacharacter `s[i]` appears in the result right after a backslash,
      at the position where the escaping of `s[..i]` ends. */
  lemma EscapedMetaIsQuoted(s: JsStr, i: int)
    requires 0 <= i < |s|
    requires IsMeta(s[i])
    ensures var j := |EscapeRegExp(s[..i])|;
      j + 1 < |EscapeRegExp(s)| && EscapeRegExp(s)[j] == Backslash && EscapeRegExp(s)[j + 1] == s[i]
  {
    EscapeIsReplaceAll(s);
    EscapeIsReplaceAll(s[..i]);
    ReplaceAllLength(s);
    ReplaceAllAppend(s[..i], s[i..]);
    assert s == s[..i] + s[i..];
    assert ReplaceAll(s[i..])[..2] == [Backslash, s[i]];
  }

  /** Any other unit `s[i]` appears unchanged at that position, and is
      followed by the escaping of the rest of `s`. */
  lemma PlainUnitKept(s: JsStr, i: int)
    requires 0 <= i < |s|
    requires !IsMeta(s[i])
    ensures var j := |EscapeRegExp(s[..i])|;
      j < |EscapeRegExp(s)| && EscapeRegExp(s)[j] == s[i] && EscapeRegExp(s)[j + 1..] == EscapeRegExp(s[i + 1..])
  {
    EscapeIsReplaceAll(s);
    EscapeIsReplaceAll(s[..i]);
    EscapeIsReplaceAll(s[i + 1..]);
    ReplaceAllAppend(s[..i], s[i..]);
    assert s == s[..i] + s[i..];
    assert s[i..][1..] == s[i + 1..];
    assert ReplaceAll(s[i..]) == [s[i]] + ReplaceAll(s[i + 1..]);
  }

  lemma {:induction false} ReplaceAllAppend(a: JsStr, b: JsStr)
    ensures ReplaceAll(a + b) == ReplaceAll(a) + ReplaceAll(b)
    decreases |a|
  {
    if a != [] {
      assert (a + b)[1..] == a[1..] + b;
      ReplaceAllAppend(a[1..], b);
    } else {
      assert a + b == b;
    }
  }
}
