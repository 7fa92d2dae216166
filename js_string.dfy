/**
 * The `wasm:js-string` polyfill (main.dart.mjs, `jsStringPolyfill`): JavaScript
 * strings as sequences of UTF-16 code units, their relational order, `===`,
 * `substring`, and the two bulk conversions between a string and a wasm
 * `i16` array.
 */
module JsString {
  import opened HostArrays

  /** A UTF-16 code unit, the element of a JavaScript string. */
  newtype CodeUnit = x: int | 0 <= x < 0x1_0000

  type JsStr = seq<CodeUnit>

  // ---------------------------------------------------------------------------
  // Order and equality

  /** `s1 < s2` on strings: code-unit lexicographic order, in which a proper
      prefix comes first. */
  predicate Less(a: JsStr, b: JsStr)
    decreases |a|
  {
    if a == [] then b != []
    else if b == [] then false
    else if a[0] != b[0] then a[0] < b[0]
    else Less(a[1..], b[1..])
  }

  /** `a` is a proper prefix of `b`. */
  ghost predicate ProperPrefix(a: JsStr, b: JsStr) {
    |a| < |b| && a == b[..|a|]
  }

  /** `a` and `b` agree below `i` and first differ at `i`, where `a` has the
      smaller unit. */
  ghost predicate FirstDifferenceBelow(a: JsStr, b: JsStr, i: int) {
    0 <= i < |a| && i < |b| && a[..i] == b[..i] && a[i] < b[i]
  }

  lemma {:induction false} PrefixIsLess(a: JsStr, b: JsStr)
    requires ProperPrefix(a, b)
    ensures Less(a, b)
    decreases |a|
  {
    if a != [] {
      assert a[0] == b[0];
      assert a[1..] == b[1..][..|a| - 1];
      PrefixIsLess(a[1..], b[1..]);
    }
  }

  lemma {:induction false} DifferenceIsLess(a: JsStr, b: JsStr, i: int)
    requires FirstDifferenceBelow(a, b, i)
    ensures Less(a, b)
    decreases i
  {
    if i > 0 {
      assert a[0] == a[..i][0] == b[..i][0] == b[0];
      assert a[1..][..i - 1] == a[1..i] == b[1..i] == b[1..][..i - 1];
      DifferenceIsLess(a[1..], b[1..], i - 1);
    }
  }

  /** When `a < b` and `a` is not a proper prefix of `b`, the position where
      they first differ. */
  lemma {:induction false} LessDifference(a: JsStr, b: JsStr) returns (i: int)
    requires Less(a, b) && !ProperPrefix(a, b)
    ensures FirstDifferenceBelow(a, b, i)
    decreases |a|
  {
    assert a != [] && b != [];
    if a[0] != b[0] {
      i := 0;
    } else {
      var j := LessDifference(a[1..], b[1..]);
      i := j + 1;
      assert a[..i] == [a[0]] + a[1..][..j];
      assert b[..i] == [b[0]] + b[1..][..j];
    }
  }

  /** The explicit reading of `Less`: `a` is a proper prefix of `b`, or the
      two first differ at some position where `a` has the smaller unit. */
  lemma LessIff(a: JsStr, b: JsStr)
    ensures Less(a, b) <==> ProperPrefix(a, b) || exists i :: FirstDifferenceBelow(a, b, i)
  {
    if Less(a, b) && !ProperPrefix(a, b) {
      var i := LessDifference(a, b);
    }
    if ProperPrefix(a, b) {
      PrefixIsLess(a, b);
    }
    if exists i :: FirstDifferenceBelow(a, b, i) {
      var i :| FirstDifferenceBelow(a, b, i);
      DifferenceIsLess(a, b, i);
    }
  }

  /** `Less` is a strict order ... */
  lemma {:induction false} LessIrreflexive(a: JsStr)
    ensures !Less(a, a)
    decreases |a|
  {
    if a != [] {
      LessIrreflexive(a[1..]);
    }
  }

  lemma {:induction false} LessAsymmetric(a: JsStr, b: JsStr)
    ensures Less(a, b) ==> !Less(b, a)
    decreases |a|
  {
    if a != [] && b != [] && a[0] == b[0] {
      LessAsymmetric(a[1..], b[1..]);
    }
  }

  lemma {:induction false} LessTransitive(a: JsStr, b: JsStr, c: JsStr)
    ensures Less(a, b) && Less(b, c) ==> Less(a, c)
    decreases |a|
  {
    if a != [] && b != [] && c != [] && a[0] == b[0] && b[0] == c[0] {
      LessTransitive(a[1..], b[1..], c[1..]);
    }
  }

  /** ... and a total one: distinct strings are always ordered. */
  lemma {:induction false} LessTotal(a: JsStr, b: JsStr)
    ensures a == b || Less(a, b) || Less(b, a)
    decreases |a|
  {
    if a != [] && b != [] && a[0] == b[0] {
      LessTotal(a[1..], b[1..]);
      if a[1..] == b[1..] {
        assert a == [a[0]] + a[1..] && b == [b[0]] + b[1..];
      }
    }
  }

  /** `compare`: -1, 1 or 0 by the two relational tests. */
  function Compare(s1: JsStr, s2: JsStr): int {
    if Less(s1, s2) then -1
    else if Less(s2, s1) then 1
    else 0
  }

  /** `compare` yields -1, 0 or 1, gives 0 exactly on equal strings, and is
      antisymmetric. */
  lemma CompareSpec(s1: JsStr, s2: JsStr)
    ensures Compare(s1, s2) in {-1, 0, 1}
    ensures Compare(s1, s2) == 0 <==> s1 == s2
    ensures Compare(s1, s2) == -Compare(s2, s1)
    ensures Compare(s1, s2) == -1 <==> Less(s1, s2)
  {
    LessTotal(s1, s2);
    LessAsymmetric(s1, s2);
    LessIrreflexive(s1);
  }

  /** `equals` (`===` on two strings). */
  function Equals(s1: JsStr, s2: JsStr): (r: bool)
    ensures r <==> |s1| == |s2| && forall i :: 0 <= i < |s1| ==> s1[i] == s2[i]
  {
    s1 == s2
  }

  lemma EqualsIsCompareZero(s1: JsStr, s2: JsStr)
    ensures Equals(s1, s2) <==> Compare(s1, s2) == 0
  {
    CompareSpec(s1, s2);
  }

  // ---------------------------------------------------------------------------
  // substring

  function Clamp(x: int, len: nat): (r: nat)
    ensures r <= len
  {
    if x < 0 then 0 else if x > len then len else x
  }

  /** `s.substring(a, b)`: both positions clamped to `[0, |s|]`, then taken
      in increasing order. */
  function Substring(s: JsStr, a: int, b: int): (r: JsStr) {
    var start := Clamp(a, |s|);
    var end := Clamp(b, |s|);
    s[if start <= end then start else end .. if start <= end then end else start]
  }

  /** The arguments of `substring` may come in either order; within range
      it is the slice; out of range it stops at the ends of the string. */
  lemma SubstringSpec(s: JsStr, a: int, b: int)
    ensures Substring(s, a, b) == Substring(s, b, a)
    ensures 0 <= a <= b <= |s| ==> Substring(s, a, b) == s[a..b]
    ensures |Substring(s, a, b)| <= |s|
    ensures Substring(s, 0, |s|) == s
    ensures a <= 0 && |s| <= b ==> Substring(s, a, b) == s
    ensures Substring(s, a, b) == Substring(s, Clamp(a, |s|), Clamp(b, |s|))
  {
  }

  // ---------------------------------------------------------------------------
  // Conversions between a string and a wasm i16 array

  /** The largest number of code units handed to one `String.fromCharCode`. */
  const ChunkSize := 500

  function Min(x: int, y: int): int {
    if x <= y then x else y
  }

  /** The concatenation of the chunks, in order. */
  function Flatten(chunks: seq<JsStr>): JsStr {
    if chunks == [] then [] else Flatten(chunks[..|chunks| - 1]) + chunks[|chunks| - 1]
  }

  /** `fromCharCodeArray(a, start, end)`: the units at `[start, end)` of the
      wasm array, read in chunks of at most `ChunkSize` units; the empty string
      when `end <= start`. Reading outside the array traps in wasm, so the
      caller must keep a non-empty range inside it. `chunks` records the
      arrays passed to `String.fromCharCode`: all full except possibly the
      last one, and together exactly the result. */
  method FromCharCodeArray(a: array<CodeUnit>, start: int, end: int)
    returns (result: JsStr, ghost chunks: seq<JsStr>)
    requires end <= start || (0 <= start && end <= a.Length)
    ensures start < end ==> result == a[start..end]
    ensures end <= start ==> result == []
    ensures |result| == if start < end then end - start else 0
    ensures forall k :: 0 <= k < |chunks| ==> 0 < |chunks[k]| <= ChunkSize
    ensures forall k :: 0 <= k < |chunks| - 1 ==> |chunks[k]| == ChunkSize
    ensures Flatten(chunks) == result
  {
    if end <= start {
      return [], [];
    }
    result := [];
    chunks := [];
    var index := start;
    var chunkLength := Min(end - index, ChunkSize);
    var buffer := new CodeUnit[chunkLength];
    while index < end
      invariant start <= index <= end
      invariant result == a[start..index]
      invariant fresh(buffer)
      invariant index < end ==> buffer.Length == chunkLength
      invariant chunkLength == Min(end - start, ChunkSize)
      invariant Flatten(chunks) == result
      invariant forall k :: 0 <= k < |chunks| ==> 0 < |chunks[k]| <= ChunkSize
      invariant forall k :: 0 <= k < |chunks| - 1 ==> |chunks[k]| == ChunkSize
      invariant index < end ==> forall k :: 0 <= k < |chunks| ==> |chunks[k]| == ChunkSize
      decreases end - index
    {
      var newChunkLength := Min(end - index, ChunkSize);
      ghost var first := index;
      for i := 0 to newChunkLength
        invariant index == first + i
        invariant buffer[..i] == a[first..index]
      {
        buffer[i] := a[index];
        index := index + 1;
        assert buffer[..i + 1] == buffer[..i] + [buffer[i]];
      }
      if newChunkLength < chunkLength {
        buffer := Slice(buffer, newChunkLength);
      }
      assert buffer[..] == a[first..index];
      SliceSplit(a[..], start, first, index);
      ghost var done := chunks;
      chunks := chunks + [buffer[..]];
      assert chunks[..|chunks| - 1] == done;
      result := result + buffer[..];
    }
  }

  /** `array.slice(0, n)`: a fresh array holding the first `n` elements. */
  method Slice(buffer: array<CodeUnit>, n: nat) returns (r: array<CodeUnit>)
    requires n <= buffer.Length
    ensures fresh(r)
    ensures r[..] == buffer[..n]
  {
    r := new CodeUnit[n](i requires 0 <= i < n reads buffer => buffer[i]);
  }

  /** `intoCharCodeArray(s, a, start)`: writes the units of `s` into `a` from
      `start` on and returns `|s|`; the empty string writes nothing. Writing
      outside the array traps in wasm. */
  method IntoCharCodeArray(s: JsStr, a: array<CodeUnit>, start: int) returns (n: nat)
    requires s == [] || (0 <= start && start + |s| <= a.Length)
    modifies a
    ensures n == |s|
    ensures a[..] == Overwrite(old(a[..]), s, start)
  {
    if s == [] {
      return 0;
    }
    var index := start;
    for i := 0 to |s|
      invariant index == start + i
      invariant a[..] == Overwrite(old(a[..]), s[..i], start)
    {
      a[index] := s[i];
      index := index + 1;
      assert s[..i + 1] == s[..i] + [s[i]];
    }
    assert s[..|s|] == s;
    return |s|;
  }

  /** Writing a string into an array and reading the same range back gives
      the string, whatever its length and however it is chunked. */
  method IntoThenFromCharCodeArray(s: JsStr, a: array<CodeUnit>, start: int)
    returns (t: JsStr)
    requires s == [] || (0 <= start && start + |s| <= a.Length)
    modifies a
    ensures t == s
  {
    var n := IntoCharCodeArray(s, a, start);
    OverwriteSpec(old(a[..]), s, start);
    ghost var chunks;
    t, chunks := FromCharCodeArray(a, start, start + n);
  }
}
