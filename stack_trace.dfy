/**
 * The host bridge's current stack trace (main.dart.mjs, `_1322`): the stack
 * of a fresh `Error` is split into lines, the frames of the bridge itself
 * are dropped (two lines, or three when the first line is the bare header
 * "Error"), and the rest is joined again. The stack text the host engine
 * produces is a parameter.
 */
module StackTrace {
  import opened JsString

  const Newline: CodeUnit := 0x0A

  /** "Error". */
  const ErrorHeader: JsStr := [0x45, 0x72, 0x72, 0x6F, 0x72]

  /** Position of the first newline of `s`, or `|s|` if there is none. */
  function LineEnd(s: JsStr): (n: nat)
    ensures n <= |s|
    ensures Newline !in s[..n]
    ensures n < |s| ==> s[n] == Newline
  {
    if s == [] || s[0] == Newline then 0
    else
      var n := LineEnd(s[1..]);
      assert s[..n + 1] == [s[0]] + s[1..][..n];
      n + 1
  }

  /** `s.split('\n')`: the pieces between newlines, always at least one (the
      empty string splits into one empty piece). */
  function Split(s: JsStr): (r: seq<JsStr>)
    ensures |r| >= 1
    ensures forall i :: 0 <= i < |r| ==> Newline !in r[i]
    decreases |s|
  {
    var n := LineEnd(s);
    if n == |s| then [s] else [s[..n]] + Split(s[n + 1..])
  }

  /** `parts.join('\n')`; no parts join to the empty string. */
  function Join(parts: seq<JsStr>): JsStr {
    if parts == [] then []
    else if |parts| == 1 then parts[0]
    else parts[0] + [Newline] + Join(parts[1..])
  }

  /** Splitting and joining again gives back the string. */
  lemma {:induction false} JoinSplit(s: JsStr)
    ensures Join(Split(s)) == s
    decreases |s|
  {
    var n := LineEnd(s);
    if n < |s| {
      JoinSplit(s[n + 1..]);
      assert s == s[..n] + [Newline] + s[n + 1..];
    }
  }

  /** Joining newline-free pieces and splitting again gives back the
      pieces. */
  lemma {:induction false} SplitJoin(parts: seq<JsStr>)
    requires |parts| >= 1
    requires forall i :: 0 <= i < |parts| ==> Newline !in parts[i]
    ensures Split(Join(parts)) == parts
  {
    if |parts| > 1 {
      var s := Join(parts);
      var rest := Join(parts[1..]);
      assert s == parts[0] + ([Newline] + rest);
      FirstLineEnd(parts[0], rest);
      assert s[..|parts[0]|] == parts[0];
      assert s[|parts[0]| + 1..] == rest;
      SplitJoin(parts[1..]);
    }
  }

  lemma {:induction false} FirstLineEnd(p: JsStr, rest: JsStr)
    requires Newline !in p
    ensures LineEnd(p + ([Newline] + rest)) == |p|
    decreases |p|
  {
    if p != [] {
      assert (p + ([Newline] + rest))[1..] == p[1..] + ([Newline] + rest);
      FirstLineEnd(p[1..], rest);
    }
  }

  /** `frames.slice(d)`: empty when `d` reaches past the end. */
  function SliceFrom(frames: seq<JsStr>, d: nat): seq<JsStr> {
    if d >= |frames| then [] else frames[d..]
  }

  /** How many lines `_1322` drops. */
  function FramesToDrop(frames: seq<JsStr>): nat
    requires |frames| >= 1
  {
    if frames[0] == ErrorHeader then 3 else 2
  }

  /** `_1322`, given the text of `new Error().stack`. */
  function TrimStack(stack: JsStr): JsStr {
    var frames := Split(stack);
    Join(SliceFrom(frames, FramesToDrop(frames)))
  }

  /** The trimmed trace has as its lines those of the stack from the third
      on (the fourth when the first line is "Error"), and is empty when the
      stack has no more lines. */
  lemma TrimStackLines(stack: JsStr)
    ensures var frames := Split(stack);
      var d := if frames[0] == ErrorHeader then 3 else 2;
      (d < |frames| ==> Split(TrimStack(stack)) == frames[d..]) &&
      (d >= |frames| ==> TrimStack(stack) == [])
  {
    var frames := Split(stack);
    var d := FramesToDrop(frames);
    if d < |frames| {
      SplitJoin(frames[d..]);
    }
  }

  /** The trimmed trace is always a tail of the stack text. */
  lemma TrimStackSuffix(stack: JsStr)
    ensures |TrimStack(stack)| <= |stack|
    ensures TrimStack(stack) == stack[|stack| - |TrimStack(stack)|..]
  {
    var frames := Split(stack);
    var d := FramesToDrop(frames);
    if d < |frames| {
      var kept := Join(frames[d..]);
      assert TrimStack(stack) == kept;
      JoinSplit(stack);
      JoinSuffix(frames, d);
      assert kept == Join(frames)[|Join(frames)| - |kept|..];
    } else {
      assert TrimStack(stack) == [];
    }
  }

  /** The pieces from `d` on join to a tail of the joined pieces. */
  lemma {:induction false} JoinSuffix(parts: seq<JsStr>, d: nat)
    requires d < |parts|
    ensures |Join(parts[d..])| <= |Join(parts)|
    ensures Join(parts[d..]) == Join(parts)[|Join(parts)| - |Join(parts[d..])|..]
  {
    if d > 0 {
      JoinSuffix(parts[1..], d - 1);
      assert parts[1..][d - 1..] == parts[d..];
    }
  }

  /** A typical V8 stack: the header, the bridge's own two frames, and the
      caller's frame, which is all that is kept. */
  lemma HeaderAndTwoFramesDropped(f1: JsStr, f2: JsStr, f3: JsStr)
    requires Newline !in f1 && Newline !in f2 && Newline !in f3
    ensures TrimStack(Join([ErrorHeader, f1, f2, f3])) == f3
  {
    SplitJoin([ErrorHeader, f1, f2, f3]);
    assert [ErrorHeader, f1, f2, f3][3..] == [f3];
  }
}
