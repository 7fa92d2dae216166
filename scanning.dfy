/**
 * Small sequence scanners shared by the hand-written recognisers that stand in
 * for the regular expressions of the chat parser and of the host bridge.
 */
module Scanning {
  import opened Wrappers

  /** Length of the longest prefix of `s` whose elements all satisfy `p`:
      what a greedy `p*` consumes. */
  function Span<T>(s: seq<T>, p: T -> bool): (n: nat)
    ensures n <= |s|
    ensures forall j :: 0 <= j < n ==> p(s[j])
    ensures n == |s| || !p(s[n])
  {
    if s == [] || !p(s[0]) then 0 else 1 + Span(s[1..], p)
  }

  /** Splits `s` after its greedy `p*` prefix. */
  function TakeWhile<T>(s: seq<T>, p: T -> bool): (r: (seq<T>, seq<T>))
    ensures s == r.0 + r.1
    ensures forall j :: 0 <= j < |r.0| ==> p(r.0[j])
    ensures r.1 == [] || !p(r.1[0])
  {
    var n := Span(s, p);
    (s[..n], s[n..])
  }

  /** The literal `lit` at the start of `s`, and what follows it. */
  function StripPrefix<T(==)>(s: seq<T>, lit: seq<T>): (r: Option<seq<T>>)
    ensures r.Some? ==> s == lit + r.value
    ensures r.Some? <==> |lit| <= |s| && s[..|lit|] == lit
  {
    if |lit| <= |s| && s[..|lit|] == lit then
      assert s == s[..|lit|] + s[|lit|..];
      Some(s[|lit|..])
    else
      None
  }

  lemma StripPrefixOfConcat<T>(lit: seq<T>, rest: seq<T>)
    ensures StripPrefix(lit + rest, lit) == Some(rest)
  {
    assert (lit + rest)[..|lit|] == lit && (lit + rest)[|lit|..] == rest;
  }

  /** The greedy span over `a + b` stops exactly at the end of `a` when every
      element of `a` satisfies `p` and `b` does not start with one that does. */
  lemma SpanOfConcat<T>(a: seq<T>, b: seq<T>, p: T -> bool)
    requires forall j :: 0 <= j < |a| ==> p(a[j])
    requires b == [] || !p(b[0])
    ensures Span(a + b, p) == |a|
  {
    var n := Span(a + b, p);
    assert forall j :: 0 <= j < |a| ==> (a + b)[j] == a[j];
    assert |a| < |a + b| ==> (a + b)[|a|] == b[0];
  }

  /** The greedy split of `a + b` is `(a, b)` under the same conditions. */
  lemma TakeWhileOfConcat<T>(a: seq<T>, b: seq<T>, p: T -> bool)
    requires forall j :: 0 <= j < |a| ==> p(a[j])
    requires b == [] || !p(b[0])
    ensures TakeWhile(a + b, p) == (a, b)
  {
    SpanOfConcat(a, b, p);
    assert (a + b)[..|a|] == a && (a + b)[|a|..] == b;
  }

  /** Cutting `s` into the part before `n`, the `k` elements from `n` and the rest. */
  lemma Unsplit<T>(s: seq<T>, n: nat, k: nat)
    requires n + k <= |s|
    ensures s == s[..n] + (s[n..n + k] + s[n + k..])
  {
    assert s == s[..n] + s[n..];
    assert s[n..] == s[n..n + k] + s[n + k..];
  }

  /** True iff `t` occurs in `s` as a contiguous block (`str::contains`). */
  predicate Contains<T(==)>(s: seq<T>, t: seq<T>)
    decreases |s|
  {
    (|t| <= |s| && s[..|t|] == t) || (s != [] && Contains(s[1..], t))
  }

  /** A block that is written out inside `a + t + b` is contained in it. */
  lemma {:induction false} ContainsInfix<T>(a: seq<T>, t: seq<T>, b: seq<T>)
    ensures Contains(a + t + b, t)
    decreases |a|
  {
    if a == [] {
      assert (a + t + b)[..|t|] == t;
    } else {
      assert (a + t + b)[1..] == a[1..] + t + b;
      ContainsInfix(a[1..], t, b);
    }
  }

  /** A non-empty block that occurs in `s` contributes its first element to `s`. */
  lemma {:induction false} ContainsHead<T>(s: seq<T>, t: seq<T>)
    ensures |t| > 0 && Contains(s, t) ==> t[0] in s
    decreases |s|
  {
    if |t| > 0 && |t| <= |s| && s[..|t|] == t {
      assert s[0] == t[0];
    } else if s != [] {
      ContainsHead(s[1..], t);
      assert forall x :: x in s[1..] ==> x in s;
    }
  }

  /** A block contained in `s` is no longer than `s`. */
  lemma {:induction false} ContainsShorter<T>(s: seq<T>, t: seq<T>)
    ensures Contains(s, t) ==> |t| <= |s|
    decreases |s|
  {
    if s != [] && !(|t| <= |s| && s[..|t|] == t) {
      ContainsShorter(s[1..], t);
    }
  }

  /** A longer block of `p`-elements at the front extends the greedy span. */
  lemma SpanAtLeast<T>(a: seq<T>, b: seq<T>, p: T -> bool)
    requires forall j :: 0 <= j < |a| ==> p(a[j])
    ensures Span(a + b, p) >= |a|
  {
    var n := Span(a + b, p);
    assert forall j :: 0 <= j < |a| ==> (a + b)[j] == a[j];
  }
}
