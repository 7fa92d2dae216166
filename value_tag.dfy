/**
 * The host bridge's classification of JavaScript values (main.dart.mjs):
 * the type tagger `_1508`, which assigns every value one of the tags 1..18
 * by a fixed order of tests, and the buffer-ownership test `_1373`.
 */
module ValueTag {
  import opened Wrappers

  /** The constructors whose `prototype` an `instanceof` test looks for. */
  datatype Ctor =
    | ArrayCtor
    | Int8ArrayCtor | Uint8ArrayCtor | Uint8ClampedArrayCtor | Int16ArrayCtor | Uint16ArrayCtor
    | Int32ArrayCtor | Uint32ArrayCtor | Float32ArrayCtor | Float64ArrayCtor | DataViewCtor
    | ArrayBufferCtor | SharedArrayBufferCtor

  /** A JavaScript value as far as the tests can see it. An object (or a
      function) is described by whether it has a viewed buffer (what
      `ArrayBuffer.isView` checks) and by the constructors whose prototype
      is on its prototype chain (what `instanceof` checks). `null`, BigInts
      and symbols fail every test. */
  datatype HostValue =
    | Undefined
    | Null
    | Boolean(b: bool)
    | Number(x: real)
    | BigInt(n: int)
    | Str(s: seq<char>)
    | Symbol
    | Obj(isView: bool, protos: set<Ctor>)

  /** `o instanceof c`; primitives are never instances. */
  predicate InstanceOf(o: HostValue, c: Ctor) {
    o.Obj? && c in o.protos
  }

  /** The views tested inside `ArrayBuffer.isView(o)`, in order: the one at
      position `k` gets tag `6 + k`. */
  const Views: seq<Ctor> := [
    Int8ArrayCtor, Uint8ArrayCtor, Uint8ClampedArrayCtor, Int16ArrayCtor, Uint16ArrayCtor,
    Int32ArrayCtor, Uint32ArrayCtor, Float32ArrayCtor, Float64ArrayCtor, DataViewCtor]

  const FirstViewTag := 6

  /** The `instanceof` chain over `Views[k..]`: the tag of the first view
      constructor `o` is an instance of, if any. */
  function ViewTag(o: HostValue, k: nat): (r: Option<int>)
    requires k <= |Views|
    ensures r.Some? ==> k + FirstViewTag <= r.value < |Views| + FirstViewTag
    ensures r.Some? ==> InstanceOf(o, Views[r.value - FirstViewTag])
    ensures r.Some? ==> forall j :: k <= j < r.value - FirstViewTag ==> !InstanceOf(o, Views[j])
    ensures r.None? ==> forall j :: k <= j < |Views| ==> !InstanceOf(o, Views[j])
    decreases |Views| - k
  {
    if k == |Views| then None
    else if InstanceOf(o, Views[k]) then Some(k + FirstViewTag)
    else ViewTag(o, k + 1)
  }

  /** `_1508(o)`. `sharedBufferDefined` says whether
      `globalThis.SharedArrayBuffer` exists; without it the
      `SharedArrayBuffer` test is skipped. */
  function TypeTag(o: HostValue, sharedBufferDefined: bool): int {
    if o.Undefined? then 1
    else if o.Boolean? then 2
    else if o.Number? then 3
    else if o.Str? then 4
    else if InstanceOf(o, ArrayCtor) then 5
    else if o.Obj? && o.isView && ViewTag(o, 0).Some? then ViewTag(o, 0).value
    else if InstanceOf(o, ArrayBufferCtor) then 16
    else if sharedBufferDefined && InstanceOf(o, SharedArrayBufferCtor) then 17
    else 18
  }

  /** The condition under which tag `t` describes `o`, each tag on its own. */
  predicate Describes(t: int, o: HostValue, sharedBufferDefined: bool) {
    if t == 1 then o.Undefined?
    else if t == 2 then o.Boolean?
    else if t == 3 then o.Number?
    else if t == 4 then o.Str?
    else if t == 5 then InstanceOf(o, ArrayCtor)
    else if FirstViewTag <= t < FirstViewTag + |Views| then
      o.Obj? && o.isView && InstanceOf(o, Views[t - FirstViewTag])
    else if t == 16 then InstanceOf(o, ArrayBufferCtor)
    else if t == 17 then sharedBufferDefined && InstanceOf(o, SharedArrayBufferCtor)
    else t == 18
  }

  /** The tag is always in 1..18, and it is the first tag, in priority
      order, whose condition holds: the value gets that tag and no smaller
      tag describes it. */
  lemma TypeTagIsFirstMatch(o: HostValue, sharedBufferDefined: bool)
    ensures 1 <= TypeTag(o, sharedBufferDefined) <= 18
    ensures Describes(TypeTag(o, sharedBufferDefined), o, sharedBufferDefined)
    ensures forall u :: 1 <= u < TypeTag(o, sharedBufferDefined) ==> !Describes(u, o, sharedBufferDefined)
  {
    var t := TypeTag(o, sharedBufferDefined);
    forall u | 1 <= u < t
      ensures !Describes(u, o, sharedBufferDefined)
    {
      if FirstViewTag <= u < FirstViewTag + |Views| {
        assert !(o.Obj? && o.isView && InstanceOf(o, Views[u - FirstViewTag]));
      }
    }
  }

  /** Which tag a value gets is decided by the tests alone: any tag that is
      the first to describe a value is the one `_1508` returns. */
  lemma FirstMatchIsTypeTag(o: HostValue, sharedBufferDefined: bool, t: int)
    requires 1 <= t <= 18
    requires Describes(t, o, sharedBufferDefined)
    requires forall u :: 1 <= u < t ==> !Describes(u, o, sharedBufferDefined)
    ensures TypeTag(o, sharedBufferDefined) == t
  {
    TypeTagIsFirstMatch(o, sharedBufferDefined);
  }

  /** Tag 17 is given only when `SharedArrayBuffer` exists, and the view
      tags 6..15 only to values with a viewed buffer. */
  lemma TagGuards(o: HostValue, sharedBufferDefined: bool)
    ensures TypeTag(o, sharedBufferDefined) == 17 ==> sharedBufferDefined
    ensures FirstViewTag <= TypeTag(o, sharedBufferDefined) < FirstViewTag + |Views| ==> o.Obj? && o.isView
    ensures o.Null? || o.BigInt? || o.Symbol? ==> TypeTag(o, sharedBufferDefined) == 18
  {
  }

  /** A genuine typed array or `DataView`: a view whose chain has the view
      constructor's prototype (and no array or buffer prototype). */
  function GenuineView(k: nat): HostValue
    requires k < |Views|
  {
    Obj(true, {Views[k]})
  }

  /** A genuine view gets its own tag, and every tag is given to some
      value. */
  lemma TagsOfGenuineValues(k: nat)
    requires k < |Views|
    ensures TypeTag(GenuineView(k), false) == FirstViewTag + k
    ensures TypeTag(Undefined, false) == 1
    ensures TypeTag(Boolean(true), false) == 2
    ensures TypeTag(Number(0.0), false) == 3
    ensures TypeTag(Str(""), false) == 4
    ensures TypeTag(Obj(false, {ArrayCtor}), false) == 5
    ensures TypeTag(Obj(false, {ArrayBufferCtor}), false) == 16
    ensures TypeTag(Obj(false, {SharedArrayBufferCtor}), true) == 17
    ensures TypeTag(Obj(false, {SharedArrayBufferCtor}), false) == 18
  {
    var o := GenuineView(k);
    forall j | 0 <= j < k
      ensures !InstanceOf(o, Views[j])
    {
      assert Views[j] != Views[k];
    }
    assert ViewTag(o, 0).Some?;
  }

  /** `_1373(o)`: 0 for an `ArrayBuffer`, 1 for a `SharedArrayBuffer` (only
      when that constructor exists), 2 for anything else. */
  function BufferOwnership(o: HostValue, sharedBufferDefined: bool): int {
    if InstanceOf(o, ArrayBufferCtor) then 0
    else if sharedBufferDefined && InstanceOf(o, SharedArrayBufferCtor) then 1
    else 2
  }

  /** `_1373` agrees with the last three tags of `_1508`: on every value
      `_1508` sends past its earlier tests, the ownership code is the tag
      minus 16. */
  lemma BufferOwnershipAgreesWithTypeTag(o: HostValue, sharedBufferDefined: bool)
    ensures 0 <= BufferOwnership(o, sharedBufferDefined) <= 2
    ensures TypeTag(o, sharedBufferDefined) >= 16 ==>
      BufferOwnership(o, sharedBufferDefined) == TypeTag(o, sharedBufferDefined) - 16
    ensures BufferOwnership(o, sharedBufferDefined) == 1 ==> sharedBufferDefined
  {
  }
}
