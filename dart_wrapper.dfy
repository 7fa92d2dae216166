/**
 * The marking of JavaScript functions that wrap Dart functions
 * (main.dart.mjs, `finalizeWrapper` and its readers `_1483` and `_1495`).
 * A wrapper is a JavaScript function object that gets a `dartFunction`
 * property and a `true` under a symbol private to the bridge; the bridge
 * recognises its own wrappers by that mark and unwraps them through the
 * property.
 */
module DartWrapper {
  import opened Wrappers

  /** A JavaScript function object: its `dartFunction` property (absent
      until set) and whether the private symbol property holds `true`. */
  class JsFunction<D> {
    var dartFunction: Option<D>
    var marked: bool

    /** Only `finalizeWrapper` sets the private symbol, and it sets the
        property in the same step. */
    ghost predicate Valid()
      reads this
    {
      marked ==> dartFunction.Some?
    }

    /** A fresh function object, such as the trampoline created for each
        wrapper: neither property is set. */
    constructor()
      ensures dartFunction == None && !marked
      ensures Valid()
    {
      dartFunction := None;
      marked := false;
    }
  }

  /** An argument of `_1483`/`_1495`: a function object or any other value. */
  datatype HostRef<D> = FunctionRef(f: JsFunction<D>) | NotAFunction

  /** `finalizeWrapper(dartFunction, wrapped)`: records the Dart function on
      the wrapper, marks it, and returns the same object. */
  method FinalizeWrapper<D>(dartFunction: D, wrapped: JsFunction<D>) returns (r: JsFunction<D>)
    modifies wrapped
    ensures r == wrapped
    ensures wrapped.dartFunction == Some(dartFunction)
    ensures wrapped.marked
    ensures wrapped.Valid()
  {
    wrapped.dartFunction := Some(dartFunction);
    wrapped.marked := true;
    return wrapped;
  }

  /** `_1483(o)`: `o` is a function carrying the bridge's mark. */
  predicate IsWrappedDartFunction<D>(o: HostRef<D>)
    reads if o.FunctionRef? then {o.f} else {}
  {
    o.FunctionRef? && o.f.marked
  }

  /** `_1495(f)`: the `dartFunction` property, `undefined` when absent. */
  function WrappedDartFunction<D>(f: JsFunction<D>): Option<D>
    reads f
  {
    f.dartFunction
  }

  /** An entry such as `_7` or `_8`: a fresh trampoline finalized as the
      wrapper of `dartFunction`. The bridge recognises the result as its
      own wrapper and unwraps it to the same Dart function. */
  method WrapDartFunction<D>(dartFunction: D) returns (wrapped: JsFunction<D>)
    ensures fresh(wrapped)
    ensures IsWrappedDartFunction(FunctionRef(wrapped))
    ensures WrappedDartFunction(wrapped) == Some(dartFunction)
    ensures wrapped.Valid()
  {
    var trampoline := new JsFunction<D>();
    wrapped := FinalizeWrapper(dartFunction, trampoline);
  }

  /** A value that is not a function is never taken for a wrapper, and a
      function that is, in a valid state, always unwraps to some Dart
      function. */
  lemma RecognisedWrapperUnwraps<D>(o: HostRef<D>)
    requires o.FunctionRef? ==> o.f.Valid()
    ensures o.NotAFunction? ==> !IsWrappedDartFunction(o)
    ensures IsWrappedDartFunction(o) ==> WrappedDartFunction(o.f).Some?
  {
  }
}
