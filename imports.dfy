/**
 * The import object handed to `WebAssembly.instantiate` (main.dart.mjs): the
 * bridge's own imports, then the caller's additional imports, then the
 * string polyfill under "wasm:js-string", each spread over the previous
 * ones so that later entries win.
 */
module Imports {
  import opened Wrappers

  const JsStringModule := "wasm:js-string"

  /** `{...baseImports, ...additionalImports, "wasm:js-string": polyfill}`;
      an absent `additionalImports` spreads nothing. */
  function MergeImports<V>(base: map<string, V>, additional: Option<map<string, V>>, polyfill: V): map<string, V> {
    var extra := if additional.Some? then additional.value else map[];
    (base + extra)[JsStringModule := polyfill]
  }

  /** The merged object has exactly the keys of both and the polyfill's;
      "wasm:js-string" is always the polyfill, a key of the additional
      imports takes their value even when the bridge defines it too, and
      the bridge's other keys keep its values. */
  lemma MergeImportsSpec<V>(base: map<string, V>, additional: Option<map<string, V>>, polyfill: V, k: string)
    ensures var extra := if additional.Some? then additional.value else map[];
      MergeImports(base, additional, polyfill).Keys == base.Keys + extra.Keys + {JsStringModule}
    ensures MergeImports(base, additional, polyfill)[JsStringModule] == polyfill
    ensures k != JsStringModule && additional.Some? && k in additional.value ==>
      MergeImports(base, additional, polyfill)[k] == additional.value[k]
    ensures k != JsStringModule && k in base && (additional.None? || k !in additional.value) ==>
      MergeImports(base, additional, polyfill)[k] == base[k]
  {
  }
}
