/**
 * The two pieces of JavaScript semantics the plugin relies on when it reads
 * optional string properties: truthiness (`x || fallback`, `if (x)`) and
 * template-literal interpolation (`${x}`), which renders an absent property
 * as the text "undefined".
 */
module Js {
  import opened Wrappers

  /** A string property is truthy when it is present and not the empty string. */
  predicate Truthy(s: Option<string>) {
    s.Some? && s.value != ""
  }

  /** `x || fallback` for an optional string. */
  function Or(s: Option<string>, fallback: string): string {
    if Truthy(s) then s.value else fallback
  }

  /** `${x}` for an optional string. */
  function Interpolate(s: Option<string>): string {
    match s
    case Some(v) => v
    case None => "undefined"
  }
}
