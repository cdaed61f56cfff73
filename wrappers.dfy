/** Optional values and failures as they appear in the catalog code. */
module Wrappers {

  /** A JavaScript field that may be absent (`undefined` or `null`). */
  datatype Option<+T> = None | Some(value: T)

  /** The outcome of an expression that may throw a JavaScript TypeError. */
  datatype Result<+T> = Ok(value: T) | TypeError

  /** JavaScript truthiness of an optional string: absent and "" are falsy. */
  predicate Truthy(s: Option<string>)
  {
    s.Some? && s.value != ""
  }

  /** `a || b` on optional strings. */
  function Or(a: Option<string>, b: Option<string>): Option<string>
  {
    if Truthy(a) then a else b
  }

  /** `s || null`: a falsy string becomes null. */
  function OrNull(s: Option<string>): Option<string>
  {
    if Truthy(s) then s else None
  }

  /** `s || ''` on an optional string. */
  function OrEmpty(s: Option<string>): string
  {
    if Truthy(s) then s.value else ""
  }
}
