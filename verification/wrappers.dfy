/** Optional values and the JavaScript `||` default the gallery relies on. */
module Wrappers {

  /** A JSON field that may be absent (`undefined`) or hold a string. */
  datatype Option<+T> = None | Some(value: T)

  /** JavaScript truthiness of an optional string: absent and `""` are falsy. */
  predicate Truthy(x: Option<string>) {
    x.Some? && x.value != ""
  }

  /** `x || d` for an optional string `x` and a string default `d`. */
  function Or(x: Option<string>, d: string): (r: string)
    ensures Truthy(x) ==> r == x.value
    ensures !Truthy(x) ==> r == d
  {
    if Truthy(x) then x.value else d
  }
}
