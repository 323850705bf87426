/** The option type used wherever the program returns `None` or raises. */
module Wrappers {
  datatype Option<+T> = None | Some(value: T)

  /** The list of what is present. */
  function Listed<T>(o: Option<T>): seq<T> {
    if o.Some? then [o.value] else []
  }

  /** Python truthiness of an optional text. */
  predicate Truthy(o: Option<string>) {
    o.Some? && o.value != ""
  }
}
