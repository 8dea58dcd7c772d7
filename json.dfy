/** The few JSON shapes the tool reads, as they look after `serde_json` has parsed them. */
module Json {
  import opened Wrappers

  /**
   * A JSON value read with `as_array()`, each element as it compares with a string:
   * `None` for a value that is missing or not an array, `Some(xs)` otherwise, where
   * an element is `Some(s)` when it is the string `s` and `None` when it is anything else.
   */
  type StringArray = Option<seq<Option<string>>>

  /** True when the value is an array and one of its elements is the string `s`; a non-array is treated as holding nothing. */
  predicate ArrayHasString(a: StringArray, s: string) {
    a.Some? && Some(s) in a.value
  }
}
