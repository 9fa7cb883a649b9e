/** Request input as the handlers see it through `$request->all()`. */
module Requests {
  import opened Text

  /** A JSON value in the request body (booleans, floats and nested arrays are not modelled). */
  datatype Value = Str(s: string) | Num(n: int) | Arr(items: seq<string>) | Null

  type Input = map<string, Value>

  /**
   * `$request->filled($key)`: the key is present and its value is not a string
   * that trims to ''. Null casts to '' and so is not filled; arrays always are.
   */
  predicate Filled(input: Input, key: string)
    ensures Filled(input, key) <==> key in input && input[key] != Null && !(input[key].Str? && IsBlank(input[key].s))
  {
    key in input &&
    match input[key]
    case Str(s) => !IsBlank(s)
    case Num(_) => true
    case Arr(_) => true
    case Null => false
  }

  /**
   * The string under `key`, or the empty string when there is none; validation
   * guarantees a string wherever the handlers read one.
   */
  function TextAt(input: Input, key: string): string {
    if key in input && input[key].Str? then input[key].s else ""
  }

  /** The list under `key`; empty when there is none. */
  function ListAt(input: Input, key: string): seq<string> {
    if key in input && input[key].Arr? then input[key].items else []
  }
}
