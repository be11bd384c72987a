/**
 * Just enough of PHP's value model to state what the plugin does with its
 * option values: null, booleans, strings and ordered arrays, with the
 * lookups (`isset`, `$a[$k]`), array-key conversion, string conversion and
 * `empty` test that the plugin relies on.
 */
module Php {

  datatype Option<+T> = None | Some(value: T)

  /** A PHP value as it occurs in the plugin's option tables. An array is an
      ordered list of key => value entries; an integer key is written as its
      decimal string, which is the same array key in PHP. */
  datatype Value =
    | Null
    | Bool(b: bool)
    | Str(s: string)
    | Arr(entries: seq<(string, Value)>)

  /** `isset($x)`: every value except null counts as set. */
  predicate Isset(v: Value)
  {
    !v.Null?
  }

  /** `$a[$k]` on an array: the value of the last entry with key `k` (an
      array literal that repeats a key keeps its last value), null when
      there is none. */
  function Lookup(entries: seq<(string, Value)>, k: string): (v: Value)
    ensures Isset(v) ==> exists i :: 0 <= i < |entries| && entries[i] == (k, v)
    decreases |entries|
  {
    if |entries| == 0 then Null
    else if entries[|entries| - 1].0 == k then entries[|entries| - 1].1
    else Lookup(entries[..|entries| - 1], k)
  }

  /** `$v[$k]` where `$v` is any value; only arrays have entries. */
  function Index(v: Value, k: string): Value
  {
    if v.Arr? then Lookup(v.entries, k) else Null
  }

  /** The array key PHP derives from a value used as an offset: null is "",
      booleans are 0 and 1; an array is not a legal key. */
  function KeyOf(v: Value): Option<string>
  {
    match v
    case Null => Some("")
    case Bool(b) => Some(if b then "1" else "0")
    case Str(s) => Some(s)
    case Arr(_) => None
  }

  /** PHP's conversion of a value to a string. */
  function ToStr(v: Value): string
  {
    match v
    case Null => ""
    case Bool(b) => if b then "1" else ""
    case Str(s) => s
    case Arr(_) => "Array"
  }

  /** `empty($s)` for a string: PHP counts both "" and "0" as empty. */
  predicate EmptyString(s: string)
  {
    s == "" || s == "0"
  }
}
