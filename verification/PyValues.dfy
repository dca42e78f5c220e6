/**
 JSON values as the Python scripts see them. `.get(key)` answers `Null` both for a missing
 key and for a null, so a record type with `Value` fields stands for a dictionary. `Dict` stands for a
 dictionary found where a plain value is expected.
 */
module PyValues {

  datatype Value =
    | Null
    | Bool(b: bool)
    | Int(i: int)
    | Float(r: real)
    | Str(s: string)
    | List(items: seq<Value>)
    | Dict

  /** `value == n`: Python compares numbers by value, and counts True as 1 and False as 0. */
  predicate EqInt(v: Value, n: int) {
    match v
    case Int(i) => i == n
    case Float(r) => r == n as real
    case Bool(b) => (if b then 1 else 0) == n
    case _ => false
  }

  /** Lists and dictionaries cannot be looked up in a set: the attempt raises TypeError. */
  predicate Hashable(v: Value) {
    !v.List? && !v.Dict?
  }

  function Strings(s: seq<string>): (items: seq<Value>)
    ensures |items| == |s|
  {
    seq(|s|, i requires 0 <= i < |s| => Str(s[i]))
  }
}
