/**
 * Shared value types of the model.
 *
 * PHP's `mixed` values, as they appear in field declarations, field-group
 * attributes and location rules, are modelled by `Value`. Strings are
 * `seq<char>`; PHP's loose truthiness is only needed for strings (a field
 * name, a key prefix, a repeater name), and is given by `Falsy`.
 */
module Values {

  datatype Option<+T> = None | Some(value: T)

  /** A PHP value that the library passes through without interpreting it. */
  datatype Value =
    | Null
    | Bool(b: bool)
    | Int(i: int)
    | Str(s: string)
    | List(items: seq<Value>)
    | Dict(entries: map<string, Value>)

  /** PHP's `! $s` on a string: only the empty string and "0" are falsy. */
  predicate Falsy(s: string) {
    s == "" || s == "0"
  }

  /** PHP's `isset` on an optional entry: present and not null. */
  predicate IsSet(v: Option<Value>) {
    v.Some? && !v.value.Null?
  }

  /** PHP's string conversion of an optional string: null concatenates as "". */
  function AsText(s: Option<string>): string {
    match s
    case Some(t) => t
    case None => ""
  }
}
