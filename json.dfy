/** The JSON-like values that segments return. */
module Json {
  /** A serialisable value: `None`, a boolean, a number, a string, a list or
      a dictionary. */
  datatype Value =
    | Null
    | Bool(b: bool)
    | Num(n: real)
    | Str(s: string)
    | Arr(items: seq<Value>)
    | Obj(fields: map<string, Value>)

  /** One segment's output, or one element of a list-valued field. */
  type Record = map<string, Value>
}
