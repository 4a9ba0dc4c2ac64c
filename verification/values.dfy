/** JSON-like values as the adapter sees them: parsed query strings, parsed
    request bodies and the data a handler returns. */
module Values {

  /** JavaScript's `undefined` versus a present value. */
  datatype Option<+T> = None | Some(value: T)

  datatype Value =
    | Null
    | Bool(b: bool)
    | Num(n: int)
    | Str(s: string)
    | Arr(items: seq<Value>)
    | Obj(fields: map<string, Value>)

  /** The own enumerable properties of a plain object. */
  type Fields = map<string, Value>

  /** The properties that object spread (`...o`) copies; spreading
      `undefined` copies nothing. */
  function Spread(o: Option<Fields>): (f: Fields)
    ensures forall k :: Lookup(o, k) == (if k in f then Some(f[k]) else None)
  {
    match o
    case None => map[]
    case Some(m) => m
  }

  /** The value of property `k`, or `undefined`. */
  function Lookup(o: Option<Fields>, k: string): Option<Value>
  {
    if o.Some? && k in o.value then Some(o.value[k]) else None
  }
}
