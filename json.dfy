/** The JSON values that reach the core from request bodies and parsed model
    output, with the parts of Python's dynamic semantics the core relies on:
    truthiness, `key in container` and `dict.get`. */
module Json {
  import opened Wrappers
  import Text

  /** A decoded JSON value. Numbers are kept as integers: the core only ever
      tests their type or adds them up. */
  datatype Value =
    | Null
    | Bool(b: bool)
    | Num(n: int)
    | Str(s: string)
    | Arr(items: seq<Value>)
    | Obj(fields: map<string, Value>)

  /** The Python exceptions an operation of the core can raise on ill-typed input. */
  datatype PyError = TypeError

  /** Python truthiness: None, False, 0 and empty containers are false. */
  predicate Truthy(v: Value)
  {
    match v
    case Null => false
    case Bool(b) => b
    case Num(n) => n != 0
    case Str(s) => s != []
    case Arr(xs) => xs != []
    case Obj(m) => m != map[]
  }

  /** The values Python's `in` accepts on its right: dicts, lists, strings. */
  predicate IsContainer(v: Value)
  {
    v.Obj? || v.Arr? || v.Str?
  }

  /** `key in container` for a string key and a container: a key test on a
      dict, an element test on a list, a substring test on a string. */
  predicate Contains(key: string, container: Value)
    requires IsContainer(container)
  {
    match container
    case Obj(m) => key in m
    case Arr(xs) => Str(key) in xs
    case Str(s) => Text.IsSubstring(key, s)
  }

  /** `key in container` on any value: None, booleans and numbers are not
      containers and raise TypeError. */
  function In(key: string, container: Value): (r: Result<bool, PyError>)
    ensures r.Failure? <==> container.Null? || container.Bool? || container.Num?
    ensures container.Obj? ==> r == Success(key in container.fields)
    ensures IsContainer(container) ==> r == Success(Contains(key, container))
  {
    if IsContainer(container) then Success(Contains(key, container)) else Failure(TypeError)
  }

  /** `d.get(key, default)`. */
  function Get(d: map<string, Value>, key: string, default: Value): Value
  {
    if key in d then d[key] else default
  }
}
