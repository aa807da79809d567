/** The loosely typed values the plugin receives from the chat framework
    (decoded JSON), Python truthiness, and the exceptions the code lets
    escape, modelled as a `Result`. */
module Py {

  import opened Text

  /** A decoded JSON value, as the bot API hands it to the plugin. */
  datatype Json =
    | Null
    | Bool(bval: bool)
    | Int(ival: int)
    | Str(sval: string)
    | Arr(elems: seq<Json>)
    | Obj(fields: map<string, Json>)

  /** Python's `bool(v)`. */
  predicate Truthy(v: Json) {
    match v
    case Null => false
    case Bool(b) => b
    case Int(i) => i != 0
    case Str(s) => s != ""
    case Arr(a) => |a| > 0
    case Obj(m) => |m| > 0
  }

  datatype Option<+T> = None | Some(value: T)

  /** A computation that either returns a value or raises a Python exception
      (`AttributeError`, `TypeError`, `KeyError`, `IndexError`, or a failed
      call to the chat framework). */
  datatype Result<+T> = Ok(value: T) | Raise(error: string) {
    predicate IsFailure() {
      Raise?
    }

    function PropagateFailure<U>(): Result<U>
      requires Raise?
    {
      Raise(error)
    }

    function Extract(): T
      requires Ok?
    {
      value
    }
  }

  /** `d.get(key, default)` where `d` is a dict. */
  function GetOr(d: map<string, Json>, key: string, default: Json): (r: Json)
    ensures key in d ==> r == d[key]
    ensures key !in d ==> r == default
  {
    if key in d then d[key] else default
  }

  /** `v.get(key, default)` on an arbitrary value: only a dict has `get`. */
  function Get(v: Json, key: string, default: Json): (r: Result<Json>)
    ensures r.Raise? <==> !v.Obj?
    ensures v.Obj? ==> r == Ok(GetOr(v.fields, key, default))
  {
    if v.Obj? then Ok(GetOr(v.fields, key, default)) else Raise("AttributeError: no attribute 'get'")
  }

  /** `v[key]` on an arbitrary value used as a dict. */
  function Index(v: Json, key: string): (r: Result<Json>)
    ensures r.Ok? <==> v.Obj? && key in v.fields
    ensures r.Ok? ==> r.value == v.fields[key]
  {
    if v.Obj? && key in v.fields then Ok(v.fields[key]) else Raise("KeyError")
  }

  /** The elements a `for` loop visits, as far as the plugin's loops can use
      them: every loop here calls `.get` on each element, so iterating a
      non-empty string (its characters) or a non-empty dict (its keys) raises
      on the first element, and an empty one yields nothing. Numbers, booleans
      and `None` are not iterable. */
  function Elements(v: Json): (r: Result<seq<Json>>)
    ensures v.Arr? ==> r == Ok(v.elems)
    ensures r.Ok? ==> v.Arr? || !Truthy(v)
  {
    match v
    case Arr(a) => Ok(a)
    case Str(s) => if s == "" then Ok([]) else Raise("AttributeError: 'str' object has no attribute 'get'")
    case Obj(m) => if |m| == 0 then Ok([]) else Raise("AttributeError: 'str' object has no attribute 'get'")
    case _ => Raise("TypeError: object is not iterable")
  }

  /** `str(v)` for the scalar values ids take. */
  function ScalarToString(v: Json): (r: string)
    ensures v.Str? ==> r == v.sval
  {
    match v
    case Null => "None"
    case Bool(b) => if b then "True" else "False"
    case Int(i) => IntToString(i)
    case Str(s) => s
    case _ => ""
  }
}
