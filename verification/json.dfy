/**
 * A JSON value as Python holds it after `json.load`/`json.loads`, with the
 * three Python operations the source applies to such values: truthiness
 * (`if v:`), `str(v)` (what an f-string prints) and `len(v)`.
 */
module Json {
  import opened Wrappers

  /**
   * `Num`, `Arr` and `Obj` carry the text Python's `str()` gives them
   * (`shown`); the model does not compute float or list formatting.
   */
  datatype Value =
    | Null
    | Bool(b: bool)
    | Num(shown: string, zero: bool)
    | Str(s: string)
    | Arr(items: seq<Value>, shown: string)
    | Obj(size: nat, shown: string)

  /** A JSON object: a Python dict with string keys. */
  type Object = map<string, Value>

  /** Python truthiness: `None`, `False`, zero and empty containers are false. */
  predicate Truthy(v: Value) {
    match v
    case Null => false
    case Bool(b) => b
    case Num(_, zero) => !zero
    case Str(s) => s != []
    case Arr(items, _) => items != []
    case Obj(size, _) => size > 0
  }

  /** `str(v)`, which is what `f"{v}"` prints. */
  function Show(v: Value): string {
    match v
    case Null => "None"
    case Bool(b) => if b then "True" else "False"
    case Num(shown, _) => shown
    case Str(s) => s
    case Arr(_, shown) => shown
    case Obj(_, shown) => shown
  }

  /** `len(v)`; `None` where Python raises TypeError (None, bool and numbers have no length). */
  function Len(v: Value): Option<nat> {
    match v
    case Str(s) => Some(|s|)
    case Arr(items, _) => Some(|items|)
    case Obj(size, _) => Some(size)
    case _ => None
  }

  /** `d.get(key)`: a missing key reads as None. */
  function Get(d: Object, key: string): Value {
    if key in d then d[key] else Null
  }

  /** `d.get(key, default)` */
  function GetOr(d: Object, key: string, default: Value): Value {
    if key in d then d[key] else default
  }
}
