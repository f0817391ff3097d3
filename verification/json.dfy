/**
  JavaScript values as they arrive from `JSON.parse` (plus `undefined` and
  `NaN`, which an `any`-typed parameter can also hold), with the parts of the
  language's semantics the chat code relies on: truthiness, `typeof`, property
  access and the value-returning `&&` operator.
 */
module Json {

  datatype JsValue =
    | Undefined
    | Null
    | Bool(b: bool)
    | Num(n: real)
    | NaN
    | Str(s: string)
    | Arr(items: seq<JsValue>)
    | Obj(fields: map<string, JsValue>)

  /** The result of the `typeof` operator. */
  datatype JsType = TUndefined | TObject | TBoolean | TNumber | TString

  /** JavaScript truthiness: `undefined`, `null`, `false`, `0`, `NaN` and `""` are falsy. */
  predicate Truthy(v: JsValue) {
    match v
    case Undefined => false
    case Null => false
    case Bool(b) => b
    case Num(n) => n != 0.0
    case NaN => false
    case Str(s) => s != ""
    case Arr(_) => true
    case Obj(_) => true
  }

  /** `typeof v`; note that `typeof null` is `"object"`. */
  function TypeOf(v: JsValue): JsType {
    match v
    case Undefined => TUndefined
    case Null => TObject
    case Bool(_) => TBoolean
    case Num(_) => TNumber
    case NaN => TNumber
    case Str(_) => TString
    case Arr(_) => TObject
    case Obj(_) => TObject
  }

  /**
    `v.key` for a value `v` that is neither `null` nor `undefined` (the code only
    reads a property after a truthiness test). Own fields of objects are looked
    up; every other value yields `undefined`, which is exact for the field names
    the code reads, since no primitive, array or object prototype defines them.
   */
  function Get(v: JsValue, key: string): JsValue {
    match v
    case Obj(fields) => if key in fields then fields[key] else Undefined
    case _ => Undefined
  }

  /** `a && b`: yields `a` itself when `a` is falsy, and `b` otherwise. */
  function And(a: JsValue, b: JsValue): JsValue {
    if Truthy(a) then b else a
  }
}
