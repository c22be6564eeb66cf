/**
 * Loosely typed JavaScript values, as the utilities receive them.
 * Numbers are exact reals: enough to tell integers from fractions, without
 * IEEE rounding, NaN or the infinities.
 */
module JsValues {

  datatype JsVal =
    | Undefined
    | Null
    | Bool(b: bool)
    | Num(n: real)
    | Str(s: string)
    | Arr(elems: seq<JsVal>)
    | Obj(fields: map<string, JsVal>)

  /** JavaScript truthiness: `!v` is false exactly for these values. */
  predicate Truthy(v: JsVal) {
    match v
    case Undefined => false
    case Null => false
    case Bool(b) => b
    case Num(n) => n != 0.0
    case Str(s) => s != []
    case Arr(_) => true
    case Obj(_) => true
  }

  /** `v && typeof v === 'object'`: arrays and plain objects (null is excluded by falsiness). */
  predicate IsObject(v: JsVal) {
    v.Arr? || v.Obj?
  }

  /** Property read `v[key]` for the property names the model reads; absent reads as undefined. */
  function Get(v: JsVal, key: string): JsVal {
    if v.Obj? && key in v.fields then v.fields[key] else Undefined
  }

  /** The falsy values are exactly `undefined`, `null`, `false`, `0` and `""`. */
  lemma FalsyValues(v: JsVal)
    ensures !Truthy(v) <==> v in {Undefined, Null, Bool(false), Num(0.0), Str([])}
  {
  }

  /** Arrays and objects are always truthy, so `!v` never rejects one and `null` never passes. */
  lemma ObjectGuard(v: JsVal)
    ensures (Truthy(v) && IsObject(v)) <==> IsObject(v)
    ensures !IsObject(Null) && !IsObject(Undefined)
  {
  }

  /** A property written into an object reads back, and every other property reads as before. */
  lemma GetAfterSet(m: map<string, JsVal>, k: string, x: JsVal, other: string)
    ensures Get(Obj(m[k := x]), k) == x
    ensures other != k ==> Get(Obj(m[k := x]), other) == Get(Obj(m), other)
  {
  }

  /** `Number.isInteger(x)` for a finite number. */
  predicate IsInteger(x: real) {
    x.Floor as real == x
  }
}
