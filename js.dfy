/**
 * JavaScript values, as far as the plugin inspects them: the configuration
 * object handed to the constructor and the host's `options.externals`.
 * Numbers are integers here; the plugin never computes with them.
 */
module Js {

  datatype Value =
    | Undefined
    | Null
    | Bool(b: bool)
    | Num(n: int)
    | Str(s: string)
    | Arr(items: seq<Value>)
    | Obj(fields: map<string, Value>)
    | Func(id: nat)

  /** Property access `v[key]`: a missing key, or any non-object, reads as undefined. */
  function Get(v: Value, key: string): Value
  {
    if v.Obj? && key in v.fields then v.fields[key] else Undefined
  }

  /** A property "is there" for Ajv (`required`, `properties`) and for default values in destructuring. */
  predicate Present(v: Value, key: string)
  {
    Get(v, key) != Undefined
  }

  /** JavaScript truthiness (`!x` is false exactly for these values). */
  predicate Truthy(v: Value)
  {
    match v
    case Undefined => false
    case Null => false
    case Bool(b) => b
    case Num(n) => n != 0
    case Str(s) => s != ""
    case _ => true
  }

  /** `typeof v === 'object'` (null answers 'object' too). */
  predicate TypeofObject(v: Value)
  {
    v.Null? || v.Arr? || v.Obj?
  }

  predicate IsStringArray(v: Value)
  {
    v.Arr? && forall i :: 0 <= i < |v.items| ==> v.items[i].Str?
  }

  /** The strings of an array of strings, in order. */
  function Strings(v: Value): (r: seq<string>)
    requires IsStringArray(v)
    ensures |r| == |v.items|
    ensures forall i :: 0 <= i < |r| ==> v.items[i] == Str(r[i])
  {
    seq(|v.items|, i requires 0 <= i < |v.items| => v.items[i].s)
  }
}
