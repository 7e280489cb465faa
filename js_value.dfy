/**
 * The JavaScript values the reconciliation code handles: JSON-shaped data
 * as it arrives from the bibliographic providers.
 */
module JsValue {
  import opened Common

  /**
   * A JavaScript value. `Undefined` is both an explicit `undefined` and the
   * result of reading a missing property. An object is a map from its own
   * keys to their values; numbers are integers.
   */
  datatype Value =
    | Undefined
    | Null
    | Bool(b: bool)
    | Num(n: int)
    | Str(s: string)
    | Obj(props: map<string, Value>)
    | Arr(items: seq<Value>)

  /** The value counts as true in a condition (`if (v)`, `v && ...`, `filter(Boolean)`). */
  predicate Truthy(v: Value)
  {
    match v
    case Undefined => false
    case Null => false
    case Bool(b) => b
    case Num(n) => n != 0
    case Str(s) => s != ""
    case Obj(_) => true
    case Arr(_) => true
  }

  /** `null` or `undefined`: reading a property of it throws. */
  predicate Nullish(v: Value)
  {
    v.Undefined? || v.Null?
  }

  /** `typeof v === 'object'`. */
  predicate IsObjectTyped(v: Value)
  {
    v.Null? || v.Obj? || v.Arr?
  }

  /** `obj[key]` on an object given by its own properties. */
  function Get(props: map<string, Value>, key: string): Value
  {
    if key in props then props[key] else Undefined
  }

  /**
   * `v.key` for one of the data keys the providers use. Only own data
   * properties of objects are modelled, so on any other value the result is
   * `undefined`.
   */
  function Prop(v: Value, key: string): Value
    requires !Nullish(v)
  {
    if v.Obj? then Get(v.props, key) else Undefined
  }

  /** `v?.key`. */
  function OptionalProp(v: Value, key: string): Value
  {
    if Nullish(v) then Undefined else Prop(v, key)
  }

  /**
   * `a === b`. Two object or array values are never the same object here:
   * each comes from its own parsed provider response.
   */
  predicate StrictEquals(a: Value, b: Value)
  {
    !(a.Obj? || a.Arr? || b.Obj? || b.Arr?) && a == b
  }

  /** `Object.assign(target, source)` on the own properties of two objects. */
  function Assign(target: map<string, Value>, source: map<string, Value>): map<string, Value>
  {
    target + source
  }

  /** The decimal digit `d`. */
  function DigitChar(d: nat): char
    requires d < 10
  {
    "0123456789"[d]
  }

  /** `String(n)` for a non-negative integer. */
  function NatToDecimal(n: nat): string
    decreases n
  {
    if n < 10 then [DigitChar(n)] else NatToDecimal(n / 10) + [DigitChar(n % 10)]
  }

  /** `String(n)` for an integer. */
  function IntToDecimal(n: int): string
  {
    if n < 0 then "-" + NatToDecimal(-n) else NatToDecimal(n)
  }

  /** `parts.join(',')`. */
  function JoinWithCommas(parts: seq<string>): string
  {
    if |parts| == 0 then ""
    else if |parts| == 1 then parts[0]
    else parts[0] + "," + JoinWithCommas(parts[1..])
  }

  /** `String(v)`, as a template literal `${v}` converts it. */
  function ToJsString(v: Value): string
    decreases v
  {
    match v
    case Undefined => "undefined"
    case Null => "null"
    case Bool(b) => if b then "true" else "false"
    case Num(n) => IntToDecimal(n)
    case Str(s) => s
    case Obj(_) => "[object Object]"
    case Arr(items) =>
      // Array.prototype.join writes null and undefined elements as empty strings.
      JoinWithCommas(seq(|items|, i requires 0 <= i < |items| =>
        if Nullish(items[i]) then "" else ToJsString(items[i])))
  }

  /** The own enumerable properties of an array: its elements under their decimal indices. */
  function ArrayEntries(items: seq<Value>): map<string, Value>
    decreases |items|
  {
    if items == [] then map[]
    else ArrayEntries(items[..|items| - 1])[NatToDecimal(|items| - 1) := items[|items| - 1]]
  }

  /** The own enumerable properties `Object.assign` copies from `v`. */
  function OwnEntries(v: Value): map<string, Value>
  {
    match v
    case Obj(props) => props
    case Arr(items) => ArrayEntries(items)
    case _ => map[]
  }
}
