/** The JavaScript values that reach the log helpers, with the two
    conversions the helpers apply to them: ToString (template literals,
    regular-expression tests, property keys, `+` with a string) and
    truthiness (`x ? a : b`). Plain objects other than arrays are not
    modelled. */
module JsValues {
  import opened Text

  /** Int is a Number that Number.isInteger accepts; Num is any other
      Number (a fraction, NaN or an infinity), carried as its ToString form. */
  datatype JsValue =
    | Undef
    | Null
    | Bool(b: bool)
    | Int(i: int)
    | Num(text: string)
    | Str(s: string)
    | Arr(elems: seq<JsValue>)

  /** ECMAScript ToString; an array converts through Array.prototype.join(','). */
  function ToStr(v: JsValue): string
    decreases v, 0
  {
    match v
    case Undef => "undefined"
    case Null => "null"
    case Bool(b) => if b then "true" else "false"
    case Int(i) => IntToString(i)
    case Num(t) => t
    case Str(s) => s
    case Arr(es) => ArrayJoin(es, ",")
  }

  /** How Array.prototype.join converts one element: undefined and null become "". */
  function ElementStr(v: JsValue): (r: string)
    decreases v, 1
    ensures v.Undef? || v.Null? ==> r == ""
  {
    if v.Undef? || v.Null? then "" else ToStr(v)
  }

  /** Array.prototype.join(sep). */
  function ArrayJoin(es: seq<JsValue>, sep: string): string
    decreases es, 2
  {
    Join(seq(|es|, k requires 0 <= k < |es| => ElementStr(es[k])), sep)
  }

  /** The exceptions the helpers can throw, with the engine's message. */
  datatype Thrown = TypeError(message: string) | Error(message: string)

  /** Truthiness as `x ? a : b` decides it. */
  predicate Truthy(v: JsValue)
  {
    match v
    case Undef => false
    case Null => false
    case Bool(b) => b
    case Int(i) => i != 0
    case Num(t) => t != "NaN"
    case Str(s) => s != ""
    case Arr(_) => true
  }
}
