/**
 * The JavaScript numbers the mesh builders read and write.
 *
 * Both builders index nested `number[][]` arrays without checking row
 * lengths, so a read can yield `undefined`, and arithmetic on `undefined`
 * yields `NaN`. Finite numbers are modelled exactly as reals; the rounding
 * of double-precision arithmetic and of `Float32Array` stores is not
 * modelled.
 */
module JsValues {

  /** A number as JavaScript sees it at the points the builders touch it. */
  datatype Value = Num(v: real) | Undefined | NaN

  /** `a + k`: any non-number operand turns the sum into NaN. */
  function Add(a: Value, k: real): Value
  {
    if a.Num? then Num(a.v + k) else NaN
  }

  /** `a - k`. */
  function Sub(a: Value, k: real): Value
  {
    if a.Num? then Num(a.v - k) else NaN
  }

  /** `k - a`. */
  function SubFrom(k: real, a: Value): Value
  {
    if a.Num? then Num(k - a.v) else NaN
  }

  /** `a / k` for a non-zero constant divisor. */
  function Div(a: Value, k: real): Value
    requires k != 0.0
  {
    if a.Num? then Num(a.v / k) else NaN
  }

  /** `Math.max(a, k)`: NaN when `a` is not a number. */
  function Max(a: Value, k: real): Value
  {
    if a.Num? then Num(if a.v < k then k else a.v) else NaN
  }

  /** `Math.min(a, k)`: NaN when `a` is not a number. */
  function Min(a: Value, k: real): Value
  {
    if a.Num? then Num(if k < a.v then k else a.v) else NaN
  }

  /** Storing into a `Float32Array`: `undefined` becomes NaN (rounding is not modelled). */
  function ToFloat32(a: Value): Value
  {
    if a.Undefined? then NaN else a
  }
}
