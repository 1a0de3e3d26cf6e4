/**
 A JavaScript number as the workout model sees it: either a finite value,
 modelled exactly as a `real`, or one of the non-finite values (NaN, +Infinity,
 -Infinity), which the application only ever tests for as a group through
 `Number.isFinite`. IEEE-754 rounding is not modelled.
 */
module JsNumber {

  datatype Num = Finite(value: real) | NonFinite

  /** JavaScript's `a / b` on finite operands: a zero divisor yields
      Infinity or NaN, every other divisor an exact quotient. */
  function Div(a: real, b: real): (r: Num)
    ensures b != 0.0 ==> r.Finite? && r.value * b == a
    ensures b == 0.0 ==> r.NonFinite?
  {
    if b == 0.0 then NonFinite else Finite(a / b)
  }
}
