/** JavaScript value semantics that the controllers rely on: nullable values,
    error results, and the IEEE special value NaN that the back end produces by
    dividing zero by zero or by taking the maximum with `undefined`.
    Finite numbers are modelled as exact reals. */
module Js {

  /** A nullable (or absent) value: `None` stands for `null` / `undefined`. */
  datatype Option<+T> = None | Some(value: T) {
    /** `x ?? d` */
    function OrElse(d: T): T {
      match this
      case Some(v) => v
      case None => d
    }
  }

  /** A handler either produces a value or raises an `AppError`. */
  datatype Result<+T, +E> = Ok(value: T) | Err(error: E)

  /** A JavaScript number: a finite value or NaN. Infinity never arises in the
      modelled code (every division by zero there has a zero numerator). */
  datatype Number = Num(v: real) | NaN

  /** `a + b`: NaN is absorbing. */
  function Add(a: Number, b: Number): (r: Number)
    ensures r.NaN? <==> a.NaN? || b.NaN?
    ensures r.Num? ==> r.v == a.v + b.v
  {
    if a.Num? && b.Num? then Num(a.v + b.v) else NaN
  }

  /** `a / n` for a positive count `n`. */
  function DivCount(a: Number, n: nat): (r: Number)
    requires n > 0
    ensures r.NaN? <==> a.NaN?
    ensures r.Num? ==> r.v * (n as real) == a.v
  {
    if a.Num? then Num(a.v / n as real) else NaN
  }

  /** `a >= t` where `t` is finite: every comparison with NaN is false. */
  predicate AtLeast(a: Number, t: real) {
    a.Num? && a.v >= t
  }

  /** `Math.max(a, b)`: NaN if either argument is NaN. */
  function Max(a: Number, b: Number): (r: Number)
    ensures r.NaN? <==> a.NaN? || b.NaN?
    ensures r.Num? ==> r.v >= a.v && r.v >= b.v && (r.v == a.v || r.v == b.v)
  {
    if a.Num? && b.Num? then Num(if a.v >= b.v then a.v else b.v) else NaN
  }

  /** Truthiness of a nullable integer: `null` and `0` are falsy. */
  predicate TruthyInt(x: Option<int>) {
    x.Some? && x.value != 0
  }

  /** Truthiness of a nullable number read from the database (never NaN). */
  predicate TruthyReal(x: Option<real>) {
    x.Some? && x.value != 0.0
  }

  /** Truthiness of a nullable string: `null` and `""` are falsy. */
  predicate TruthyString(x: Option<string>) {
    x.Some? && x.value != ""
  }

  function MaxNat(a: nat, b: nat): (r: nat)
    ensures r >= a && r >= b && (r == a || r == b)
  {
    if a >= b then a else b
  }
}
