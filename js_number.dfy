/**
 * JavaScript Number values, as far as the modelled code observes them.
 * Finite values are exact reals: the code rounds, clamps and compares, and
 * double-precision effects play no part in those steps.
 */
module JsNumber {

  /** A JavaScript Number: a finite value, an infinity, or NaN. */
  datatype Number = Finite(x: real) | PosInf | NegInf | NaN {

    /** JavaScript truthiness: everything except 0 and NaN. */
    predicate Truthy() {
      !(this.NaN? || this == Finite(0.0))
    }
  }

  /** The number holding the integer `n`. */
  function Int(n: int): Number {
    Finite(n as real)
  }

  predicate IsInt(x: real) {
    x.Floor as real == x
  }

  /** `a || b`. */
  function Or(a: Number, b: Number): (r: Number)
    ensures r == (if a.Truthy() then a else b)
  {
    if a.Truthy() then a else b
  }

  /** `Math.round` of a finite value: the nearest integer, halves rounding up. */
  function RoundReal(x: real): (r: int)
    ensures x - 0.5 < r as real <= x + 0.5
  {
    (x + 0.5).Floor
  }

  /** `Math.round`: infinities and NaN are returned unchanged. */
  function Round(n: Number): (r: Number)
    ensures r.Finite? <==> n.Finite?
    ensures r.Finite? ==> IsInt(r.x) && n.x - 0.5 < r.x <= n.x + 0.5
    ensures !n.Finite? ==> r == n
  {
    if n.Finite? then Int(RoundReal(n.x)) else n
  }

  /** The order of JavaScript numbers other than NaN. */
  predicate Le(a: Number, b: Number)
    requires !a.NaN? && !b.NaN?
  {
    a.NegInf? || b.PosInf? || (a.Finite? && b.Finite? && a.x <= b.x)
  }

  /** `Math.max(a, b)`: NaN when either argument is NaN, otherwise the larger. */
  function MathMax(a: Number, b: Number): (r: Number)
    ensures r.NaN? <==> a.NaN? || b.NaN?
    ensures !r.NaN? ==> (r == a || r == b) && Le(a, r) && Le(b, r)
  {
    if a.NaN? || b.NaN? then NaN else if Le(a, b) then b else a
  }

  /** `Math.min(a, b)`: NaN when either argument is NaN, otherwise the smaller. */
  function MathMin(a: Number, b: Number): (r: Number)
    ensures r.NaN? <==> a.NaN? || b.NaN?
    ensures !r.NaN? ==> (r == a || r == b) && Le(r, a) && Le(r, b)
  {
    if a.NaN? || b.NaN? then NaN else if Le(a, b) then a else b
  }

  /** Clamping a rounded (integral or infinite) number to `[lo, hi]`. The two
      orders of composing `Math.max` and `Math.min` that the code uses agree
      on it, and the result is an integer. */
  function ClampToInt(v: Number, lo: int, hi: int): (r: int)
    requires lo <= hi
    requires !v.NaN? && (v.Finite? ==> IsInt(v.x))
    ensures lo <= r <= hi
    ensures Int(r) == MathMax(Int(lo), MathMin(Int(hi), v))
    ensures Int(r) == MathMin(Int(hi), MathMax(Int(lo), v))
  {
    match v
    case PosInf => hi
    case NegInf => lo
    case Finite(x) => if x.Floor < lo then lo else if x.Floor > hi then hi else x.Floor
  }

  /** Clamping a number that is not NaN to the real interval `[lo, hi]`,
      in either composition order of `Math.max` and `Math.min`. */
  function ClampToReal(v: Number, lo: real, hi: real): (r: real)
    requires lo <= hi && !v.NaN?
    ensures lo <= r <= hi
    ensures Finite(r) == MathMax(Finite(lo), MathMin(Finite(hi), v))
    ensures Finite(r) == MathMin(Finite(hi), MathMax(Finite(lo), v))
  {
    match v
    case PosInf => hi
    case NegInf => lo
    case Finite(x) => if x < lo then lo else if x > hi then hi else x
  }
}
