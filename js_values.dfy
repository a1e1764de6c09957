/** The few JavaScript value notions the utilities rely on: `undefined`, `NaN`,
    truthiness of an optional string, `||` on optional strings and unary `+`
    on a regular-expression capture. */
module JsValues {
  import Decimal

  /** A value that may be `undefined`. */
  datatype Option<T> = None | Some(value: T)

  /** A JavaScript number as the endpoint parser can produce it: `NaN`, or a
      non-negative integer. Very long digit strings are not modelled as a double
      would hold them: past 2^53 the source rounds, and past about 309 digits it
      gives `Infinity`; here every digit string keeps its exact value. */
  datatype JsNumber = NaN | Finite(value: nat)

  /** Truthiness of a string-or-undefined: `undefined` and `""` are falsy. */
  predicate Truthy(s: Option<string>) {
    s.Some? && s.value != ""
  }

  /** `a || b` on two strings-or-undefined: `a` when it is truthy, else `b`. */
  function Or(a: Option<string>, b: Option<string>): (r: Option<string>)
    ensures Truthy(r) <==> Truthy(a) || Truthy(b)
    ensures Truthy(a) ==> r == a
    ensures !Truthy(a) ==> r == b
  {
    if Truthy(a) then a else b
  }

  /** Unary `+` on a capture group of `\d+`: `+undefined` is `NaN`, `+"d..d"` is
      the decimal value of the digits. */
  function UnaryPlus(g: Option<string>): (n: JsNumber)
    requires g.Some? ==> Decimal.IsDigits(g.value)
    ensures n.NaN? <==> g.None?
    ensures g.Some? ==> n == Finite(Decimal.Value(g.value))
    ensures forall k: nat :: g == Some(Decimal.Show(k)) ==> n == Finite(k)
  {
    match g
    case None => NaN
    case Some(digits) => Finite(Decimal.Value(digits))
  }
}
