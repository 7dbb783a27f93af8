/** JavaScript values that the pipeline's data can carry but that Dafny types do not have. */
module JsValues {

  datatype Option<+T> = None | Some(value: T)

  /** A JavaScript number: a finite value, NaN, or one of the two infinities.
      The ingestion layer builds the coordinates and the speed with `Number(...)`
      (public/js/app.js:56-66), so no other kind of value reaches the pipeline. */
  datatype JsNum = Num(v: real) | NaN | PosInf | NegInf {

    /** `Number.isFinite(x)` */
    predicate IsFinite() { Num? }

    /** `x > bound` for a finite bound: false whenever x is NaN */
    predicate GreaterThan(bound: real) {
      match this
      case Num(x) => x > bound
      case PosInf => true
      case _ => false
    }
  }

  /** `s || fallback` for an optional string: both a missing value and the
      empty string are falsy in JavaScript. */
  function OrDefault(s: Option<string>, fallback: string): (r: string)
    ensures s.Some? && s.value != "" ==> r == s.value
    ensures (s.None? || s.value == "") ==> r == fallback
  {
    match s
    case Some(x) => if x == "" then fallback else x
    case None => fallback
  }
}
