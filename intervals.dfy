// Scalar intervals over the reals extended with the two infinities. The header that
// defines `interval` in the repository (interval.h) is not part of this model; this is
// the minimal surface the core uses: `min`, `max`, `size`, `surrounds` and the empty
// interval that a default-constructed bounding box holds on every axis.
module Intervals {

  /** A double that is a finite real or one of the two infinities (never NaN). */
  datatype XReal = NegInf | Fin(v: real) | PosInf

  predicate Lt(a: XReal, b: XReal) {
    match a
    case NegInf => !b.NegInf?
    case Fin(x) => b.PosInf? || (b.Fin? && x < b.v)
    case PosInf => false
  }

  predicate Le(a: XReal, b: XReal) { !Lt(b, a) }

  /** `std::min(a, b)`: `b` only when it is strictly smaller. */
  function Min(a: XReal, b: XReal): XReal { if Lt(b, a) then b else a }

  /** `std::max(a, b)`: `b` only when it is strictly larger. */
  function Max(a: XReal, b: XReal): XReal { if Lt(a, b) then b else a }

  lemma LtTransitive(a: XReal, b: XReal, c: XReal)
    requires Lt(a, b) && Lt(b, c)
    ensures Lt(a, c)
  {
  }

  lemma LtLeTransitive(a: XReal, b: XReal, c: XReal)
    requires Lt(a, b) && Le(b, c)
    ensures Lt(a, c)
  {
  }

  lemma LeTransitive(a: XReal, b: XReal, c: XReal)
    requires Le(a, b) && Le(b, c)
    ensures Le(a, c)
  {
  }

  lemma LeAntisymmetric(a: XReal, b: XReal)
    requires Le(a, b) && Le(b, a)
    ensures a == b
  {
  }

  datatype Interval = Interval(min: XReal, max: XReal)

  /** The empty interval: every bound test against it fails. */
  const Empty: Interval := Interval(PosInf, NegInf)

  /** Strict membership `min < x < max`. */
  predicate Surrounds(i: Interval, x: real) {
    Lt(i.min, Fin(x)) && Lt(Fin(x), i.max)
  }

  /**
   * `max - min` in extended arithmetic. The two differences that are NaN in IEEE
   * arithmetic (an interval whose bounds are the same infinity) are mapped to NegInf;
   * no bounding box built by the core has such an axis.
   */
  function Size(i: Interval): XReal {
    match i.min
    case Fin(a) => (match i.max case Fin(b) => Fin(b - a) case PosInf => PosInf case NegInf => NegInf)
    case NegInf => if i.max.NegInf? then NegInf else PosInf
    case PosInf => NegInf
  }
}
