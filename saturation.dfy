/**
 Saturation of a value into a closed interval: the `clip` helper shared by both
 controller scripts, built the same way from Python's two-argument `max` and `min`.
 */
module Saturation {

  /** Python's `max(a, b)`: `a` unless `b` is strictly larger. */
  function Max(a: real, b: real): (r: real)
    ensures r >= a && r >= b && (r == a || r == b)
  {
    if b > a then b else a
  }

  /** Python's `min(a, b)`: `a` unless `b` is strictly smaller. */
  function Min(a: real, b: real): (r: real)
    ensures r <= a && r <= b && (r == a || r == b)
  {
    if b < a then b else a
  }

  /** `clip(v, lo, hi) = max(lo, min(hi, v))`. */
  function Clip(v: real, lo: real, hi: real): (r: real)
    ensures lo <= hi ==> lo <= r <= hi
    ensures lo <= v <= hi ==> r == v
    ensures v < lo ==> r == lo
    ensures lo <= hi < v ==> r == hi
    ensures hi < lo ==> r == lo
  {
    Max(lo, Min(hi, v))
  }

  /** Clipping a clipped value changes nothing, even for an empty interval. */
  lemma ClipIdempotent(v: real, lo: real, hi: real)
    ensures Clip(Clip(v, lo, hi), lo, hi) == Clip(v, lo, hi)
  {
  }

  /** Clipping never moves two values further apart. */
  lemma ClipNonExpansive(u: real, v: real, lo: real, hi: real)
    requires u <= v
    ensures 0.0 <= Clip(v, lo, hi) - Clip(u, lo, hi) <= v - u
  {
  }
}
