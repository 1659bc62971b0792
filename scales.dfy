/**
 * The radial scale. The source builds a d3 power scale with exponent 0.5 over
 * the domain [0, skillRange[1]] and the range [CenterRadius, Width / 2]; the
 * model keeps only what the layout relies on: an arbitrary map from time to
 * radius, a map back, and the two properties below, hypotheses of the lemmas that need them.
 */
module Scales {

  datatype Scale = Scale(forward: real -> real, invert: real -> real)

  /** Later times lie at larger radii. */
  ghost predicate Increasing(sc: Scale)
  {
    forall x, y :: x < y ==> sc.forward(x) < sc.forward(y)
  }

  /** `invert` undoes `forward` exactly: no floating-point rounding. */
  ghost predicate ExactInverse(sc: Scale)
  {
    forall r :: sc.forward(sc.invert(r)) == r
  }
}
