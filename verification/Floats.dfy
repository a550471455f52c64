/** A float sample over the reals: a number, or one of the values that `np.isfinite` rejects. */
module Floats {
  datatype Float = NonFinite | Num(value: real)

  /** `x >= bound` and `x <= bound`, which NaN never satisfies. */
  predicate AtLeast(x: Float, bound: real) { x.Num? && x.value >= bound }

  predicate AtMost(x: Float, bound: real) { x.Num? && x.value <= bound }
}
