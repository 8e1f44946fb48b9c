/**
 What several modules need: optional values, bytes, and the comparison of prices that counts two of them as
 equal when they differ by less than 1e-9 (`nearlyEqual` in controller/ratio_sync.go).
 */
module Basics {

  datatype Option<T> = None | Some(value: T)

  newtype byte = x: int | 0 <= x < 256

  type Bytes = seq<byte>

  const EPSILON := 0.000000001

  predicate NearlyEqual(a: real, b: real) {
    if a > b then a - b < EPSILON else b - a < EPSILON
  }

  // A multiple other than 0 is at least as far from 0 as the factor.
  lemma Whole(k: int, d: int)
    requires d > 0
    ensures k >= 1 ==> k * d >= d
    ensures k <= -1 ==> k * d + d <= 0
  {
  }
}
