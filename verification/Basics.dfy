/** Arithmetic and sequence facts that several components share. */
module Basics {

  /** `Math.round`: to the nearest integer, halves upwards. On non-negative numbers Rust's `round` does the same. */
  function Round(x: real): int {
    (x + 0.5).Floor
  }

  function Min(x: int, y: int): int {
    if x <= y then x else y
  }

  function Max(x: int, y: int): int {
    if x <= y then y else x
  }

  function MaxReal(x: real, y: real): real {
    if x <= y then y else x
  }

  lemma Product(x: real, y: real)
    requires x >= 0.0 && y >= 0.0
    ensures x * y >= 0.0
  {}

  lemma Scale(p: int, q: int, l: nat)
    requires p <= q
    ensures p * l <= q * l
  {}

  lemma ScaleReal(x: real, y: real, r: real)
    requires x <= y && r > 0.0
    ensures x * r <= y * r
  {}

  lemma Assoc<T>(a: seq<T>, b: seq<T>, c: seq<T>)
    ensures a + (b + c) == a + b + c
  {}
}
