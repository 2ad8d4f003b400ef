/** Scalar helpers: the float operations and numeric casts the rasteriser relies on,
    stated over exact reals. `f32` rounding error, NaN and infinities are not modelled. */
module Numeric {

  function Min(a: real, b: real): (m: real)
    ensures m <= a && m <= b && (m == a || m == b)
  {
    if a <= b then a else b
  }

  function Max(a: real, b: real): (m: real)
    ensures m >= a && m >= b && (m == a || m == b)
  {
    if a >= b then a else b
  }

  function Abs(r: real): (a: real)
    ensures a >= 0.0 && (a == r || a == -r)
  {
    if r < 0.0 then -r else r
  }

  /** `f32::round`: the nearest integer, halfway cases rounded away from zero. */
  function Round(r: real): (n: int)
    ensures -0.5 <= r - n as real <= 0.5
    ensures r - n as real == 0.5 ==> r < 0.0
    ensures n as real - r == 0.5 ==> r > 0.0
  {
    if r >= 0.0 then (r + 0.5).Floor else -((-r + 0.5).Floor)
  }

  /** Saturating cast of an integer-valued float to `usize`: negatives become 0. */
  function SaturateToNat(i: int): (n: nat)
    ensures i >= 0 ==> n == i
    ensures i < 0 ==> n == 0
  {
    if i < 0 then 0 else i
  }

  /** `r.round() as usize`. */
  function RoundToUsize(r: real): (n: nat)
    ensures r <= 0.0 ==> n == 0
    ensures r >= 0.0 ==> -0.5 <= r - n as real <= 0.5
  {
    SaturateToNat(Round(r))
  }

  /** `r as u32` (and `as usize`): truncation toward zero, negatives saturate to 0. */
  function TruncToUnsigned(r: real): (n: nat)
    ensures r >= 0.0 ==> n as real <= r < n as real + 1.0
    ensures r < 1.0 ==> n == 0
  {
    if r <= 0.0 then 0 else r.Floor
  }

  lemma RoundMonotone(a: real, b: real)
    requires a <= b
    ensures Round(a) <= Round(b)
    ensures RoundToUsize(a) <= RoundToUsize(b)
  {
  }

  lemma TruncOfNat(n: nat)
    ensures TruncToUnsigned(n as real) == n
  {
  }
}
