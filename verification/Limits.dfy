/** Clamped numbers and truncated sequences. */
module Limits {
  function Clamp(n: int, low: int, high: int): int { if n < low then low else if n > high then high else n }

  /** `Iterator::take`, and SQL's LIMIT. */
  function Take<T>(s: seq<T>, n: nat): seq<T> { if |s| <= n then s else s[..n] }
}
