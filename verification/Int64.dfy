/** Go's int64: durations, token counts and money wrap around as it does. */
module Int64 {
  const TOP := 0x8000_0000_0000_0000
  const MIN := -TOP
  const MAX := TOP - 1

  predicate Fits(n: int) { MIN <= n <= MAX }

  /** The 64-bit integer congruent to `x`. */
  function Wrap(x: int): (r: int)
    ensures Fits(r) && (Fits(x) ==> r == x)
  {
    (x + TOP) % (2 * TOP) - TOP
  }
}
