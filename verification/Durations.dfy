/** Lengths of time in nanoseconds. */
module Durations {
  const SECOND: int := 1_000_000_000
  const DAY: int := 86_400 * SECOND
}
