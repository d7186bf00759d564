/** Times of a registry's documents, in nanoseconds since Go's zero time. */
module Timestamps {
  /** A time as text: what it denotes, or that it does not parse. */
  datatype Stamp = At(t: int) | Unparseable

  const ZERO_TIME := 0
  const SECOND := 1_000_000_000
}
