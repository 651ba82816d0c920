/** Definitions that all of the library shares. */
module Mseed {
  /** The error value of times and durations, and the unset time. */
  const NSTERROR: int := -2145916800000000000
  const NSTUNSET: int := -2145916799999999999

  /** The sample types whose size is known. */
  predicate KnownType(c: char) {
    c == 't' || c == 'a' || c == 'i' || c == 'f' || c == 'd'
  }
}
