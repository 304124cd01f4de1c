/** The tolerance of the exchange, in quantities of any asset. */
module Tolerance {
  /** Quantities up to this count as nothing. */
  const DUST := 0.000000000001
}
