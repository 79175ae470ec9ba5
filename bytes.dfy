/** Conversions between integers and the bv8 bytes of the bytecode. */
module Bytes {
  /** A value below 256 survives the trip through a uint8_t. */
  lemma RoundTrip(x: nat)
    requires x < 256
    ensures (x as bv8) as nat == x
  {
  }
}
