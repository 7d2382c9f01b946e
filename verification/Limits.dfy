/** Sizes that several components share. */
module Limits {

  /** The longest payload a radio sends, in bytes. */
  const RADIO_MTU: nat := 1600

  /** The bytes of a stored CRC. */
  const CRC16_LEN: nat := 2
}
