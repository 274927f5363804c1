/**
 * CRC-32 as section 3.4 of RFC 2083 defines it (the ISO 3309 / ITU-T V.42
 * polynomial, `CRC_32_ISO_HDLC` of the `crc` crate): bit-reflected
 * polynomial 0xEDB88320, register preset to all ones, result complemented.
 */
module Checksum {
  import opened Wire

  const Polynomial: bv32 := 0xEDB8_8320

  /** One shift of the reflected register. */
  function Shift(c: bv32): bv32 {
    if c & 1 == 1 then (c >> 1) ^ Polynomial else c >> 1
  }

  /** `k` shifts in a row. */
  function Shifts(c: bv32, k: nat): bv32
    decreases k
  {
    if k == 0 then c else Shifts(Shift(c), k - 1)
  }

  /** Feeds one byte, least significant bit first: one shift per bit. */
  function FeedByte(c: bv32, b: u8): bv32 {
    Shifts(c ^ (b as bv32), 8)
  }

  /** Feeds a byte sequence into the register, front to back. */
  function Feed(c: bv32, s: seq<u8>): bv32
    decreases |s|
  {
    if s == [] then c else Feed(FeedByte(c, s[0]), s[1..])
  }

  /** The checksum of `s`. */
  function Crc32(s: seq<u8>): u32 {
    ((Feed(0xFFFF_FFFF, s) ^ 0xFFFF_FFFF) as int) as u32
  }
}
