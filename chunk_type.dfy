/**
 * The 4-byte chunk type code of section 3.3 of RFC 2083: each byte is an
 * ASCII letter and bit 5 of each byte (the case bit) is a property of the
 * chunk.
 */
module ChunkTypes {
  import opened Wire
  import BitUtil

  /** The four bytes, named after the property each one carries. */
  datatype ChunkType = ChunkType(ancillary: u8, private: u8, reserved: u8, safeToCopy: u8)

  /** Bit position of the property bits. */
  const PropertyBit: nat := 5

  /** `is_property_bit_set`: bit 5 of the byte is one. */
  predicate IsPropertyBitSet(byte: u8) {
    BitUtil.IsSetAt(byte, PropertyBit)
  }

  predicate IsAsciiUppercase(byte: u8) {
    'A' as u8 <= byte <= 'Z' as u8
  }

  predicate IsAsciiLowercase(byte: u8) {
    'a' as u8 <= byte <= 'z' as u8
  }

  /** `is_valid_byte`: the byte is an ASCII letter. */
  predicate IsValidByte(byte: u8) {
    IsAsciiLowercase(byte) || IsAsciiUppercase(byte)
  }

  /** `bytes()`: the code in wire order. */
  function Bytes(t: ChunkType): (b: seq<u8>)
    ensures |b| == 4
  {
    [t.ancillary, t.private, t.reserved, t.safeToCopy]
  }

  /** Bit 5 clear: a critical chunk. */
  predicate IsCritical(t: ChunkType) {
    !IsPropertyBitSet(t.ancillary)
  }

  /** Bit 5 clear: a public chunk. */
  predicate IsPublic(t: ChunkType) {
    !IsPropertyBitSet(t.private)
  }

  /** Bit 5 clear: conforms to this version of the format. */
  predicate IsReservedBitValid(t: ChunkType) {
    !IsPropertyBitSet(t.reserved)
  }

  /** Bit 5 set: safe to copy. */
  predicate IsSafeToCopy(t: ChunkType) {
    IsPropertyBitSet(t.safeToCopy)
  }

  /** `is_valid`: reserved bit valid and every byte a letter. */
  predicate IsValid(t: ChunkType) {
    && IsReservedBitValid(t)
    && IsValidByte(t.ancillary)
    && IsValidByte(t.private)
    && IsValidByte(t.reserved)
    && IsValidByte(t.safeToCopy)
  }

  /** Every byte of the code is a letter: what construction guarantees. */
  predicate AllLetters(t: ChunkType) {
    forall i :: 0 <= i < 4 ==> IsValidByte(Bytes(t)[i])
  }

  /** The property bit of the type code is the library's bit `Five`. */
  lemma PropertyBitIsBitFive(byte: u8)
    ensures IsPropertyBitSet(byte) == BitUtil.GetBit(byte, BitUtil.Five)
  {
  }

  /** A valid byte in the range of the letters: lowercase exactly when bit 5 is set. */
  lemma PropertyBitIsLowercase(byte: u8)
    requires IsValidByte(byte)
    ensures IsPropertyBitSet(byte) <==> IsAsciiLowercase(byte)
    ensures !IsPropertyBitSet(byte) <==> IsAsciiUppercase(byte)
  {
    assert BitUtil.Pow2(PropertyBit) == 32;
  }

  /** For a code made of letters, the four properties are the cases of the four letters. */
  lemma PropertiesAreLetterCases(t: ChunkType)
    requires AllLetters(t)
    ensures IsCritical(t) <==> IsAsciiUppercase(t.ancillary)
    ensures IsPublic(t) <==> IsAsciiUppercase(t.private)
    ensures IsReservedBitValid(t) <==> IsAsciiUppercase(t.reserved)
    ensures IsSafeToCopy(t) <==> IsAsciiLowercase(t.safeToCopy)
  {
    assert IsValidByte(Bytes(t)[0]) && IsValidByte(Bytes(t)[1]);
    assert IsValidByte(Bytes(t)[2]) && IsValidByte(Bytes(t)[3]);
    PropertyBitIsLowercase(t.ancillary);
    PropertyBitIsLowercase(t.private);
    PropertyBitIsLowercase(t.reserved);
    PropertyBitIsLowercase(t.safeToCopy);
  }

  /** For a code made of letters, `is_valid` is just the reserved-bit test. */
  lemma IsValidOfLetters(t: ChunkType)
    requires AllLetters(t)
    ensures IsValid(t) <==> IsReservedBitValid(t)
  {
    assert IsValidByte(Bytes(t)[0]) && IsValidByte(Bytes(t)[1]);
    assert IsValidByte(Bytes(t)[2]) && IsValidByte(Bytes(t)[3]);
  }

  /** Equality of chunk types is equality of their bytes. */
  lemma EqualityIsBytewise(s: ChunkType, t: ChunkType)
    ensures s == t <==> Bytes(s) == Bytes(t)
  {
    if Bytes(s) == Bytes(t) {
      assert Bytes(s)[0] == Bytes(t)[0] && Bytes(s)[1] == Bytes(t)[1];
      assert Bytes(s)[2] == Bytes(t)[2] && Bytes(s)[3] == Bytes(t)[3];
    }
  }
}
