/**
 * A chunk of the png_spec library (section 3.2 of RFC 2083): a type code
 * and its data. Lengths are `usize`; the length field on the wire is a
 * `u32`, so encoding needs the data to fit in one.
 */
module Chunks {
  import opened Wire
  import opened Wrappers
  import opened ChunkTypes
  import Checksum
  import Utf8

  /** `Chunk::new(chunk_type, data)` is the constructor; `chunk_type()` and `data()` its fields. */
  datatype Chunk = Chunk(chunkType: ChunkType, data: seq<u8>)

  /** Exclusive bound of a `u32` length field. */
  const WordBound: nat := 0x1_0000_0000

  /** `data_length()`: the number of data bytes. */
  function DataLength(c: Chunk): nat {
    |c.data|
  }

  /** `size()`: length field, type code, data and CRC. */
  function Size(c: Chunk): nat {
    4 + 4 + DataLength(c) + 4
  }

  /** The bytes the CRC is computed over: the type code followed by the data, not the length. */
  function CrcInput(c: Chunk): (s: seq<u8>)
    ensures |s| == 4 + |c.data| && s[..4] == Bytes(c.chunkType) && s[4..] == c.data
  {
    Bytes(c.chunkType) + c.data
  }

  /** `crc()`: recomputed on demand, never stored. */
  function Crc(c: Chunk): u32 {
    Checksum.Crc32(CrcInput(c))
  }

  /** `crc()` as the library computes it: a buffer filled by two `extend` calls, then checksummed. */
  method ComputeCrc(c: Chunk) returns (crc: u32)
    ensures crc == Crc(c)
  {
    var bytes: seq<u8> := [];
    bytes := bytes + Bytes(c.chunkType);
    bytes := bytes + c.data;
    assert bytes == CrcInput(c);
    crc := Checksum.Crc32(bytes);
  }

  /** `data_as_string()`: the data, if it is UTF-8. */
  function DataAsString(c: Chunk): (r: Result<seq<u8>, Utf8.Utf8Error>)
    ensures r.Ok? <==> Utf8.Valid(c.data)
    ensures r.Ok? ==> r.value == c.data
  {
    if Utf8.Valid(c.data) then Ok(c.data) else Err(Utf8.Utf8Error)
  }

  /** `data_as_string_lossy()`: despite its name, the same strict conversion. */
  function DataAsStringLossy(c: Chunk): (r: Result<seq<u8>, Utf8.Utf8Error>)
    ensures r.Ok? <==> Utf8.Valid(c.data)
    ensures r.Ok? ==> r.value == c.data
    ensures r == DataAsString(c)
  {
    if Utf8.Valid(c.data) then Ok(c.data) else Err(Utf8.Utf8Error)
  }

  /**
   * `as_bytes()`: length (big-endian), type code, data, CRC (big-endian).
   * The length conversion `try_into().expect(..)` panics unless the length
   * fits in a `u32`.
   */
  function AsBytes(c: Chunk): (b: seq<u8>)
    requires |c.data| < WordBound
    ensures |b| == Size(c)
    ensures b[..4] == ToBeBytes(|c.data| as u32)
    ensures b[4..8] == Bytes(c.chunkType)
    ensures b[8..8 + |c.data|] == c.data
    ensures b[8 + |c.data|..] == ToBeBytes(Crc(c))
  {
    Layout(ToBeBytes(DataLength(c) as u32), Bytes(c.chunkType), c.data, ToBeBytes(Crc(c)));
    ToBeBytes(DataLength(c) as u32) + Bytes(c.chunkType) + c.data + ToBeBytes(Crc(c))
  }

  /** The CRC field covers exactly the bytes between the length field and itself. */
  lemma CrcCoversTypeAndData(c: Chunk)
    requires |c.data| < WordBound
    ensures Crc(c) == Checksum.Crc32(AsBytes(c)[4..Size(c) - 4])
  {
    var b := AsBytes(c);
    assert b[4..Size(c) - 4] == b[4..8] + b[8..8 + |c.data|];
  }
}
