/**
 * The application's own chunk draft: the same type code and data, but
 * `data_length()` is the data length cast with `as u32` (taken modulo
 * 2^32) and `size()` is computed in `u32` arithmetic.
 */
module ChunkU32 {
  import opened Wire
  import opened ChunkTypes
  import opened Chunks

  /** `data_length()`: `data.len() as u32`, which keeps the low 32 bits. */
  function DataLength32(c: Chunk): (n: u32)
    ensures n as int == |c.data| % WordBound
    ensures |c.data| < WordBound ==> n as int == |c.data|
  {
    (|c.data| % WordBound) as u32
  }

  /** `size()`: `4 + 4 + data_length() + 4` in `u32`, which panics on overflow. */
  function Size32(c: Chunk): (n: u32)
    requires DataLength32(c) as int + 12 < WordBound
    ensures n as int == DataLength32(c) as int + 12
  {
    (4 + 4 + DataLength32(c) as int + 4) as u32
  }

  /** `as_bytes()`: the (truncated) length field, type code, data, CRC. */
  function AsBytes32(c: Chunk): (b: seq<u8>)
    ensures |b| == 12 + |c.data|
    ensures b[..4] == ToBeBytes(DataLength32(c))
    ensures b[4..] == Bytes(c.chunkType) + c.data + ToBeBytes(Crc(c))
  {
    Layout(ToBeBytes(DataLength32(c)), Bytes(c.chunkType), c.data, ToBeBytes(Crc(c)));
    ToBeBytes(DataLength32(c)) + Bytes(c.chunkType) + c.data + ToBeBytes(Crc(c))
  }

  /** `size()` is the length of the encoding whenever it is defined without overflow. */
  lemma SizeIsEncodedLength(c: Chunk)
    requires |c.data| < WordBound - 12
    ensures |AsBytes32(c)| == Size32(c) as int
  {
  }

  /** Below 2^32 data bytes the two drafts encode a chunk identically. */
  lemma DraftsEncodeAlike(c: Chunk)
    requires |c.data| < WordBound
    ensures AsBytes32(c) == AsBytes(c)
  {
  }

  /** From 2^32 data bytes on, the length field no longer states the data length. */
  lemma LengthFieldWraps(c: Chunk)
    requires |c.data| >= WordBound
    ensures FromBeBytes(AsBytes32(c)[..4]) as int != |c.data|
  {
    FromToBeBytes(DataLength32(c));
  }
}
