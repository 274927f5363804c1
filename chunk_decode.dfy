/**
 * Decoding one chunk in the png_spec library (`TryFrom<&[u8]> for Chunk`):
 * a reader walks the input once, taking the length, the type code, the
 * data and the CRC in that order, then the CRC is checked.
 */
module ChunkDecode {
  import opened Wire
  import opened Wrappers
  import opened ChunkTypes
  import ChunkTypeImpls
  import opened ChunkErrors
  import opened Chunks
  import BitUtil

  /** Exclusive bound of a length field whose top bit is clear. */
  const LengthBound: nat := 0x8000_0000

  /** The decoder as a function of the whole input: what `try_from` returns. */
  function Parse(value: seq<u8>): (r: Result<Chunk, ChunkError>)
    ensures |value| < 4 ==> r == Err(IoError(UnexpectedEof))
    ensures |value| >= 4 && value[0] >= 0x80 ==> r == Err(InvalidLength(FromBeBytes(value[..4])))
    ensures 4 <= |value| < 8 && value[0] < 0x80 ==> r == Err(IoError(UnexpectedEof))
    ensures r.Ok? ==> && Size(r.value) <= |value|
                      && |r.value.data| < LengthBound
                      && FromBeBytes(value[..4]) as int == |r.value.data|
                      && value[4..8] == Bytes(r.value.chunkType)
                      && value[8..8 + |r.value.data|] == r.value.data
                      && FromBeBytes(value[8 + |r.value.data|..Size(r.value)]) == Chunks.Crc(r.value)
  {
    if |value| < 4 then Err(IoError(UnexpectedEof))
    else
      var length := FromBeBytes(value[..4]);
      BitUtil.MostSigBit(value[0]);
      if BitUtil.GetBit(value[0], BitUtil.MostSig) then Err(InvalidLength(length))
      else if |value| < 8 then Err(IoError(UnexpectedEof))
      else
        match ChunkTypeImpls.TryFrom(value[4..8])
        case Err(e) => Err(ChuckType(e))
        case Ok(t) =>
          var n := length as nat;
          if |value| < 8 + n then Err(IoError(UnexpectedEof))
          else if |value| < 8 + n + 4 then Err(IoError(UnexpectedEof))
          else
            var chunk := Chunk(t, value[8..8 + n]);
            var crc := FromBeBytes(value[8 + n..8 + n + 4]);
            if Chunks.Crc(chunk) != crc then Err(ChunkError.Crc(Chunks.Crc(chunk), crc))
            else Ok(chunk)
  }

  /** `read_length`: four big-endian bytes; a set top bit is refused before anything else is read. */
  method ReadLength(value: seq<u8>, pos: nat) returns (r: Result<nat, ChunkError>, next: nat)
    ensures pos + 4 > |value| ==> r == Err(IoError(UnexpectedEof))
    ensures pos + 4 <= |value| ==>
              && next == pos + 4
              && var length := FromBeBytes(value[pos..pos + 4]);
                 r == if value[pos] >= 0x80 then Err(InvalidLength(length)) else Ok(length as nat)
  {
    next := pos;
    var bytes := ReadExact(value, pos, 4);
    if bytes.Err? {
      return Err(IoError(bytes.error)), next;
    }
    next := pos + 4;
    var lengthBytes := bytes.value;
    var length := FromBeBytes(lengthBytes);
    BitUtil.MostSigBit(lengthBytes[0]);
    if BitUtil.GetBit(lengthBytes[0], BitUtil.MostSig) {
      return Err(InvalidLength(length)), next;
    }
    r := Ok(length as nat);
  }

  /** `read_chunk_type`: four bytes, converted with `ChunkType::try_from`. */
  method ReadChunkType(value: seq<u8>, pos: nat) returns (r: Result<ChunkType, ChunkError>, next: nat)
    ensures pos + 4 > |value| ==> r == Err(IoError(UnexpectedEof))
    ensures pos + 4 <= |value| ==>
              && next == pos + 4
              && match ChunkTypeImpls.TryFrom(value[pos..pos + 4])
                 case Ok(t) => r == Ok(t)
                 case Err(e) => r == Err(ChuckType(e))
  {
    next := pos;
    var bytes := ReadExact(value, pos, 4);
    if bytes.Err? {
      return Err(IoError(bytes.error)), next;
    }
    next := pos + 4;
    var chunkType := ChunkTypeImpls.TryFrom(bytes.value);
    if chunkType.Err? {
      return Err(ChuckType(chunkType.error)), next;
    }
    r := Ok(chunkType.value);
  }

  /** `read_data`: exactly `length` bytes into a zeroed buffer. */
  method ReadData(value: seq<u8>, pos: nat, length: nat) returns (r: Result<seq<u8>, ChunkError>, next: nat)
    ensures pos + length > |value| ==> r == Err(IoError(UnexpectedEof))
    ensures pos + length <= |value| ==> next == pos + length && r == Ok(value[pos..pos + length])
  {
    next := pos;
    var bytes := ReadExact(value, pos, length);
    if bytes.Err? {
      return Err(IoError(bytes.error)), next;
    }
    next := pos + length;
    r := Ok(bytes.value);
  }

  /** `read_crc`: four big-endian bytes. */
  method ReadCrc(value: seq<u8>, pos: nat) returns (r: Result<u32, ChunkError>, next: nat)
    ensures pos + 4 > |value| ==> r == Err(IoError(UnexpectedEof))
    ensures pos + 4 <= |value| ==> next == pos + 4 && r == Ok(FromBeBytes(value[pos..pos + 4]))
  {
    next := pos;
    var bytes := ReadExact(value, pos, 4);
    if bytes.Err? {
      return Err(IoError(bytes.error)), next;
    }
    next := pos + 4;
    r := Ok(FromBeBytes(bytes.value));
  }

  /** `try_from`: the four reads in order, then the CRC check against the recomputed value. */
  method TryFrom(value: seq<u8>) returns (r: Result<Chunk, ChunkError>)
    ensures r == Parse(value)
  {
    var pos := 0;
    var length, chunkType, data, crc;
    length, pos := ReadLength(value, pos);
    if length.Err? {
      return Err(length.error);
    }
    assert value[0..4] == value[..4];
    BitUtil.MostSigBit(value[0]);
    chunkType, pos := ReadChunkType(value, pos);
    if chunkType.Err? {
      return Err(chunkType.error);
    }
    data, pos := ReadData(value, pos, length.value);
    if data.Err? {
      return Err(data.error);
    }
    crc, pos := ReadCrc(value, pos);
    if crc.Err? {
      return Err(crc.error);
    }
    assert |data.value| == length.value;
    var chunk := Chunk(chunkType.value, data.value);
    var computed := ComputeCrc(chunk);
    if computed != crc.value {
      return Err(ChunkError.Crc(computed, crc.value));
    }
    r := Ok(chunk);
  }

  /** Bytes after the first `size()` are never read. */
  lemma ParseIgnoresTrailing(value: seq<u8>, rest: seq<u8>)
    requires Parse(value).Ok?
    ensures Parse(value + rest) == Parse(value)
  {
    var c := Parse(value).value;
    var n := |c.data|;
    SliceOfAppend(value, rest, 0, 4);
    SliceOfAppend(value, rest, 4, 8);
    SliceOfAppend(value, rest, 8, 8 + n);
    SliceOfAppend(value, rest, 8 + n, 8 + n + 4);
  }

  /** A successful decode read exactly the encoding of the chunk it returns. */
  lemma ParseIsCanonical(value: seq<u8>)
    requires Parse(value).Ok?
    ensures var c := Parse(value).value;
            |c.data| < LengthBound && value[..Size(c)] == AsBytes(c)
  {
    var c := Parse(value).value;
    var n := |c.data|;
    ToFromBeBytes(value[..4]);
    ToFromBeBytes(value[8 + n..Size(c)]);
    assert FromBeBytes(value[..4]) == n as u32;
    Slices4(value, 4, 8, 8 + n, Size(c));
  }

  /**
   * The fields of a chunk laid out with some word `wire` in the CRC slot:
   * the chunk comes back exactly when `wire` is its CRC, whatever follows.
   */
  lemma ParseLaidOut(c: Chunk, wire: u32, rest: seq<u8>)
    requires AllLetters(c.chunkType) && |c.data| < LengthBound
    ensures Parse(ToBeBytes(|c.data| as u32) + Bytes(c.chunkType) + c.data + ToBeBytes(wire) + rest)
            == if wire == Chunks.Crc(c) then Ok(c) else Err(ChunkError.Crc(Chunks.Crc(c), wire))
  {
    FromToBeBytes(|c.data| as u32);
    FromToBeBytes(wire);
    Fields(ToBeBytes(|c.data| as u32), Bytes(c.chunkType), c.data, ToBeBytes(wire), rest);
    BitUtil.MostSigBit(ToBeBytes(|c.data| as u32)[0]);
    ChunkTypeImpls.TryFromBytes(c.chunkType);
  }

  /** Decoding the encoding of a chunk whose data has fewer than 2^31 bytes gives the chunk back, whatever follows it. */
  lemma RoundTrip(c: Chunk, rest: seq<u8>)
    requires AllLetters(c.chunkType) && |c.data| < LengthBound
    ensures Parse(AsBytes(c) + rest) == Ok(c)
  {
    ParseLaidOut(c, Chunks.Crc(c), rest);
  }

  /** The length field is checked first: a set top bit is refused however short the rest is. */
  lemma TopBitRefused(value: seq<u8>)
    requires |value| >= 4 && value[0] >= 0x80
    ensures Parse(value) == Err(InvalidLength(FromBeBytes(value[..4])))
    ensures FromBeBytes(value[..4]) as int >= LengthBound
  {
    TopBitOfBeBytes(value[..4]);
  }

  /** A type code that is not made of letters is refused with the type error, once the length is read. */
  lemma BadTypeRefused(value: seq<u8>)
    requires |value| >= 8 && value[0] < 0x80
    requires ChunkTypeImpls.TryFrom(value[4..8]).Err?
    ensures Parse(value) == Err(ChuckType(ChunkTypeImpls.TryFrom(value[4..8]).error))
  {
    BitUtil.MostSigBit(value[0]);
  }

  /** Input that ends inside the declared data or CRC is an I/O error. */
  lemma TruncatedRefused(value: seq<u8>)
    requires |value| >= 8 && value[0] < 0x80
    requires ChunkTypeImpls.TryFrom(value[4..8]).Ok?
    requires |value| < 12 + FromBeBytes(value[..4]) as int
    ensures Parse(value) == Err(IoError(UnexpectedEof))
  {
    BitUtil.MostSigBit(value[0]);
  }

  /**
   * An encoding whose CRC field was replaced by another word is refused,
   * with the recomputed CRC as `expected` and the wire value as `actual`.
   */
  lemma WrongCrcRefused(c: Chunk, wire: u32, rest: seq<u8>)
    requires AllLetters(c.chunkType) && |c.data| < LengthBound
    requires wire != Chunks.Crc(c)
    ensures Parse(AsBytes(c)[..Size(c) - 4] + ToBeBytes(wire) + rest) == Err(ChunkError.Crc(Chunks.Crc(c), wire))
  {
    var head := ToBeBytes(|c.data| as u32) + Bytes(c.chunkType) + c.data;
    SplitAppend(head, ToBeBytes(Chunks.Crc(c)));
    ParseLaidOut(c, wire, rest);
  }

}
