/**
 * The application's chunk decoder (`TryFrom<&[u8]> for Chunk` of the
 * application tree): the same four reads as the library's, but with no
 * top-bit test on the length, and with a length comparison after reading.
 */
module ChunkU32Decode {
  import opened Wire
  import opened Wrappers
  import opened ChunkTypes
  import ChunkTypeImpls
  import opened ChunkErrors
  import opened Chunks
  import opened ChunkU32
  import ChunkDecode
  import BitUtil

  /** The decoder as a function of the whole input. */
  function Parse32(value: seq<u8>): (r: Result<Chunk, ChunkError>)
    ensures |value| < 8 ==> r == Err(IoError(UnexpectedEof))
    ensures r.Err? ==> !r.error.Length? && !r.error.InvalidLength?
    ensures r.Ok? ==> Size(r.value) <= |value| && FromBeBytes(value[..4]) as int == |r.value.data|
  {
    if |value| < 4 then Err(IoError(UnexpectedEof))
    else
      var length := FromBeBytes(value[..4]);
      if |value| < 8 then Err(IoError(UnexpectedEof))
      else
        match ChunkTypeImpls.TryFrom(value[4..8])
        case Err(e) => Err(ChuckType(e))
        case Ok(t) =>
          var n := length as nat;
          if |value| < 8 + n then Err(IoError(UnexpectedEof))
          else if |value| < 8 + n + 4 then Err(IoError(UnexpectedEof))
          else
            var data := value[8..8 + n];
            var crc := FromBeBytes(value[8 + n..8 + n + 4]);
            var dataLen := (|data| % WordBound) as u32;
            if dataLen != length then Err(Length(length, dataLen))
            else
              var chunk := Chunk(t, data);
              if Chunks.Crc(chunk) != crc then Err(ChunkError.Crc(Chunks.Crc(chunk), crc))
              else Ok(chunk)
  }

  /** `try_from`: four `read_exact` calls on one cursor, the length comparison, the CRC check. */
  method TryFrom(value: seq<u8>) returns (r: Result<Chunk, ChunkError>)
    ensures r == Parse32(value)
  {
    var pos := 0;
    var lengthBytes := ReadExact(value, pos, 4);
    if lengthBytes.Err? {
      return Err(IoError(lengthBytes.error));
    }
    pos := pos + 4;
    var length := FromBeBytes(lengthBytes.value);

    var typeBytes := ReadExact(value, pos, 4);
    if typeBytes.Err? {
      return Err(IoError(typeBytes.error));
    }
    pos := pos + 4;
    var chunkType := ChunkTypeImpls.TryFrom(typeBytes.value);
    if chunkType.Err? {
      return Err(ChuckType(chunkType.error));
    }

    var data := ReadExact(value, pos, length as nat);
    if data.Err? {
      return Err(IoError(data.error));
    }
    pos := pos + length as nat;

    var crcBytes := ReadExact(value, pos, 4);
    if crcBytes.Err? {
      return Err(IoError(crcBytes.error));
    }
    pos := pos + 4;
    var crc := FromBeBytes(crcBytes.value);

    var dataLen := DataLength32(Chunk(chunkType.value, data.value));
    if dataLen != length {
      return Err(Length(length, dataLen));
    }

    var chunk := Chunk(chunkType.value, data.value);
    var computed := ComputeCrc(chunk);
    if computed != crc {
      return Err(ChunkError.Crc(computed, crc));
    }
    r := Ok(chunk);
  }

  /** A successful decode read exactly the encoding of the chunk it returns, with a length field that states its data length. */
  lemma Parse32IsCanonical(value: seq<u8>)
    requires Parse32(value).Ok?
    ensures var c := Parse32(value).value;
            |c.data| < WordBound && value[..Size(c)] == AsBytes32(c)
  {
    var c := Parse32(value).value;
    var n := |c.data|;
    ToFromBeBytes(value[..4]);
    ToFromBeBytes(value[8 + n..Size(c)]);
    assert FromBeBytes(value[..4]) == DataLength32(c);
    Slices4(value, 4, 8, 8 + n, Size(c));
  }

  /** Whatever the length word, a type code that is not four letters is refused with the type error. */
  lemma BadTypeRefused32(value: seq<u8>)
    requires |value| >= 8 && ChunkTypeImpls.TryFrom(value[4..8]).Err?
    ensures Parse32(value) == Err(ChuckType(ChunkTypeImpls.TryFrom(value[4..8]).error))
  {
  }

  /** Whatever the length word, input that ends inside the data or the CRC is an I/O error. */
  lemma TruncatedRefused32(value: seq<u8>)
    requires |value| >= 8 && ChunkTypeImpls.TryFrom(value[4..8]).Ok?
    requires |value| < 12 + FromBeBytes(value[..4]) as int
    ensures Parse32(value) == Err(IoError(UnexpectedEof))
  {
  }

  /**
   * Whatever the length word, once all four fields are read the chunk is
   * the type code and the next `length` bytes, and it is returned exactly
   * when the CRC field holds its CRC; otherwise the error carries the
   * recomputed CRC as `expected` and the field as `actual`.
   */
  lemma CrcChecked32(value: seq<u8>)
    requires |value| >= 8 && ChunkTypeImpls.TryFrom(value[4..8]).Ok?
    requires |value| >= 12 + FromBeBytes(value[..4]) as int
    ensures var n := FromBeBytes(value[..4]) as int;
            var c := Chunk(ChunkTypeImpls.TryFrom(value[4..8]).value, value[8..8 + n]);
            var wire := FromBeBytes(value[8 + n..12 + n]);
            Parse32(value) == if Chunks.Crc(c) == wire then Ok(c) else Err(ChunkError.Crc(Chunks.Crc(c), wire))
  {
  }

  /** Where the library refuses nothing on account of the length (top bit clear), the two decoders agree. */
  lemma DecodersAgreeBelowTopBit(value: seq<u8>)
    requires |value| < 4 || value[0] < 0x80
    ensures Parse32(value) == ChunkDecode.Parse(value)
  {
    if |value| >= 4 {
      BitUtil.MostSigBit(value[0]);
    }
  }

  /** Every chunk with fewer than 2^32 data bytes survives encoding and decoding, trailing bytes ignored. */
  lemma RoundTrip32(c: Chunk, rest: seq<u8>)
    requires AllLetters(c.chunkType) && |c.data| < WordBound
    ensures Parse32(AsBytes32(c) + rest) == Ok(c)
  {
    var n := |c.data|;
    FromToBeBytes(n as u32);
    FromToBeBytes(Chunks.Crc(c));
    Fields(ToBeBytes(n as u32), Bytes(c.chunkType), c.data, ToBeBytes(Chunks.Crc(c)), rest);
    ChunkTypeImpls.TryFromBytes(c.chunkType);
  }

  /**
   * Data of 2^31 bytes or more: this decoder takes the chunk back, the
   * library's refuses it with `InvalidLength`.
   */
  lemma DecodersDifferAboveTopBit(c: Chunk)
    requires AllLetters(c.chunkType) && ChunkDecode.LengthBound <= |c.data| < WordBound
    ensures Parse32(AsBytes32(c)) == Ok(c)
    ensures ChunkDecode.Parse(AsBytes32(c)).Err? && ChunkDecode.Parse(AsBytes32(c)).error.InvalidLength?
  {
    var b := AsBytes32(c);
    RoundTrip32(c, []);
    AppendEmpty(b);
    FromToBeBytes(|c.data| as u32);
    TopBitOfBeBytes(b[..4]);
  }
}
