/**
 * Decoding a container (`TryFrom<&[u8]> for Png`): the signature is
 * checked, then chunks are decoded back to back until no byte is left.
 */
module PngDecode {
  import opened Wire
  import opened Wrappers
  import opened ChunkTypes
  import opened ChunkErrors
  import opened Chunks
  import ChunkDecode
  import opened PngErrors
  import opened Pngs

  /** The chunks decoded from `v`, which must be used up exactly. */
  function DecodeChunks(v: seq<u8>): (r: Result<seq<Chunk>, ChunkError>)
    decreases |v|
  {
    if v == [] then Ok([])
    else
      match ChunkDecode.Parse(v)
      case Err(e) => Err(e)
      case Ok(c) =>
        match DecodeChunks(v[Size(c)..])
        case Err(e) => Err(e)
        case Ok(rest) => Ok([c] + rest)
  }

  /** The container decoder as a function of the whole input. */
  function Decode(value: seq<u8>): (r: Result<seq<Chunk>, PngError>)
    ensures |value| < 8 ==> r == Err(Io(UnexpectedEof))
    ensures |value| >= 8 && value[..8] != StandardHeader ==> r == Err(Header)
    ensures value == StandardHeader ==> r == Ok([])
    ensures |value| >= 8 && value[..8] == StandardHeader && r.Err? ==> r.error.Chunk?
  {
    if |value| < 8 then Err(Io(UnexpectedEof))
    else if value[..8] != StandardHeader then Err(Header)
    else
      match DecodeChunks(value[8..])
      case Err(e) => Err(PngError.Chunk(e))
      case Ok(chunks) => Ok(chunks)
  }

  /** `prefix` in front of a decoding result; an error stays the error. */
  function Prepend(prefix: seq<Chunk>, r: Result<seq<Chunk>, ChunkError>): Result<seq<Chunk>, ChunkError> {
    match r
    case Err(e) => Err(e)
    case Ok(rest) => Ok(prefix + rest)
  }

  lemma PrependNil(r: Result<seq<Chunk>, ChunkError>)
    ensures Prepend([], r) == r
  {
    if r.Ok? {
      assert [] + r.value == r.value;
    }
  }

  lemma PrependPrepend(a: seq<Chunk>, b: seq<Chunk>, r: Result<seq<Chunk>, ChunkError>)
    ensures Prepend(a, Prepend(b, r)) == Prepend(a + b, r)
  {
    if r.Ok? {
      assert a + (b + r.value) == (a + b) + r.value;
    }
  }

  /** One turn of the loop: a decoded chunk, then the decoding of what follows it. */
  lemma DecodeChunksStep(v: seq<u8>)
    requires v != [] && ChunkDecode.Parse(v).Ok?
    ensures var c := ChunkDecode.Parse(v).value;
            Size(c) <= |v| && DecodeChunks(v) == Prepend([c], DecodeChunks(v[Size(c)..]))
  {
  }

  /**
   * The header check and the loop that decodes one chunk from the rest of
   * the input, pushes it and skips its `size()` bytes.
   */
  method DecodeChunkList(value: seq<u8>) returns (r: Result<seq<Chunk>, PngError>)
    ensures r == Decode(value)
  {
    var header := ReadExact(value, 0, 8);
    if header.Err? {
      return Err(Io(header.error));
    }
    if header.value != StandardHeader {
      return Err(Header);
    }
    var chunks: seq<Chunk> := [];
    var v := value[8..];
    PrependNil(DecodeChunks(v));
    while true
      invariant DecodeChunks(value[8..]) == Prepend(chunks, DecodeChunks(v))
      decreases |v|
    {
      if v == [] {
        break;
      }
      var c := ChunkDecode.TryFrom(v);
      if c.Err? {
        return Err(PngError.Chunk(c.error));
      }
      var size := Size(c.value);
      DecodeChunksStep(v);
      PrependPrepend(chunks, [c.value], DecodeChunks(v[size..]));
      chunks := chunks + [c.value];
      v := v[size..];
    }
    assert chunks + [] == chunks;
    r := Ok(chunks);
  }

  /** `try_from`: the decoded chunks, wrapped by `from_chunks`. */
  method TryFrom(value: seq<u8>) returns (r: Result<Png, PngError>)
    ensures Decode(value).Err? ==> r == Err(Decode(value).error)
    ensures Decode(value).Ok? ==> r.Ok? && fresh(r.value) && r.value.chunks == Decode(value).value
  {
    var chunks := DecodeChunkList(value);
    if chunks.Err? {
      return Err(chunks.error);
    }
    var png := new Png.FromChunks(chunks.value);
    r := Ok(png);
  }

  /** Chunks that can be decoded again: letter type codes and data below 2^31 bytes. */
  predicate Decodable(chunks: seq<Chunk>) {
    forall i :: 0 <= i < |chunks| ==> AllLetters(chunks[i].chunkType) && |chunks[i].data| < ChunkDecode.LengthBound
  }

  /** A chunk's encoding in front of `after` decodes to the chunk, then to what `after` decodes to. */
  lemma DecodeAfterChunk(c: Chunk, after: seq<u8>)
    requires AllLetters(c.chunkType) && |c.data| < ChunkDecode.LengthBound
    ensures DecodeChunks(Chunks.AsBytes(c) + after) == Prepend([c], DecodeChunks(after))
  {
    var v := Chunks.AsBytes(c) + after;
    ChunkDecode.RoundTrip(c, after);
    assert v[Size(c)..] == after;
    DecodeChunksStep(v);
  }

  lemma DecodableTail(chunks: seq<Chunk>)
    requires Decodable(chunks) && chunks != []
    ensures Decodable(chunks[1..])
    ensures AllLetters(chunks[0].chunkType) && |chunks[0].data| < ChunkDecode.LengthBound
  {
    var tail := chunks[1..];
    forall i | 0 <= i < |tail| ensures AllLetters(tail[i].chunkType) && |tail[i].data| < ChunkDecode.LengthBound {
      assert tail[i] == chunks[i + 1];
    }
  }

  /** Decoding the encodings of `chunks` followed by `w` gives `chunks`, then whatever `w` decodes to. */
  lemma {:induction false} DecodeEncodeAll(chunks: seq<Chunk>, w: seq<u8>)
    requires Decodable(chunks)
    ensures Encodable(chunks) && DecodeChunks(EncodeAll(chunks) + w) == Prepend(chunks, DecodeChunks(w))
    decreases |chunks|
  {
    if chunks == [] {
      AppendEmpty(w);
      PrependNil(DecodeChunks(w));
    } else {
      DecodableTail(chunks);
      DecodeEncodeAll(chunks[1..], w);
      HeadTail(chunks);
      DecodeEncodeCons(chunks[0], chunks[1..], w);
    }
  }

  /** The inductive step of `DecodeEncodeAll`: one more chunk in front. */
  lemma DecodeEncodeCons(c: Chunk, tail: seq<Chunk>, w: seq<u8>)
    requires AllLetters(c.chunkType) && |c.data| < ChunkDecode.LengthBound
    requires Encodable(tail) && DecodeChunks(EncodeAll(tail) + w) == Prepend(tail, DecodeChunks(w))
    ensures Encodable([c] + tail) && DecodeChunks(EncodeAll([c] + tail) + w) == Prepend([c] + tail, DecodeChunks(w))
  {
    EncodeAllCons(c, tail);
    var after := EncodeAll(tail) + w;
    AppendAssoc(Chunks.AsBytes(c), EncodeAll(tail), w);
    DecodeAfterChunk(c, after);
    PrependPrepend([c], tail, DecodeChunks(w));
  }

  /** The encoding of `[c] + tail` is `c`'s followed by `tail`'s. */
  lemma EncodeAllCons(c: Chunk, tail: seq<Chunk>)
    requires |c.data| < WordBound && Encodable(tail)
    ensures Encodable([c] + tail) && EncodeAll([c] + tail) == Chunks.AsBytes(c) + EncodeAll(tail)
  {
    var cs := [c] + tail;
    assert cs[0] == c && cs[1..] == tail;
    assert Encodable(cs) by {
      forall i | 0 <= i < |cs| ensures |cs[i].data| < WordBound {
        if i > 0 { assert cs[i] == tail[i - 1]; }
      }
    }
  }

  /** Round trip: decoding `as_bytes()` of a container recovers its chunks in order. */
  lemma RoundTrip(png: Png)
    requires Decodable(png.chunks)
    ensures Encodable(png.chunks) && Decode(png.AsBytes()) == Ok(png.chunks)
  {
    DecodeEncodeAll(png.chunks, []);
    assert EncodeAll(png.chunks) + [] == EncodeAll(png.chunks);
    var b := png.AsBytes();
    assert b[..8] == StandardHeader && b[8..] == EncodeAll(png.chunks);
    assert png.chunks + [] == png.chunks;
  }

  /** A successful chunk decode used the input up exactly, in on-wire order: the input is the chunks' encoding. */
  lemma {:induction false} DecodeChunksIsCanonical(v: seq<u8>)
    requires DecodeChunks(v).Ok?
    ensures Encodable(DecodeChunks(v).value) && EncodeAll(DecodeChunks(v).value) == v
    decreases |v|
  {
    if v != [] {
      var c := ChunkDecode.Parse(v).value;
      var rest := v[Size(c)..];
      var tail := DecodeChunks(rest).value;
      assert DecodeChunks(v).value == [c] + tail by {
        DecodeChunksStep(v);
      }
      assert Encodable([c] + tail) && EncodeAll([c] + tail) == v by {
        DecodeChunksIsCanonical(rest);
        ChunkDecode.ParseIsCanonical(v);
        EncodeCons(v, c, tail);
      }
    }
  }

  lemma EncodeCons(v: seq<u8>, c: Chunk, tail: seq<Chunk>)
    requires Size(c) <= |v| && |c.data| < WordBound && v[..Size(c)] == Chunks.AsBytes(c)
    requires Encodable(tail) && EncodeAll(tail) == v[Size(c)..]
    ensures Encodable([c] + tail) && EncodeAll([c] + tail) == v
  {
    EncodeAllCons(c, tail);
    TakeDrop(v, Size(c));
  }

  /** Whatever decodes successfully is exactly signature plus encodings: nothing is skipped or reordered. */
  lemma DecodeIsCanonical(value: seq<u8>)
    requires Decode(value).Ok?
    ensures Encodable(Decode(value).value) && value == StandardHeader + EncodeAll(Decode(value).value)
  {
    DecodeChunksIsCanonical(value[8..]);
    TakeDrop(value, 8);
  }

  /**
   * After the signature and any run of good chunks, a chunk that fails to
   * decode fails the whole decode with that chunk's own error.
   */
  lemma ChunkErrorReported(chunks: seq<Chunk>, tail: seq<u8>)
    requires Decodable(chunks)
    requires tail != [] && ChunkDecode.Parse(tail).Err?
    ensures Encodable(chunks)
    ensures Decode(StandardHeader + EncodeAll(chunks) + tail) == Err(PngError.Chunk(ChunkDecode.Parse(tail).error))
  {
    DecodeEncodeAll(chunks, tail);
    AppendAssoc(StandardHeader, EncodeAll(chunks), tail);
    SplitAppend(StandardHeader, EncodeAll(chunks) + tail);
  }

  /** A partial chunk at the end (fewer than 12 bytes) fails the whole decode with a chunk error. */
  lemma TrailingPartialChunkFails(chunks: seq<Chunk>, tail: seq<u8>)
    requires Decodable(chunks)
    requires 0 < |tail| < 12
    ensures Encodable(chunks)
    ensures Decode(StandardHeader + EncodeAll(chunks) + tail).Err?
    ensures Decode(StandardHeader + EncodeAll(chunks) + tail).error.Chunk?
  {
    DecodeEncodeAll(chunks, tail);
    AppendAssoc(StandardHeader, EncodeAll(chunks), tail);
    SplitAppend(StandardHeader, EncodeAll(chunks) + tail);
    assert DecodeChunks(tail).Err? by {
      assert ChunkDecode.Parse(tail).Err?;
    }
  }
}
