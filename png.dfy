/**
 * The container (`Png` of the png_spec library): the fixed signature of
 * section 3.1 of RFC 2083 followed by an ordered list of chunks.
 */
module Pngs {
  import opened Wire
  import opened Wrappers
  import opened ChunkTypes
  import ChunkTypeImpls
  import opened Chunks
  import opened PngErrors

  /** `STANDARD_HEADER`: the eight signature bytes (decimal 137 80 78 71 13 10 26 10). */
  const StandardHeader: seq<u8> := [0x89, 0x50, 0x4E, 0x47, 0x0D, 0x0A, 0x1A, 0x0A]

  /** `iter().position(|c| c.chunk_type() == t)`: the first index holding a chunk of type `t`. */
  function Position(chunks: seq<Chunk>, t: ChunkType): (r: Option<nat>)
    ensures r.None? <==> forall i :: 0 <= i < |chunks| ==> chunks[i].chunkType != t
    ensures r.Some? ==> && r.value < |chunks|
                        && chunks[r.value].chunkType == t
                        && forall j :: 0 <= j < r.value ==> chunks[j].chunkType != t
    decreases |chunks|
  {
    if chunks == [] then None
    else if chunks[0].chunkType == t then Some(0)
    else match Position(chunks[1..], t)
      case None => None
      case Some(i) => Some(i + 1)
  }

  /** Every chunk's data fits the `u32` length field, so `as_bytes` does not panic. */
  predicate Encodable(chunks: seq<Chunk>) {
    forall i :: 0 <= i < |chunks| ==> |chunks[i].data| < WordBound
  }

  /** `flat_map(Chunk::as_bytes)`: the chunks' encodings, back to back in order. */
  function EncodeAll(chunks: seq<Chunk>): (b: seq<u8>)
    requires Encodable(chunks)
    decreases |chunks|
  {
    if chunks == [] then [] else AsBytes(chunks[0]) + EncodeAll(chunks[1..])
  }

  /**
   * The outcome of `remove` on `before`, by `swap_remove`: with no chunk
   * of type `t`, an error and no change; otherwise the first such chunk is
   * returned, the last chunk takes its slot and every other slot keeps
   * its chunk.
   */
  ghost predicate SwapRemoved(before: seq<Chunk>, after: seq<Chunk>, t: ChunkType, r: Result<Chunk, PngError>) {
    match Position(before, t)
    case None => r == Err(ChunckTypeNotFound) && after == before
    case Some(i) =>
      && r == Ok(before[i])
      && |after| == |before| - 1
      && (i < |after| ==> after[i] == before[|before| - 1])
      && forall j :: 0 <= j < |after| && j != i ==> after[j] == before[j]
  }

  class Png {
    var chunks: seq<Chunk>

    /** `from_chunks`: keeps the sequence as given. */
    constructor FromChunks(chunks: seq<Chunk>)
      ensures this.chunks == chunks
    {
      this.chunks := chunks;
    }

    /** `append_chunk`: `push` at the end. */
    method AppendChunk(chunk: Chunk)
      modifies this
      ensures chunks == old(chunks) + [chunk]
    {
      chunks := chunks + [chunk];
    }

    /** `remove`: `position`, then `swap_remove`. */
    method Remove(chunkType: ChunkType) returns (r: Result<Chunk, PngError>)
      modifies this
      ensures SwapRemoved(old(chunks), chunks, chunkType, r)
    {
      var index := Position(chunks, chunkType);
      if index.None? {
        return Err(ChunckTypeNotFound);
      }
      var i := index.value;
      var removed := chunks[i];
      var last := |chunks| - 1;
      chunks := chunks[i := chunks[last]][..last];
      r := Ok(removed);
    }

    /** `remove_chunk`: `remove`. */
    method RemoveChunk(chunkType: ChunkType) returns (r: Result<Chunk, PngError>)
      modifies this
      ensures SwapRemoved(old(chunks), chunks, chunkType, r)
    {
      r := Remove(chunkType);
    }

    /** `remove_str`: parse the type code, then `remove`; a parse error leaves the chunks alone. */
    method RemoveStr(chunkType: seq<u8>) returns (r: Result<Chunk, PngError>)
      modifies this
      ensures ChunkTypeImpls.FromStr(chunkType).Err? ==>
                r == Err(PngError.ChunkType(ChunkTypeImpls.FromStr(chunkType).error)) && chunks == old(chunks)
      ensures ChunkTypeImpls.FromStr(chunkType).Ok? ==>
                SwapRemoved(old(chunks), chunks, ChunkTypeImpls.FromStr(chunkType).value, r)
    {
      var parsed := ChunkTypeImpls.FromStr(chunkType);
      if parsed.Err? {
        return Err(PngError.ChunkType(parsed.error));
      }
      r := Remove(parsed.value);
    }

    /** `header()`: the signature, whatever the chunks. */
    function Header(): (h: seq<u8>)
      ensures |h| == 8 && h[0] == 0x89 && h[1..4] == ['P' as u8, 'N' as u8, 'G' as u8]
      ensures h[4..] == [0x0D, 0x0A, 0x1A, 0x0A]
    {
      StandardHeader
    }

    /** `chunks()`: the field itself, under another name because a field and a function cannot share one. */
    function ChunkList(): seq<Chunk>
      reads this
    {
      chunks
    }

    /** `chunk_by_type`: the first chunk of the parsed type; none if there is none or the text is not a type code. */
    function ChunkByType(chunkType: seq<u8>): (r: Option<Chunk>)
      reads this
      ensures ChunkTypeImpls.FromStr(chunkType).Err? ==> r.None?
      ensures ChunkTypeImpls.FromStr(chunkType).Ok? ==>
                var t := ChunkTypeImpls.FromStr(chunkType).value;
                && (r.None? <==> forall i :: 0 <= i < |chunks| ==> chunks[i].chunkType != t)
                && (r.Some? ==> exists i :: && 0 <= i < |chunks|
                                            && chunks[i] == r.value
                                            && r.value.chunkType == t
                                            && forall j :: 0 <= j < i ==> chunks[j].chunkType != t)
    {
      match ChunkTypeImpls.FromStr(chunkType)
      case Err(_) => None
      case Ok(t) =>
        match Position(chunks, t)
        case None => None
        case Some(i) => Some(chunks[i])
    }

    /** `as_bytes()`: the signature, then every chunk's encoding in order. */
    function AsBytes(): (b: seq<u8>)
      reads this
      requires Encodable(chunks)
      ensures |b| >= 8 && b[..8] == Header() && b[8..] == EncodeAll(chunks)
    {
      StandardHeader + EncodeAll(chunks)
    }
  }

  /** Encoding distributes over concatenation of chunk lists. */
  lemma {:induction false} EncodeAllAppend(a: seq<Chunk>, b: seq<Chunk>)
    requires Encodable(a) && Encodable(b)
    ensures Encodable(a + b) && EncodeAll(a + b) == EncodeAll(a) + EncodeAll(b)
    decreases |a|
  {
    assert Encodable(a + b) by {
      forall i | 0 <= i < |a + b| ensures |(a + b)[i].data| < WordBound {
        if i < |a| { assert (a + b)[i] == a[i]; } else { assert (a + b)[i] == b[i - |a|]; }
      }
    }
    if a == [] {
      AppendEmpty(b);
    } else {
      TailOfAppend(a, b);
      EncodeAllAppend(a[1..], b);
      AppendAssoc(AsBytes(a[0]), EncodeAll(a[1..]), EncodeAll(b));
    }
  }

  /** Appending a chunk appends its encoding to the container's. */
  lemma AppendEncodes(before: seq<Chunk>, chunk: Chunk)
    requires Encodable(before) && |chunk.data| < WordBound
    ensures Encodable(before + [chunk])
    ensures EncodeAll(before + [chunk]) == EncodeAll(before) + Chunks.AsBytes(chunk)
  {
    EncodeAllAppend(before, [chunk]);
    assert [chunk][1..] == [];
    AppendEmpty(Chunks.AsBytes(chunk));
  }

  /** Swap-removal keeps every chunk but the removed one: the chunks are a permutation of the old ones less it. */
  lemma SwapRemovedIsPermutation(before: seq<Chunk>, after: seq<Chunk>, t: ChunkType, c: Chunk)
    requires SwapRemoved(before, after, t, Ok(c))
    ensures multiset(after) + multiset{c} == multiset(before)
    ensures c.chunkType == t
  {
    var i := Position(before, t).value;
    var last := |before| - 1;
    if i == last {
      assert after == before[..last];
      assert before == before[..last] + [before[last]];
    } else {
      assert after == before[i := before[last]][..last];
      calc {
        multiset(before);
        { assert before == before[..last] + [before[last]]; }
        multiset(before[..last]) + multiset{before[last]};
        { assert before[..last] == after[i := before[i]]; }
        multiset(after[i := before[i]]) + multiset{before[last]};
        multiset(after) - multiset{after[i]} + multiset{before[i]} + multiset{before[last]};
      }
    }
  }

  /** Swap-removal does not keep the order: removing the first of three chunks moves the third into its slot. */
  lemma SwapRemoveReorders(a: Chunk, b: Chunk, c: Chunk, after: seq<Chunk>, r: Result<Chunk, PngError>)
    requires a.chunkType != b.chunkType && a.chunkType != c.chunkType
    requires SwapRemoved([a, b, c], after, a.chunkType, r)
    ensures r == Ok(a) && after == [c, b]
  {
    assert Position([a, b, c], a.chunkType) == Some(0);
  }

  /** A chunk appended to an empty container and then removed by its type code comes back unchanged and leaves nothing behind. */
  method AppendThenRemove(data: seq<u8>) returns (removed: Result<Chunk, PngError>, remaining: seq<Chunk>)
    ensures removed == Ok(Chunk.Chunk(ChunkType.ChunkType('t' as u8, 'e' as u8, 'S' as u8, 't' as u8), data))
    ensures remaining == []
  {
    var png := new Png.FromChunks([]);
    var chunk := Chunk.Chunk(ChunkType.ChunkType('t' as u8, 'e' as u8, 'S' as u8, 't' as u8), data);
    png.AppendChunk(chunk);
    removed := png.RemoveStr(['t' as u8, 'e' as u8, 'S' as u8, 't' as u8]);
    remaining := png.chunks;
  }
}
