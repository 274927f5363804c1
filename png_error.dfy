/** Errors of the container (`PngError`). */
module PngErrors {
  import opened Wire
  import opened Wrappers
  import ChunkTypeErrors
  import ChunkErrors

  /** The wrapped errors `source()` can hand out. */
  datatype PngErrorSource =
    | ChunkSource(chunk: ChunkErrors.ChunkError)
    | ChunkTypeSource(chunkType: ChunkTypeErrors.ChunkTypeError)
    | IoSource(io: ReadError)

  /** What `Display` writes: its own line, or the wrapped error's text. */
  datatype Message = Line(text: string) | Delegated(inner: PngErrorSource)

  /**
   * The `From<io::Error>`, `From<ChunkError>` and `From<ChunkTypeError>`
   * conversions are the constructors `Io`, `Chunk` and `ChunkType`.
   */
  datatype PngError =
    | Chunk(chunk: ChunkErrors.ChunkError)
    | ChunkType(chunkType: ChunkTypeErrors.ChunkTypeError)
    | Io(io: ReadError)
    | Header
    | ChunckTypeNotFound
  {
    /** `Error::source`: the wrapped error for the three wrapping variants, nothing for the other two. */
    function Source(): (r: Option<PngErrorSource>)
      ensures r.None? <==> Header? || ChunckTypeNotFound?
      ensures Chunk? ==> r == Some(ChunkSource(chunk))
      ensures ChunkType? ==> r == Some(ChunkTypeSource(chunkType))
      ensures Io? ==> r == Some(IoSource(io))
    {
      match this
      case Chunk(e) => Some(ChunkSource(e))
      case ChunkType(e) => Some(ChunkTypeSource(e))
      case Io(e) => Some(IoSource(e))
      case Header => None
      case ChunckTypeNotFound => None
    }

    /** `Display`: `todo!()` for `ChunckTypeNotFound`, which panics. */
    function Display(): (m: Message)
      requires !ChunckTypeNotFound?
      ensures m.Delegated? <==> Source().Some?
      ensures m.Delegated? ==> m.inner == Source().value
    {
      match this
      case Chunk(e) => Delegated(ChunkSource(e))
      case ChunkType(e) => Delegated(ChunkTypeSource(e))
      case Io(e) => Delegated(IoSource(e))
      case Header => Line("header is not png standard\n")
    }
  }
}
