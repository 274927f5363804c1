/** Errors of chunk decoding (`ChunkError` of the png_spec library). */
module ChunkErrors {
  import opened Wire
  import opened Wrappers
  import opened ChunkTypeErrors

  /** The wrapped errors `source()` can hand out. */
  datatype ChunkErrorSource = IoSource(io: ReadError) | ChunkTypeSource(chunkType: ChunkTypeError)

  /**
   * The `From<io::Error>` and `From<ChunkTypeError>` conversions are the
   * constructors `IoError` and `ChuckType` (the variant's spelling is the
   * library's).
   */
  datatype ChunkError =
    | IoError(io: ReadError)
    | ChuckType(chunkType: ChunkTypeError)
    | InvalidLength(length: u32)
    | Length(expected: u32, actual: u32)
    | Crc(expected: u32, actual: u32)
  {
    /** `Error::source`: the wrapped I/O or chunk-type error, nothing for the others. */
    function Source(): (r: Option<ChunkErrorSource>)
      ensures r.Some? <==> IoError? || ChuckType?
      ensures IoError? ==> r == Some(IoSource(io))
      ensures ChuckType? ==> r == Some(ChunkTypeSource(chunkType))
    {
      match this
      case IoError(e) => Some(IoSource(e))
      case ChuckType(e) => Some(ChunkTypeSource(e))
      case _ => None
    }
  }
}
