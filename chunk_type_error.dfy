/**
 * Errors of chunk-type construction. The application tree calls the
 * position type `Byte` and the png_spec library calls it `PropertyByte`;
 * the two enums have the same variants, payloads and texts, so one
 * definition serves both.
 */
module ChunkTypeErrors {
  import opened Wire
  import opened Wrappers

  /** The position of the type-code byte that failed, carrying that byte. */
  datatype Byte = Ancillary(b: u8) | Private(b: u8) | Reserved(b: u8) | SafeToCopy(b: u8) {

    /** `value()`: the carried byte, whatever the position. */
    function Value(): (v: u8)
      ensures this == Ancillary(v) || this == Private(v) || this == Reserved(v) || this == SafeToCopy(v)
    {
      match this
      case Ancillary(v) => v
      case Private(v) => v
      case Reserved(v) => v
      case SafeToCopy(v) => v
    }

    /** `Display`: the name of the position. */
    function Name(): (s: string)
      ensures Ancillary? ==> s == "ancillary"
      ensures Private? ==> s == "private"
      ensures Reserved? ==> s == "reserved"
      ensures SafeToCopy? ==> s == "safe to copy"
    {
      match this
      case Ancillary(_) => "ancillary"
      case Private(_) => "private"
      case Reserved(_) => "reserved"
      case SafeToCopy(_) => "safe to copy"
    }
  }

  /** `TryFromSliceError`: a slice that was not exactly four bytes long. */
  datatype TryFromSliceError = TryFromSliceError

  datatype ChunkTypeError = InvalidByte(byte: Byte) | InvalidLength(cause: TryFromSliceError) {

    /** `Error::source`: only the length error wraps another error. */
    function Source(): (r: Option<TryFromSliceError>)
      ensures r.Some? <==> InvalidLength?
    {
      match this
      case InvalidByte(_) => None
      case InvalidLength(e) => Some(e)
    }
  }

  /** The four position names are pairwise distinct, so the name identifies the position. */
  lemma NameIdentifiesPosition(x: Byte, y: Byte)
    ensures x.Name() == y.Name() <==>
              || (x.Ancillary? && y.Ancillary?)
              || (x.Private? && y.Private?)
              || (x.Reserved? && y.Reserved?)
              || (x.SafeToCopy? && y.SafeToCopy?)
  {
  }
}
