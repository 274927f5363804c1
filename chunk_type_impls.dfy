/** Construction and text conversion of chunk types (`TryFrom<[u8; 4]>`, `FromStr`, `Display`). */
module ChunkTypeImpls {
  import opened Wire
  import opened Wrappers
  import opened ChunkTypes
  import opened ChunkTypeErrors
  import Utf8

  /** The error position for byte `k` of a type code. */
  function ByteAt(k: nat, b: u8): (e: Byte)
    requires k < 4
    ensures e.Value() == b
  {
    if k == 0 then Ancillary(b) else if k == 1 then Private(b) else if k == 2 then Reserved(b) else SafeToCopy(b)
  }

  /**
   * `try_from([ancillary, private, reserved, safe_to_copy])`: checks the
   * bytes in order and reports the first one that is not a letter. The
   * reserved bit is not checked.
   */
  function TryFrom(value: seq<u8>): (r: Result<ChunkType, ChunkTypeError>)
    requires |value| == 4
    ensures r.Ok? <==> forall i :: 0 <= i < 4 ==> IsValidByte(value[i])
    ensures r.Ok? ==> Bytes(r.value) == value && AllLetters(r.value)
    ensures r.Err? ==> exists k :: 0 <= k < 4 && !IsValidByte(value[k])
                                && (forall j :: 0 <= j < k ==> IsValidByte(value[j]))
                                && r.error == InvalidByte(ByteAt(k, value[k]))
  {
    var ancillary, private, reserved, safeToCopy := value[0], value[1], value[2], value[3];
    if !IsValidByte(ancillary) then Err(InvalidByte(Ancillary(ancillary)))
    else if !IsValidByte(private) then Err(InvalidByte(Private(private)))
    else if !IsValidByte(reserved) then Err(InvalidByte(Reserved(reserved)))
    else if !IsValidByte(safeToCopy) then Err(InvalidByte(SafeToCopy(safeToCopy)))
    else
      var t := ChunkType(ancillary, private, reserved, safeToCopy);
      assert Bytes(t) == value;
      Ok(t)
  }

  /** `from_str`: the string's bytes must be exactly four, then as `try_from`. */
  function FromStr(s: seq<u8>): (r: Result<ChunkType, ChunkTypeError>)
    ensures |s| != 4 ==> r == Err(InvalidLength(TryFromSliceError))
    ensures r.Ok? <==> |s| == 4 && forall i :: 0 <= i < 4 ==> IsValidByte(s[i])
    ensures r.Ok? ==> Bytes(r.value) == s
    ensures |s| == 4 ==> r == TryFrom(s)
  {
    if |s| != 4 then Err(InvalidLength(TryFromSliceError)) else TryFrom(s)
  }

  /** `Display`: the four bytes as text; `from_utf8(..).unwrap()` panics on bytes that are not UTF-8. */
  function ToText(t: ChunkType): (s: seq<u8>)
    requires Utf8.Valid(Bytes(t))
    ensures |s| == 4 && Utf8.Valid(s)
  {
    Bytes(t)
  }

  /** Every constructed type code can be displayed: its bytes are ASCII, hence UTF-8. */
  lemma LettersAreText(t: ChunkType)
    requires AllLetters(t)
    ensures Utf8.Valid(Bytes(t))
  {
    forall i | 0 <= i < 4 ensures Bytes(t)[i] <= 0x7F {
      assert IsValidByte(Bytes(t)[i]);
    }
    Utf8.AsciiIsValid(Bytes(t));
  }

  /** Construction gives back the bytes it was given. */
  lemma TryFromBytes(t: ChunkType)
    requires AllLetters(t)
    ensures TryFrom(Bytes(t)) == Ok(t)
  {
    EqualityIsBytewise(TryFrom(Bytes(t)).value, t);
  }

  /** `from_str(t.to_string()) == Ok(t)` for every constructed type code. */
  lemma DisplayRoundTrip(t: ChunkType)
    requires AllLetters(t)
    ensures Utf8.Valid(Bytes(t)) && FromStr(ToText(t)) == Ok(t)
  {
    LettersAreText(t);
    TryFromBytes(t);
  }

  /** A lowercase third letter (reserved bit set) is accepted by construction, then flagged. */
  lemma LowercaseReservedAccepted(value: seq<u8>)
    requires |value| == 4 && forall i :: 0 <= i < 4 ==> IsValidByte(value[i])
    requires IsAsciiLowercase(value[2])
    ensures TryFrom(value).Ok? && !IsReservedBitValid(TryFrom(value).value)
    ensures !IsValid(TryFrom(value).value)
  {
    assert TryFrom(value).value.reserved == value[2];
    PropertyBitIsLowercase(value[2]);
  }

  /** "RuSt": critical, private, reserved bit valid, safe to copy. */
  lemma RuStProperties()
    ensures var r := FromStr(['R' as u8, 'u' as u8, 'S' as u8, 't' as u8]);
            && r.Ok?
            && IsCritical(r.value) && !IsPublic(r.value) && IsReservedBitValid(r.value) && IsSafeToCopy(r.value)
  {
  }

  /** "Rust" can be built although `is_valid` is false for it. */
  lemma RustIsBuiltButNotValid()
    ensures var r := FromStr(['R' as u8, 'u' as u8, 's' as u8, 't' as u8]);
            r.Ok? && !IsValid(r.value)
  {
  }

  /** "Ru1t": the third position fails, carrying '1'. */
  lemma Ru1tFailsAtReserved()
    ensures FromStr(['R' as u8, 'u' as u8, '1' as u8, 't' as u8]) == Err(InvalidByte(Reserved('1' as u8)))
  {
  }
}
