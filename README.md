# PNGme chunk codec, modelled in Dafny

PNGme hides messages in PNG files. Its core is a three-layer codec:

- **Chunk type.** A 4-byte chunk type code made of ASCII letters. Bit 5 of each byte carries one property: ancillary, private, reserved or safe-to-copy.
- **Chunk.** A length, the type code, the data and a CRC-32, with its decoder and encoder. There are two drafts of it, one in the application tree (`src/`) and one in the `png_spec` library (`lib/png_spec/`).
- **Container.** The `Png` container: the 8-byte PNG signature followed by an ordered list of chunks, with append, remove-by-type, lookup and serialisation.

Two small helpers from the `image_ascii_art` crate are modelled beside it:

- **`merge`.** Folds dotted labels into a two-level map.
- **`scale`.** Maps a brightness to a character of a 65-character ramp.

The Dafny modules follow the source files:

| module | file | models |
|---|---|---|
| `Wrappers` | wrappers.dfy | `Option` and `Result` |
| `Wire` | wire.dfy | `u8`/`u32`, `u32::{to,from}_be_bytes`, `read_exact` on an in-memory buffer, and a few sequence facts |
| `Checksum` | checksum.dfy | CRC-32 of RFC 2083 section 3.4 (the `crc` crate's `CRC_32_ISO_HDLC`), bitwise |
| `Utf8` | utf8.dfy | what `std::str::from_utf8` accepts (the well-formed byte sequences of Unicode Table 3-7) |
| `BitUtil` | bit_util.dfy | `Bit`, `MOST_SIG`, `get_bit` of the library |
| `ChunkTypeErrors` | chunk_type_error.dfy | `Byte` (`PropertyByte` in the library) and `ChunkTypeError` |
| `ChunkTypes` | chunk_type.dfy | `ChunkType` and its property predicates |
| `ChunkTypeImpls` | chunk_type_impls.dfy | `TryFrom<[u8; 4]>`, `FromStr` and `Display` for `ChunkType` |
| `ChunkErrors` | chunk_error.dfy | the library's `ChunkError` |
| `Chunks` | chunk.dfy | the library's `Chunk` (`usize` lengths) |
| `ChunkDecode` | chunk_decode.dfy | the library's `TryFrom<&[u8]> for Chunk` and its four readers |
| `ChunkU32` | chunk_u32.dfy | the application's `Chunk` (`as u32` lengths) |
| `ChunkU32Decode` | chunk_u32_decode.dfy | the application's `TryFrom<&[u8]> for Chunk` |
| `PngErrors` | png_error.dfy | `PngError` |
| `Pngs` | png.dfy | `Png` as a class whose `chunks` field its methods update |
| `PngDecode` | png_decode.dfy | `TryFrom<&[u8]> for Png` |
| `Merge` | merge.dfy | `merge`, `MyValue`, `MergeError` |
| `AsciiArt` | ascii_art.dfy | `ASCII_BRIGHTNESS` and `scale` |

Each decoder has two parts:

- **A specification function.** `ChunkDecode.Parse`, `ChunkU32Decode.Parse32` and `PngDecode.Decode` give the whole outcome as a function of the input bytes.
- **An imperative method.** The method walks a cursor through the input the way `BufReader::read_exact` does; the container decoder also pushes into a list. Each method is proved to return exactly what its function gives.

The properties are proved about the functions:

- round trips;
- canonicity: whatever decodes is exactly an encoding;
- the order in which the checks happen;
- where the two drafts agree and where they differ.

`Png.remove` uses `Vec::swap_remove`: the last chunk takes the removed slot, so the order of the remaining chunks is not kept (`Pngs.SwapRemoveReorders`).

## Model

| member | source | states |
|---|---|---|
| Wire.ToBeBytes | lib/png_spec/src/chunk.rs:72-77 | `to_be_bytes` gives four bytes |
| Wire.FromBeBytes | lib/png_spec/src/chunk/try_from.rs:36 | the top byte of the word read is the first of the four bytes |
| Wire.FromToBeBytes | lib/png_spec/src/chunk/try_from.rs:61-65 | reading back the four bytes of a word gives the word |
| Wire.ToFromBeBytes | lib/png_spec/src/chunk/try_from.rs:61-65 | writing a word read from four bytes gives those bytes back, so no two byte strings read the same |
| Wire.TopBitOfBeBytes | lib/png_spec/src/chunk/try_from.rs:36-42 | the top bit of the first byte is set exactly when the word is at least 2^31 |
| Wire.ReadExact | lib/png_spec/src/chunk/try_from.rs:55-59 | `read_exact` succeeds exactly when enough bytes remain, and then yields the next `n` bytes |
| Utf8.AsciiIsValid | src/chunk_type/trait_impls.rs:54-58 | bytes below 0x80 are valid UTF-8 |
| BitUtil.Index | lib/png_spec/src/lib.rs:21-33 | `u8::from(Bit)` numbers the bits `Zero` to `Seven` as 0 to 7 |
| BitUtil.IndexInjective | lib/png_spec/src/lib.rs:21-33 | distinct bits have distinct indices |
| BitUtil.MostSigBit | lib/png_spec/src/lib.rs:19-40 | `get_bit(b, MOST_SIG)` holds exactly when `b >= 0x80` |
| BitUtil.BitsDetermineByte | lib/png_spec/src/lib.rs:36-40 | two bytes that agree on `get_bit` at all eight positions are equal |
| BitUtil.GetBit | lib/png_spec/src/lib.rs:36-40 | no contract of its own: the binary digit at the bit's index, pinned by `BitUtil.MostSigBit`, `BitUtil.BitsDetermineByte` and `ChunkTypes.PropertyBitIsBitFive` |
| ChunkTypeErrors.Byte.Value | src/chunk_type/error.rs:11-20 | `value()` is the byte the variant carries |
| ChunkTypeErrors.Byte.Name | src/chunk_type/error.rs:22-31 | the display name of each position: "ancillary", "private", "reserved", "safe to copy"; the library's `PropertyByte` is the same |
| ChunkTypeErrors.NameIdentifiesPosition | src/chunk_type/error.rs:22-31 | two bytes have the same name exactly when they are the same variant |
| ChunkTypeErrors.ChunkTypeError.Source | src/chunk_type/error.rs:41-48 | `source()` is present exactly for `InvalidLength` |
| ChunkTypes.Bytes | src/chunk_type.rs:99-106 | `bytes()` is four bytes; that no two codes share them is `ChunkTypes.EqualityIsBytewise` |
| ChunkTypes.IsPropertyBitSet | src/chunk_type.rs:88-91 | no contract of its own: `ChunkTypes.PropertyBitIsBitFive` and `ChunkTypes.PropertyBitIsLowercase` state what it reads |
| ChunkTypes.IsValidByte | src/chunk_type.rs:93-97 | no contract of its own: `ChunkTypeImpls.TryFrom` accepts exactly the codes whose four bytes it holds for |
| ChunkTypes.IsCritical | src/chunk_type.rs:119-124 | no contract of its own: `ChunkTypes.PropertiesAreLetterCases` (uppercase first byte) |
| ChunkTypes.IsPublic | src/chunk_type.rs:126-131 | no contract of its own: `ChunkTypes.PropertiesAreLetterCases` (uppercase second byte) |
| ChunkTypes.IsReservedBitValid | src/chunk_type.rs:133-138 | no contract of its own: `ChunkTypes.PropertiesAreLetterCases` (uppercase third byte) |
| ChunkTypes.IsSafeToCopy | src/chunk_type.rs:140-145 | no contract of its own: `ChunkTypes.PropertiesAreLetterCases` (lowercase fourth byte) |
| ChunkTypes.IsValid | src/chunk_type.rs:108-117 | no contract of its own: `ChunkTypes.IsValidOfLetters` reduces it to the reserved-bit test |
| ChunkTypes.PropertyBitIsBitFive | src/chunk_type.rs:85-91 | `is_property_bit_set` reads bit 5, the library's `get_bit(b, Five)` |
| ChunkTypes.PropertyBitIsLowercase | src/chunk_type.rs:88-97 | for a letter, bit 5 is set exactly when the letter is lowercase |
| ChunkTypes.PropertiesAreLetterCases | src/chunk_type.rs:119-146 | for letters: critical iff byte 0 is uppercase, public iff byte 1 is, reserved bit valid iff byte 2 is, safe to copy iff byte 3 is lowercase |
| ChunkTypes.IsValidOfLetters | src/chunk_type.rs:108-117 | for letters, `is_valid` is exactly `is_reserved_bit_valid` |
| ChunkTypes.EqualityIsBytewise | src/chunk_type.rs:14-15 | the derived equality is equality of `bytes()` |
| ChunkTypeImpls.ByteAt | src/chunk_type/trait_impls.rs:16-31 | the error variant for position `k` carries the byte |
| ChunkTypeImpls.TryFrom | src/chunk_type/trait_impls.rs:11-39 | `Ok` exactly when all four bytes are letters, with `bytes()` equal to the input; otherwise `InvalidByte` naming the first failing position and its byte |
| ChunkTypeImpls.FromStr | src/chunk_type/trait_impls.rs:42-52 | a string of length other than 4 gives `InvalidLength`; a string of length 4 gives exactly `try_from` of its bytes, so `Ok` exactly for four letters, with those bytes, and otherwise `InvalidByte` at the first bad position |
| ChunkTypeImpls.ToText | src/chunk_type/trait_impls.rs:54-58 | `Display` writes four bytes of valid UTF-8 |
| ChunkTypeImpls.LettersAreText | src/chunk_type/trait_impls.rs:54-58 | the `from_utf8(..).unwrap()` in `Display` cannot fail for a letter code |
| ChunkTypeImpls.TryFromBytes | src/chunk_type/trait_impls.rs:14-39 | converting the bytes of a letter code gives the code back |
| ChunkTypeImpls.DisplayRoundTrip | src/chunk_type/trait_impls.rs:42-58 | parsing what `Display` writes gives the code back |
| ChunkTypeImpls.LowercaseReservedAccepted | src/chunk_type/trait_impls.rs:14-39 | construction does not check the reserved bit: a lowercase third letter is accepted, and `is_valid` is then false |
| ChunkTypeImpls.RuStProperties | src/chunk_type.rs:119-146 | "RuSt" is critical, private, reserved-valid and safe to copy |
| ChunkTypeImpls.RustIsBuiltButNotValid | src/chunk_type.rs:108-117 | "Rust" parses but is not valid |
| ChunkTypeImpls.Ru1tFailsAtReserved | src/chunk_type/trait_impls.rs:24-27 | "Ru1t" fails at the reserved position, carrying '1' |
| ChunkErrors.ChunkError.Source | lib/png_spec/src/chunk/error.rs:48-56 | `source()` is the wrapped error for `IoError` and `ChuckType`, and absent otherwise |
| Chunks.CrcInput | lib/png_spec/src/chunk.rs:52-56 | the CRC input is the type code followed by the data |
| Chunks.DataLength | lib/png_spec/src/chunk.rs:30-32 | no contract of its own: the data's byte count, unbounded (its `u32` counterpart is `ChunkU32.DataLength32`) |
| Chunks.Size | lib/png_spec/src/chunk.rs:34-39 | no contract of its own: `Chunks.AsBytes` ensures it is the length of the encoding |
| Chunks.Crc | lib/png_spec/src/chunk.rs:52-60 | no contract of its own: `Chunks.ComputeCrc` and `Chunks.CrcCoversTypeAndData` state what it covers |
| Checksum.Crc32 | lib/png_spec/src/chunk.rs:58-59 | no contract of its own: the reference definition of CRC-32/ISO-HDLC, with no property proved about it |
| Utf8.Valid | lib/png_spec/src/chunk.rs:62-64 | no contract of its own: the reference definition of what `from_utf8` accepts, used by `Chunks.DataAsString` and `Utf8.AsciiIsValid` |
| Chunks.ComputeCrc | lib/png_spec/src/chunk.rs:52-60 | building the buffer with two `extend`s gives the CRC of type code and data |
| Chunks.DataAsString | lib/png_spec/src/chunk.rs:62-64 | `Ok` exactly when the data is valid UTF-8, and then it is the data |
| Chunks.DataAsStringLossy | lib/png_spec/src/chunk.rs:66-68 | despite its name, the same strict conversion as `data_as_string` |
| Chunks.AsBytes | lib/png_spec/src/chunk.rs:70-83 | `size()` bytes: big-endian length, type code, data, big-endian CRC; defined only when the length fits a `u32` |
| Chunks.CrcCoversTypeAndData | lib/png_spec/src/chunk.rs:49-60 | the CRC field covers exactly the bytes between the length field and itself |
| ChunkDecode.Parse | lib/png_spec/src/chunk/try_from.rs:8-65 | fewer than 4 bytes, or fewer than 8 with the top bit clear, give `IoError`; a set top bit gives `InvalidLength` before anything else is read; success consumes at most the input, with the length below 2^31 and every field read back |
| ChunkDecode.ReadLength | lib/png_spec/src/chunk/try_from.rs:33-47 | four bytes big-endian; a set top bit is refused with the word read |
| ChunkDecode.ReadChunkType | lib/png_spec/src/chunk/try_from.rs:49-53 | four bytes through `ChunkType::try_from`, its error wrapped as `ChuckType` |
| ChunkDecode.ReadData | lib/png_spec/src/chunk/try_from.rs:55-59 | exactly `length` bytes, or `IoError` |
| ChunkDecode.ReadCrc | lib/png_spec/src/chunk/try_from.rs:61-65 | four bytes big-endian |
| ChunkDecode.TryFrom | lib/png_spec/src/chunk/try_from.rs:8-30 | the four reads in order and the CRC check return exactly `Parse` |
| ChunkDecode.ParseIgnoresTrailing | lib/png_spec/src/chunk/try_from.rs:8-30 | bytes after the chunk do not change the outcome |
| ChunkDecode.ParseIsCanonical | lib/png_spec/src/chunk/try_from.rs:8-30 | a decoded chunk's bytes are exactly its `as_bytes()` |
| ChunkDecode.ParseLaidOut | lib/png_spec/src/chunk/try_from.rs:17-29 | with any word in the CRC slot, the chunk comes back exactly when the word is its CRC, and `Crc { expected, actual }` otherwise |
| ChunkDecode.RoundTrip | lib/png_spec/src/chunk/try_from.rs:8-30 | decoding `as_bytes()` of a letter-coded chunk with fewer than 2^31 data bytes gives it back |
| ChunkDecode.TopBitRefused | lib/png_spec/src/chunk/try_from.rs:36-42 | a set top bit is refused with the length word, which is at least 2^31 |
| ChunkDecode.BadTypeRefused | lib/png_spec/src/chunk/try_from.rs:49-53 | a non-letter type code is refused with the type error |
| ChunkDecode.TruncatedRefused | lib/png_spec/src/chunk/try_from.rs:55-65 | input ending inside the data or the CRC is an I/O error |
| ChunkDecode.WrongCrcRefused | lib/png_spec/src/chunk/try_from.rs:21-27 | a replaced CRC field is refused, with the recomputed CRC as `expected` and the wire value as `actual` |
| ChunkU32.DataLength32 | src/chunk.rs:29-31 | `len() as u32` keeps the length modulo 2^32 |
| ChunkU32.Size32 | src/chunk.rs:33-38 | `size()` is the data length plus 12, when that does not overflow |
| ChunkU32.AsBytes32 | src/chunk.rs:72-80 | truncated length field, type code, data, CRC |
| ChunkU32.SizeIsEncodedLength | src/chunk.rs:33-38 | `size()` is the length of `as_bytes()` |
| ChunkU32.DraftsEncodeAlike | src/chunk.rs:72-80 | below 2^32 data bytes both drafts encode alike |
| ChunkU32.LengthFieldWraps | src/chunk.rs:29-31 | from 2^32 data bytes on, the length field misstates the length |
| ChunkU32Decode.Parse32 | src/chunk/try_from.rs:8-45 | fewer than 8 bytes give `IoError`; the `Length` and `InvalidLength` errors never occur; success consumes at most the input and the length field states the data length |
| ChunkU32Decode.TryFrom | src/chunk/try_from.rs:8-45 | the four `read_exact` calls, the length comparison and the CRC check return exactly `Parse32` |
| ChunkU32Decode.Parse32IsCanonical | src/chunk/try_from.rs:8-45 | a decoded chunk's bytes are exactly its `as_bytes()` |
| ChunkU32Decode.BadTypeRefused32 | src/chunk/try_from.rs:15-17 | for any length word, a non-letter type code is refused with the type error |
| ChunkU32Decode.TruncatedRefused32 | src/chunk/try_from.rs:19-24 | for any length word, input ending inside the data or the CRC is an I/O error |
| ChunkU32Decode.CrcChecked32 | src/chunk/try_from.rs:19-44 | for any length word, once all fields are read the chunk is returned exactly when the CRC field holds its CRC, and `Crc { expected, actual }` is the recomputed CRC and the field otherwise |
| ChunkU32Decode.DecodersAgreeBelowTopBit | src/chunk/try_from.rs:11-13 | when the top bit is clear, both decoders give the same result |
| ChunkU32Decode.RoundTrip32 | src/chunk/try_from.rs:8-45 | every letter-coded chunk below 2^32 data bytes round-trips |
| ChunkU32Decode.DecodersDifferAboveTopBit | src/chunk/try_from.rs:27-34 | from 2^31 data bytes, this decoder accepts what the library refuses with `InvalidLength` |
| PngErrors.PngError.Source | src/png/error.rs:31-41 | `source()` is the wrapped error for `Chunk`, `ChunkType` and `Io`, and absent otherwise |
| PngErrors.PngError.Display | src/png/error.rs:43-53 | a variant delegates its message exactly when it has a source, and then to that source; `ChunckTypeNotFound` is excluded because its arm is `todo!()` |
| Pngs.Position | lib/png_spec/src/png.rs:31-35 | none exactly when no chunk has the type; otherwise an index holding it with none before it |
| Pngs.Png.FromChunks | lib/png_spec/src/png.rs:22-24 | keeps the given chunks |
| Pngs.Png.AppendChunk | lib/png_spec/src/png.rs:26-28 | the chunk is added at the end |
| Pngs.Png.Remove | lib/png_spec/src/png.rs:30-38 | not found: `ChunckTypeNotFound`, no change; found: the first match returned, the last chunk moved into its slot, the list one shorter |
| Pngs.Png.RemoveChunk | lib/png_spec/src/png.rs:40-42 | same as `remove` |
| Pngs.Png.RemoveStr | lib/png_spec/src/png.rs:44-47 | a bad type string gives `ChunkType(e)` and no change; otherwise `remove` |
| Pngs.Png.Header | lib/png_spec/src/png.rs:17-51 | `header()` is the 8-byte signature 0x89 'P' 'N' 'G' CR LF 0x1A LF |
| Pngs.Png.ChunkByType | lib/png_spec/src/png.rs:57-63 | none for a bad type string; otherwise the first chunk of that type, none when there is none |
| Pngs.Png.AsBytes | lib/png_spec/src/png.rs:65-70 | the signature, then every chunk's encoding in order |
| Pngs.EncodeAll | lib/png_spec/src/png.rs:65-70 | no contract of its own: `Pngs.EncodeAllAppend` and `PngDecode.DecodeEncodeAll` state its meaning |
| Pngs.EncodeAllAppend | lib/png_spec/src/png.rs:65-70 | the encoding of a concatenation is the concatenation of the encodings |
| Pngs.AppendEncodes | lib/png_spec/src/png.rs:26-28 | appending a chunk appends its encoding |
| Pngs.SwapRemovedIsPermutation | lib/png_spec/src/png.rs:30-38 | after removal, the chunks plus the removed one are the old chunks as a multiset, and the removed one has the requested type |
| Pngs.SwapRemoveReorders | lib/png_spec/src/png.rs:37 | removing the first of three chunks gives [third, second]: the order is not kept |
| Pngs.AppendThenRemove | lib/png_spec/src/png.rs:26-47 | a chunk appended to an empty container and removed by "teSt" comes back unchanged and leaves no chunks |
| PngDecode.Decode | lib/png_spec/src/png/trait_impls.rs:22-54 | fewer than 8 bytes: `Io`; wrong signature: `Header`; the signature alone: no chunks; any other failure after a good signature is a `Chunk` error |
| PngDecode.DecodeChunks | lib/png_spec/src/png/trait_impls.rs:43-51 | no contract of its own: the reference recursion for the loop; `PngDecode.DecodeChunkList`, `PngDecode.DecodeEncodeAll` and `PngDecode.DecodeChunksIsCanonical` state its meaning |
| PngDecode.DecodeChunksStep | lib/png_spec/src/png/trait_impls.rs:43-51 | one turn of the loop: a chunk, then what the rest decodes to |
| PngDecode.DecodeChunkList | lib/png_spec/src/png/trait_impls.rs:22-53 | the header check and the push loop return exactly `Decode` |
| PngDecode.TryFrom | lib/png_spec/src/png/trait_impls.rs:19-55 | an error of `Decode` is returned as is; otherwise a new `Png` holding the decoded chunks |
| PngDecode.DecodeEncodeAll | lib/png_spec/src/png/trait_impls.rs:43-51 | decoding the chunks' encodings followed by more bytes gives the chunks, then what the rest decodes to |
| PngDecode.RoundTrip | lib/png_spec/src/png/trait_impls.rs:22-54 | decoding `as_bytes()` of a container gives its chunks in order |
| PngDecode.DecodeChunksIsCanonical | lib/png_spec/src/png/trait_impls.rs:43-51 | a decoded chunk list re-encodes to exactly the input |
| PngDecode.DecodeIsCanonical | lib/png_spec/src/png/trait_impls.rs:22-53 | whatever decodes is the signature plus the chunks' encodings |
| PngDecode.TrailingPartialChunkFails | lib/png_spec/src/png/trait_impls.rs:43-51 | 1 to 11 stray bytes at the end fail the whole decode with a chunk error |
| PngDecode.ChunkErrorReported | lib/png_spec/src/png/trait_impls.rs:43-51 | after the signature and good chunks, a chunk that fails to decode fails the whole decode as `Chunk(e)` with that chunk's own error |
| Merge.SplitOnce | crates/image_ascii_art/src/test.rs:66 | none without a dot; otherwise the label is root + "." + child, and the root has no dot |
| Merge.Step | crates/image_ascii_art/src/test.rs:65-87 | fails exactly when the label cannot be filed (its key is taken, and it is plain, or its root holds a plain value, or its child is taken); the error is `TypeCollision` exactly when plain meets nested or dotted meets plain, `KeyCollision` otherwise; on success the keys grow by the label's key, other entries are unchanged, a plain label holds its value and a root holds its old children plus the new one (only the new one if the root is new) |
| Merge.MergeFrom | crates/image_ascii_art/src/test.rs:64-88 | no contract of its own: the reference fold; `Merge.Merge`, `Merge.MergeSucceedsIff` and `Merge.MergeSound` state its meaning |
| Merge.StepKeeps | crates/image_ascii_art/src/test.rs:65-87 | a successful step files its own pair and keeps every pair filed before |
| Merge.Merge | crates/image_ascii_art/src/test.rs:59-88 | the loop over the pairs, updating the map in place, returns exactly the fold |
| Merge.MergeFromSound | crates/image_ascii_art/src/test.rs:64-88 | on success every pair can be read back from the result |
| Merge.MergeFromKeys | crates/image_ascii_art/src/test.rs:64-88 | on success the result's keys are the starting keys plus the pairs' top-level keys |
| Merge.MergeSound | crates/image_ascii_art/src/test.rs:59-88 | from an empty map: every pair can be read back, there are no other keys, and every entry and child was filed by some pair |
| Merge.StepFiledBy | crates/image_ascii_art/src/test.rs:65-87 | a step's new entry or child is the step's own pair; every other entry keeps its origin |
| Merge.MergeFromFiledBy | crates/image_ascii_art/src/test.rs:64-88 | every entry of the fold's result was filed by an earlier pair or by one of the folded pairs |
| Merge.StepKeepsRoom | crates/image_ascii_art/src/test.rs:65-87 | a label that could be filed before a step still can after it, unless the two clash |
| Merge.ClashBlocks | crates/image_ascii_art/src/test.rs:67-84 | a label clashing with a filed pair cannot be filed |
| Merge.NoClashSucceeds | crates/image_ascii_art/src/test.rs:64-88 | with room for every pair and no two clashing, the fold succeeds |
| Merge.ClashFails | crates/image_ascii_art/src/test.rs:64-88 | two clashing labels anywhere in the input make the merge fail |
| Merge.MergeSucceedsIff | crates/image_ascii_art/src/test.rs:59-88 | `merge` succeeds exactly when no two labels clash (same key, and not two different children of one root) |
| Merge.PlainThenDottedCollides | crates/image_ascii_art/src/test.rs:72-74 | "a" then "a.b" gives `TypeCollision` |
| Merge.DottedThenPlainCollides | crates/image_ascii_art/src/test.rs:79-81 | "a.b" then "a" gives `TypeCollision` |
| Merge.SiblingsShareRoot | crates/image_ascii_art/src/test.rs:67-78 | "a.b" then "a.c" gives one root holding exactly both children |
| Merge.MergeFromAppend | crates/image_ascii_art/src/test.rs:64-65 | folding a concatenation is folding its parts in turn |
| Merge.MergeErrorPersists | crates/image_ascii_art/src/test.rs:64-86 | the first error ends the fold; later pairs cannot change it |
| Merge.RepeatedLabelFails | crates/image_ascii_art/src/test.rs:66-85 | two pairs with the same label make the merge fail |
| AsciiArt.Index | crates/image_ascii_art/src/main.rs:36-40 | the index `(64 * bright) / 255` is at most 64, 0 for black and 64 for white |
| AsciiArt.Scale | crates/image_ascii_art/src/main.rs:36-41 | the result is a character of `ASCII_BRIGHTNESS` |
| AsciiArt.ScaleEnds | crates/image_ascii_art/src/main.rs:49-51 | `scale(0)` is '`' and `scale(255)` is '$' |
| AsciiArt.IndexMonotone | crates/image_ascii_art/src/main.rs:27-39 | a brighter pixel never maps further down the ramp |
| AsciiArt.IndexOnto | crates/image_ascii_art/src/main.rs:36-40 | every ramp character is the image of some brightness |

## Left out

- Command-line parsing, file I/O and the `encode`/`decode`/`remove`/`print` commands: these are outside the codec.
- `Display` of `ChunkTypeError`, `ChunkError` and `Chunk`, and `Display for Png` (lib/png_spec/src/png/trait_impls.rs:10-17): these produce human-readable text only. `PngError::Display` is modelled only as far as which variant delegates.
- `std::io::Error`: reduced to its one kind here, `UnexpectedEof`. `BufReader` is a cursor on the in-memory input.
- `usize`: unbounded. With `usize` unbounded, the `expect` in `read_length` (which guards 16-bit targets) cannot fail.
- `Chunks.AsBytes`: requires the data length to fit a `u32`; the source panics in `expect` otherwise.
- `ChunkU32.Size32`: requires no overflow; the source panics on `u32` overflow in debug builds and wraps in release builds.
- Rust `&str`: modelled as its UTF-8 bytes (`seq<u8>`), and `String` results as the same bytes.
- The `crc` crate: replaced by a bitwise CRC-32 with the same parameters. No executed check value (such as the standard "123456789" vector) is proved, because evaluating the CRC on literal input is beyond the verifier's budget.
- The CRC's error-detection strength (that a flipped data bit changes the checksum) is not proved.
- `MyValue` serialisation and the `main` of crates/image_ascii_art/src/test.rs: `HashMap` iteration order is unspecified, so `merge` takes its pairs as a sequence in iterator order.
- `ascii()` and `main` of crates/image_ascii_art/src/main.rs: they need the `image` crate to decode and convert pixels.
- `Pngs.Png.ChunkList` (`chunks()`): returns the chunk list as is; it has no contract and no row.
- src/chunk/error.rs is not part of this model. The application's decoder is modelled with the library's `ChunkError`, which has the same variants it uses.
- lib/png_spec/src/png/error.rs is not part of this model. The library declares its own `PngError` (lib/png_spec/src/png.rs:4-6); it is modelled by the application's src/png/error.rs, with the variants the library's container raises: `ChunckTypeNotFound` and `Header` by name (lib/png_spec/src/png.rs:35, lib/png_spec/src/png/trait_impls.rs:29), and `Io`, `ChunkType` and `Chunk` through `?` (lib/png_spec/src/png.rs:45, lib/png_spec/src/png/trait_impls.rs:26, 47). Any variant the library's file adds or changes is not captured.
- PngErrors.PngError.Display: requires `!ChunckTypeNotFound?`, because that arm of `Display` is `todo!()` and panics (src/png/error.rs:50); the panic itself is not modelled.
- lib/png_spec/src/chunk_type.rs is not part of this model. One `ChunkType` serves both trees.
- lib/png_spec/src/chunk/display.rs and src/lib.rs: diagnostic text and module wiring.
