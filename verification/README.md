# demoparser decode engine in Dafny

A Dafny model of the sequential decode engine of demoparser, a parser for
Counter-Strike 2 demo files (`.dem`) written in Rust, with proofs of what
the engine promises.  The model follows the Rust source function by
function, one Dafny module per source file:

- **Byte and bit readers** (`ReadBytes`, `TagScanners`, `BitReader`):
  protobuf Base 128 varints, the hand-written protobuf field scanners,
  and the little-endian bit reader with its varint, ubitvar, fp-varint,
  string and byte-run reads.
- **Frames** (`Frames`, `FrameCoverage`, `FirstPass`, `SecondPass`): the
  outer frame layer (command, tick and size varints, the Snappy bit), the
  frame-boundary search and the chunk split, the coverage check that
  closes the parallel scan, the first pass (header check, frame loop,
  full-packet offsets, fallback) and the second pass's segment loop.
- **Send tables and field paths** (`Sendtables`, `PathOps`, `PropControl`,
  `PropIds`): the serializer field tree, decoder choice, the 39 field-path
  operations, and the property controller that names every field and
  hands out property ids.
- **Entities and values** (`Decoders`, `Variants`, `U128Arrays`,
  `Entities`, `StringTables`): property decoding, output columns, the
  packed 8-slot field-path array, entity creation, update and deletion,
  the player bookkeeping, user commands, and the string tables with
  their userinfo entries.
- **Output** (`CollectData`, `GameEvents`, `ParseDemo`, `VoiceData`):
  per-tick property collection and projectile rows, game-event decoding
  and enrichment, the synthesised round-end and purchase events, the
  joining of segment outputs with tick filtering and sell-back pairing,
  and the WAV files of the voice data.
- **Support** (`KeyValues`, `Text`, `ParserSettings`, `Ints`, `Errors`,
  `Wrappers`): the KeyValues reader of the item and translation files,
  decimal text, the parser settings, fixed-width integers and the error
  enum.

Rust's fixed-width integers are written out over `int`: every
wrap-around goes through `Ints` (`WrapU32`, `WrapI32`, `U32AsI32`,
`TruncU8` and friends) with release-build semantics.  A panic
(`unwrap`, out-of-range indexing) is the `Panic` arm of `Abort`, next to
`Raised(DemoParserError)` for the errors the source returns.  The
players map and the projectile set are a `BTreeMap` and a `BTreeSet`
(src/parser/src/second_pass/parser_settings.rs:45,55), so they are walked in
ascending entity-id order (`OrderedIds.SortedIds`).  Where the outcome
depends on the iteration order of a `HashMap`, which Rust leaves
unspecified, that order is an explicit sequence of keys.

## Behaviour worth knowing

- `read_nbits` returns zero bits once the bit stream is exhausted; only the byte-level reads report OutOfBytesError (`BitReader.BitAt`).
- The first pass panics on a demo command it does not know (`FirstPass.FrameBody`).
- `parse_event` returns no event for a game-event id missing from the descriptor list (`GameEvents.ParseEvent`).
- The second pass may run the segments that start at full packets in parallel (`ParseDemo.ParallelChoice`); their outputs are joined in segment order (`ParseDemo.CombineIgnoresArrivalOrder`).
- The voice output is one WAV file per speaker, and one Engine-format packet fails the whole result (`VoiceData.ConvertVoiceDataToWav`).

## Model

| member | source | states |
|---|---|---|
| ReadBytes.ReadVarint | src/parser/src/read_bytes.rs:223-243 | fails with OutOfBytesError exactly when the input ends before a terminating byte within five bytes; otherwise a u32 and a cursor one to five bytes on, every byte before the last being a continuation byte and the last terminating unless five were read |
| ReadBytes.ReadVarintRoundTrip | src/parser/src/read_bytes.rs:223-243 | every u32 written in protobuf Base 128 encoding is read back, the cursor landing right after its last byte |
| ReadBytes.ReadVarint2 | src/parser/src/read_bytes.rs:245-267 | same value and same failures as `read_varint`, but a terminated varint reports the position one past the byte after it, while a five-byte run reports the position after it |
| TagScanners.VarintOrPanic | src/parser/src/read_bytes.rs:42-44 | `read_varint().unwrap()`: panics exactly when the read fails, otherwise the read's value and position |
| TagScanners.ProtoReadNBytes | src/parser/src/read_bytes.rs:312-319 | refused with OutOfBytesError unless at least one byte remains after the `n` requested; otherwise exactly those `n` bytes, the cursor moved by `n` |
| TagScanners.ProtoReadToEndFails | src/parser/src/read_bytes.rs:312-315 | a read that would end exactly at the end of the input is refused |
| TagScanners.ReadPacket | src/parser/src/read_bytes.rs:320-330 | any tag but 26 is MalformedMessage; tag 26 records the range of the length-prefixed payload without moving past it, and panics if the length does not read |
| TagScanners.ReadProtoPacket | src/parser/src/read_bytes.rs:331-335 | a tag that does not read is OutOfBytesError; success needs tag 26 |
| TagScanners.ProtoPacketFindsPayload | src/parser/src/read_bytes.rs:320-335 | a packet framed as field 3 with its length yields exactly the payload's byte range |
| TagScanners.EntitiesRead | src/parser/src/read_bytes.rs:85-134 | an unknown tag or 106 ends the scan; 114 and 122 are skipped; every other known tag reads one varint value (panicking when it does not read); tag 58 records the entity-data range and jumps over it |
| TagScanners.EntitiesLoopGivesUp | src/parser/src/read_bytes.rs:42-51 | fields that neither carry a value nor end the scan use up the iteration budget and end in MalformedMessage |
| TagScanners.EntitiesMessageTooLong | src/parser/src/read_bytes.rs:42-51 | after 1000 such fields the message is malformed even if a terminating tag follows |
| TagScanners.EntitiesMessageFindsData | src/parser/src/read_bytes.rs:42-51 | field 7 followed by tag 106 yields the entity-data range and stops right after the terminating tag |
| TagScanners.FullPacketRead | src/parser/src/read_bytes.rs:202-220 | tag 10 records the string-table blob and goes on; tag 18 records the packet blob minus its first four bytes and ends the scan; any other tag panics |
| TagScanners.FullPacketScanOfTwoFields | src/parser/src/read_bytes.rs:159-220 | a string-table field followed by a packet field yields both ranges |
| BitReader.ValueOfBits | src/parser/src/first_pass/read_bits.rs:49-51 | a value below 2^n written as n little-endian bits reads back as itself (the `peek` mask keeps exactly n bits) |
| BitReader.BitsOfValue | src/parser/src/first_pass/read_bits.rs:49-51 | every bit string is the n-bit encoding of the value it denotes, so peeking loses nothing |
| BitReader.ValueAppend | src/parser/src/first_pass/read_bits.rs:43-51 | the bits after a consumed prefix carry the higher-order part of the value, as `consume` shifts them down |
| BitReader.ReadNBits | src/parser/src/first_pass/read_bits.rs:66-73 | the value fits in n bits and the cursor moves by exactly n, with no failure case |
| BitReader.ReadNBitsOfBits | src/parser/src/first_pass/read_bits.rs:66-73 | n bits written anywhere in a stream are read back when the cursor sits on them |
| BitReader.ReadNBitsPastEnd | src/parser/src/first_pass/read_bits.rs:53-73 | past the end of the stream the refilled lookahead is empty, so reads give zero rather than an error |
| BitReader.ReadBoolean | src/parser/src/first_pass/read_bits.rs:135-137 | the bit under the cursor, which moves by one |
| BitReader.ReadByteAt | src/parser/src/first_pass/read_bits.rs:66-73 | eight bits read at a byte boundary give that byte of the underlying buffer |
| BitReader.ReadVarintOfBytes | src/parser/src/first_pass/read_bits.rs:94-111 | the bit reader's varint over byte-aligned data gives the same value and end as the byte-slice `read_varint` |
| BitReader.ReadVarintRoundTrip | src/parser/src/first_pass/read_bits.rs:94-111 | every u32 in Base 128 encoding is read back and the cursor lands after its last byte |
| BitReader.ReadVarintU64 | src/parser/src/first_pass/read_bits.rs:112-134 | a success fits in 64 bits; the only failure is MalformedMessage, for a tenth group above 1 or an eleventh group |
| BitReader.VarintU64TooLong | src/parser/src/first_pass/read_bits.rs:119-123 | once ten groups have been read the terminating byte is refused |
| BitReader.ReadVarintU64RoundTrip | src/parser/src/first_pass/read_bits.rs:112-134 | every u64 in Base 128 encoding is read back and the cursor lands after it |
| BitReader.ReadNBytes | src/parser/src/first_pass/read_bits.rs:138-154 | fails exactly when fewer than 8n bits remain, reporting whole bytes left and bytes requested; otherwise n bytes and the cursor 8n bits on |
| BitReader.ReadNBytesOfBytes | src/parser/src/first_pass/read_bits.rs:138-154 | at a byte boundary the n bytes read are the next n bytes of the buffer, and the read succeeds exactly when they exist |
| BitReader.ReadNBytesMut | src/parser/src/first_pass/read_bits.rs:155-173 | a buffer shorter than n is MalformedMessage; otherwise it fails like `read_n_bytes` and on success overwrites only the first n slots |
| BitReader.ZigZagDecodeEncode | src/parser/src/first_pass/read_bits.rs:85-93 | the intended ZigZag decoding inverts ZigZag encoding on every i32 |
| BitReader.ZigZagEncodeDecode | src/parser/src/first_pass/read_bits.rs:85-93 | and ZigZag encoding inverts the decoding on every u32 |
| BitReader.ZigZagAsWrittenBelowSignBit | src/parser/src/first_pass/read_bits.rs:85-93 | the as-written arithmetic shift agrees with ZigZag for words below 2^31 |
| BitReader.ZigZagAsWrittenCounterexample | src/parser/src/first_pass/read_bits.rs:85-93 | for 0x8000_0000 and 0x8000_0001 the as-written decoding gives the wrong sign |
| BitReader.ReadVarint32 | src/parser/src/first_pass/read_bits.rs:85-93 | the result is an i32 whose ZigZag encoding is the varint read, with the cursor where `read_varint` leaves it |
| BitReader.ReadUBitVar | src/parser/src/first_pass/read_bits.rs:75-84 | a u32, consuming 6, 10, 14 or 34 bits |
| BitReader.ReadUBitVarHeader | src/parser/src/first_pass/read_bits.rs:75-84 | selector 0 returns the six header bits; any other selector joins the low nibble with the 4-, 8- or 28-bit payload shifted by four |
| BitReader.ReadUBitVarRoundTrip | src/parser/src/first_pass/read_bits.rs:75-84 | every u32 written in the shortest UBitVar form is read back, the cursor landing after it |
| BitReader.ReadUBitVarFp | src/parser/src/first_pass/read_bits.rs:174-189 | consumes between 3 and 35 bits |
| BitReader.ReadUBitVarFpBound | src/parser/src/first_pass/read_bits.rs:174-189 | the value is below 2^31, the widest payload |
| BitReader.ReadUBitVarFpRoundTrip | src/parser/src/first_pass/read_bits.rs:174-189 | every value below 2^31 written with the shortest prefix is read back |
| Utf8.Width | src/parser/src/first_pass/parser.rs:290 | a lead byte announces at most four bytes |
| Utf8.CharLength | src/parser/src/first_pass/parser.rs:290 | the length of the well-formed UTF-8 character at the start of the bytes (RFC 3629, section 4): at most four, never past the end, the length its lead byte announces with every later byte a continuation byte; 0 when none starts there |
| Utf8.AsciiIsUtf8 | src/parser/src/first_pass/parser.rs:290 | ASCII bytes are valid UTF-8, so any ASCII magic reaches the string match |
| Utf8.DecodeChar | src/parser/src/second_pass/decoder.rs:133 | a one-byte character is exactly a scalar value below 0x80, and it is the byte itself |
| Utf8.InvalidLength | src/parser/src/second_pass/decoder.rs:133 | the invalid run `from_utf8_lossy` replaces is one to three bytes, shorter than its lead byte announces unless it is a single byte |
| Utf8.Lossy | src/parser/src/second_pass/decoder.rs:133 | `String::from_utf8_lossy` never yields more characters than bytes, and yields at least one for a non-empty input |
| Utf8.CharBytes | src/parser/src/second_pass/decoder.rs:133 | a character has one to four UTF-8 bytes, one exactly when it is below 0x80, and its first byte is zero only for U+0000 |
| Utf8.Encode | src/parser/src/second_pass/decoder.rs:133 | a string has at least as many UTF-8 bytes as characters |
| Utf8.EncodeAppend | src/parser/src/second_pass/decoder.rs:133 | the UTF-8 bytes of a concatenation are the concatenated bytes |
| Utf8.CharBytesRead | src/parser/src/second_pass/decoder.rs:133 | the UTF-8 bytes of a character, followed by anything, are one well-formed character that decodes back to it |
| Utf8.LossyEncode | src/parser/src/second_pass/decoder.rs:133 | lossy decoding of the UTF-8 bytes of any string gives the string back |
| Utf8.DecodeCharBytes | src/parser/src/second_pass/decoder.rs:133 | a well-formed character is exactly the encoding of the character it decodes to |
| Utf8.EncodeLossyValid | src/parser/src/second_pass/decoder.rs:133 | valid UTF-8 survives lossy decoding unchanged: re-encoding gives the bytes back |
| Utf8.EncodeIsUtf8 | src/parser/src/second_pass/decoder.rs:133 | the UTF-8 bytes of any string are valid UTF-8 |
| Utf8.EncodeZeroFree | src/parser/src/second_pass/decoder.rs:133 | a string's UTF-8 bytes contain a zero exactly when the string contains U+0000 |
| Utf8.CharBytesZeroFree | src/parser/src/second_pass/decoder.rs:133 | a character's UTF-8 bytes are zero-free exactly when it is not U+0000 |
| Utf8.LossyZeroFree | src/parser/src/second_pass/decoder.rs:126-133 | zero-free bytes decode to a string without U+0000 |
| Utf8.LossyAscii | src/parser/src/second_pass/decoder.rs:133 | on ASCII bytes lossy decoding keeps the length and maps each byte to the character of that value |
| Utf8.EncodeAsciiLength | src/parser/src/first_pass/stringtables.rs:115-119 | an ASCII string has exactly one UTF-8 byte per character |
| Utf8.LossyTwoByteChar | src/parser/src/second_pass/decoder.rs:133 | the bytes C3 A9 decode to "é" |
| Utf8.LossyBrokenPair | src/parser/src/second_pass/decoder.rs:133 | C3 followed by "(" is one U+FFFD and then "(": the lead byte alone is the invalid run |
| Utf8.LossyTruncatedThree | src/parser/src/second_pass/decoder.rs:133 | a three-byte character cut after two bytes at the end is a single U+FFFD |
| Utf8.LossyTruncatedFour | src/parser/src/second_pass/decoder.rs:133 | F0 9F 98 then "A" is one U+FFFD for the three bytes and then "A" |
| Utf8.LossyOverlong | src/parser/src/second_pass/decoder.rs:133 | C0 80 is two U+FFFD: C0 never starts a character, so each byte is its own run |
| Utf8.PrefixStep | src/parser/src/first_pass/stringtables.rs:118 | the bytes of a non-empty prefix are the first character's bytes and then the bytes of the rest of the prefix |
| Utf8.ByteSlice | src/parser/src/first_pass/stringtables.rs:118 | `str::get(0..n)` gives a prefix of the string whose UTF-8 bytes number exactly `n`, and None exactly when no prefix has `n` bytes (a cut inside a character or past the end) |
| Utf8.ByteSliceAtBoundary | src/parser/src/first_pass/stringtables.rs:118 | a byte offset at a character boundary always slices, to the characters before it |
| Utf8.PrefixLengthsIncrease | src/parser/src/first_pass/stringtables.rs:118 | a longer prefix has strictly more UTF-8 bytes |
| Utf8.PrefixLengthsDiffer | src/parser/src/first_pass/stringtables.rs:118 | two prefixes have the same UTF-8 byte length exactly when they are the same prefix |
| Utf8.ByteSliceAscii | src/parser/src/first_pass/stringtables.rs:118 | on ASCII text every byte offset up to the end slices, to that many characters |
| Utf8.ByteSliceInsideChar | src/parser/src/first_pass/stringtables.rs:118 | "é" cut after one byte does not slice |
| Decoders.Decode | src/parser/src/second_pass/decoder.rs:39-63 | integer, bool and string arms read from the same stream; a quantized-float index missing from the map is MalformedMessage, as in `decode_qfloat` |
| Decoders.ReadF32Bits | src/parser/src/second_pass/decoder.rs:41 | the 32 raw bits under the cursor, taken as the float's bit pattern, with the cursor 32 bits on |
| Decoders.DecodeAmmo | src/parser/src/second_pass/decoder.rs:100-106 | the varint less one, but a raw 0 stays 0; the cursor is where the varint read leaves it |
| Decoders.DecodeUint64 | src/parser/src/second_pass/decoder.rs:114-120 | fails exactly when fewer than 64 bits remain, with the byte read's error; otherwise a u64 and the cursor 64 bits on |
| Decoders.LeBytesRoundTrip | src/parser/src/second_pass/decoder.rs:114-120 | `from_ne_bytes` on a little-endian host inverts writing a value as little-endian bytes |
| Decoders.ReadStringOfBytes | src/parser/src/second_pass/decoder.rs:124-134 | a zero-free byte string followed by a zero reads back as itself, the cursor just past the zero |
| Decoders.ReadString | src/parser/src/second_pass/decoder.rs:124-134 | the string ends where the zero terminator is consumed and, the bytes before the terminator being zero-free, never contains U+0000 |
| Decoders.ReadStringOfString | src/parser/src/second_pass/decoder.rs:124-134 | a string without U+0000, written as its UTF-8 bytes and a zero, reads back as itself with the cursor just past the zero |
| Decoders.DecodeU32RoundTrip | src/parser/src/second_pass/decoder.rs:43-50 | Unsigned, Base and CentityHandle decode a u32 written as a varint back to itself, consuming exactly its bytes |
| Decoders.DecodeSignedRoundTrip | src/parser/src/second_pass/decoder.rs:46 | Signed decodes the varint of an i32's ZigZag code back to that i32 |
| Decoders.DecodeU64RoundTrip | src/parser/src/second_pass/decoder.rs:57 | Unsigned64 decodes a u64 varint back to itself |
| Decoders.DecodeFixed64RoundTrip | src/parser/src/second_pass/decoder.rs:58 | Fixed64 decodes eight little-endian bytes back to the u64 they hold, consuming exactly eight bytes |
| Decoders.DecodeFixed64Short | src/parser/src/second_pass/decoder.rs:114-117 | with fewer than eight bytes left Fixed64 fails |
| Decoders.DecodeAmmoRoundTrip | src/parser/src/second_pass/decoder.rs:100-106 | an ammo count stored as the varint of count + 1 decodes back to the count |
| Decoders.DecodeBoolRoundTrip | src/parser/src/second_pass/decoder.rs:48-51 | Boolean and Component give exactly the next bit |
| Decoders.DecodeGameModeRulesRoundTrip | src/parser/src/second_pass/decoder.rs:62 | GameModeRules reads seven bits back as the unsigned value written |
| Decoders.DecodeStringRoundTrip | src/parser/src/second_pass/decoder.rs:124-134 | any string without U+0000, written as its UTF-8 bytes and a terminator, decodes back to itself with the cursor just past the terminator |
| Variants.KindOfCode | src/parser/src/second_pass/variants.rs:362-381 | `resolve_vec_type` knows exactly the codes 0 to 12, and the kind it installs has that code |
| Variants.KindCodeRoundTrip | src/parser/src/second_pass/variants.rs:343-381 | the code `get_type` gives a kind is the code `resolve_vec_type` turns back into that kind |
| Variants.GetType | src/parser/src/second_pass/variants.rs:343-361 | a code exactly for typed columns, naming the column's kind |
| Variants.NoneCell | src/parser/src/second_pass/variants.rs:468-486 | a missing value is stored as None for scalar kinds and as an empty list, of the column's kind, for list kinds |
| Variants.PushNone | src/parser/src/second_pass/variants.rs:468-486 | one more row, earlier rows unchanged, holding None exactly for scalar kinds |
| Variants.PushNones | src/parser/src/second_pass/variants.rs:381-383 | n more rows, each the kind's empty cell, earlier rows unchanged |
| Variants.PushVariant | src/parser/src/second_pass/variants.rs:410-467 | a value of the column's kind or a None adds one row; a value of another kind is dropped; earlier rows never change |
| Variants.NewColumn | src/parser/src/second_pass/variants.rs:90-92 | an untyped column with no rows |
| Variants.PushAppends | src/parser/src/second_pass/variants.rs:387-406 | a push that is taken adds one row holding the item and keeps every earlier row; one that is not taken changes nothing |
| Variants.FirstValueTypesColumn | src/parser/src/second_pass/variants.rs:391-399 | the first value into an untyped column types it by that value and is preceded by the empty cells of the Nones counted before |
| Variants.ResolveTakesKind | src/parser/src/second_pass/variants.rs:362-385 | resolving an untyped column with another column's type gives it that kind and keeps its row count |
| Variants.ResolveTypedIsNoOp | src/parser/src/second_pass/variants.rs:363-365 | an already typed column is left alone |
| Variants.ExtendFromLength | src/parser/src/second_pass/variants.rs:138-341 | lengths add when the kinds agree or either side is untyped; mismatched kinds leave `self` unchanged |
| Variants.ExtendFromRows | src/parser/src/second_pass/variants.rs:138-341 | the rows of `self` come first, followed by those of `other` (its Nones expanded to empty cells) |
| Variants.ExtendUntyped | src/parser/src/second_pass/variants.rs:336-338 | two untyped columns just add their None counts |
| Variants.SliceToNew | src/parser/src/second_pass/variants.rs:93-119 | row k of the result is row `indices[k]` of the source, for exactly as many rows as indices |
| Variants.RenderCell | src/parser/src/second_pass/variants.rs:666-721 | a stored u64 is shown as its decimal string, a row past the end as None, anything else as stored |
| Variants.SoaToAos | src/parser/src/second_pass/variants.rs:655-726 | the row count is the length of the column the map iterates last, and every row is built the same way from the output props |
| Variants.RowKeys | src/parser/src/second_pass/variants.rs:663-668 | a row has a field for a friendly name exactly when some output prop of that name has a typed column |
| Variants.RowValue | src/parser/src/second_pass/variants.rs:663-721 | the field of a name holds the rendered cell of the last typed column with that name |
| PathOps.GenerateFp | src/parser/src/second_pass/path_ops.rs:4-11 | the root path: one live slot holding -1, every other slot zero |
| PathOps.GetEntry | src/parser/src/second_pass/path_ops.rs:73-78 | IllegalPathOp exactly past the seventh slot; otherwise that slot's value |
| PathOps.SetAt | src/parser/src/second_pass/path_ops.rs:73-78 | assigning through `get_entry_mut` changes only the named slot, and fails exactly when it does not exist |
| PathOps.AddAt | src/parser/src/second_pass/path_ops.rs:73-78 | adding through `get_entry_mut` changes only the named slot, by an i32 wrapping addition |
| PathOps.PopSpecial | src/parser/src/second_pass/path_ops.rs:66-72 | with `last` in range, succeeds exactly when at most `last + 1` slots are popped, zeroing the popped slots and lowering `last` by `n` (wrapping below zero); IllegalPathOp otherwise |
| PathOps.PopSpecialCanonical | src/parser/src/second_pass/path_ops.rs:66-72 | on a well-formed path, popping at most `last` slots keeps it well-formed at depth `last - n`; popping the root too leaves the wrapped root-popped state |
| PathOps.PushOne | src/parser/src/second_pass/path_ops.rs:106-145 | a push succeeds exactly when a slot is free above `last`, and then only that slot changes, to the value read |
| PathOps.PushMany | src/parser/src/second_pass/path_ops.rs:166-281 | n pushes succeed exactly when n slots are free, keep every live slot and leave a well-formed path n deeper |
| PathOps.PopUndoesPush | src/parser/src/second_pass/path_ops.rs:66-72 | popping as many slots as were pushed gives back the original path |
| PathOps.PushAddAgreesWithSet | src/parser/src/second_pass/path_ops.rs:106-145 | on a well-formed path the `+=` and `=` forms of a push agree, since the new slot holds zero |
| PathOps.PlusOne | src/parser/src/second_pass/path_ops.rs:81-85 | adds one to slot `last`, failing exactly when `last` is past the seventh slot; reads nothing |
| PathOps.NonTopoLoop | src/parser/src/second_pass/path_ops.rs:292-305 | the flag-and-delta pass over slots below `end` always succeeds in range, keeps `last` and touches no slot at or above `end` |
| PathOps.NonTopo | src/parser/src/second_pass/path_ops.rs:364-372 | the pass over the live slots always succeeds on a well-formed path and keeps `last` |
| PathOps.PushN | src/parser/src/second_pass/path_ops.rs:282-291 | reads a count and a delta and keeps a well-formed path well-formed |
| PathOps.PopThenAdd | src/parser/src/second_pass/path_ops.rs:306-353 | on a well-formed path succeeds exactly when `n <= last`, leaving depth `last - n` without reading more |
| PathOps.PopAllButOnePlusOne | src/parser/src/second_pass/path_ops.rs:318-323 | back to depth 0 with the root grown by one, every slot that was live above it zeroed, the rest untouched |
| PathOps.PopNAndNonTopographical | src/parser/src/second_pass/path_ops.rs:354-363 | on a well-formed path succeeds exactly when the pop count read is at most `last + 1`; popping every slot leaves the root-popped state |
| PathOps.NonTopoPenultimatePlusOne | src/parser/src/second_pass/path_ops.rs:373-377 | succeeds exactly when `1 <= last <= 7`, adding one to slot `last - 1` and nothing else |
| PathOps.DoOp | src/parser/src/second_pass/path_ops.rs:12-62 | UnknownPathOP exactly for opcodes above 38; every known opcode fails only with IllegalPathOp and keeps a well-formed path well-formed, or leaves it root-popped |
| U128Arrays.New | src/parsing/u128arr.rs:61-63 | the word 0xFFFF: slot 0 reads -1 and every other slot reads 0 |
| U128Arrays.Get | src/parsing/u128arr.rs:9-34 | panics exactly past slot 7; otherwise the slot's 16 bits, with the all-ones pattern and only it read as -1 |
| U128Arrays.ClearIdx | src/parsing/u128arr.rs:36-49 | panics exactly past slot 7; otherwise zeroes that slot and leaves the other seven alone |
| U128Arrays.I32AsU128 | src/parsing/u128arr.rs:53 | `val as u128` is the i32 taken modulo 2^128, so a negative value sign-extends into every higher slot |
| U128Arrays.SetAsWritten | src/parsing/u128arr.rs:51-56 | a value that fits in 16 bits changes only its slot; a negative value turns every slot from `idx + 2` upward to all ones |
| U128Arrays.SetAsWrittenClobbers | src/parsing/u128arr.rs:51-56 | on a fresh array, setting slot 1 to -1 makes slot 2 read -1 although it read 0 before |
| U128Arrays.Set | src/parsing/u128arr.rs:51-56 | the intended `set`: the slot holds the value's low 16 bits and no other slot changes |
| U128Arrays.SetAgreesOnSlotValues | src/parsing/u128arr.rs:51-56 | for values that fit in a slot the source's `set` and the intended one agree |
| U128Arrays.SetThenGet | src/parsing/u128arr.rs:9-56 | reading back a slot set to a value in -1..0xFFFE gives that value; other slots read as before |
| U128Arrays.IncrIdx | src/parsing/u128arr.rs:58-60 | panics exactly past slot 7; otherwise the other slots are kept and, while the sum stays in slot range, the slot reads its old value plus the increment |
| Frames.DemoCmdFromInt | src/parser/src/first_pass/frameparser.rs:52 | UnknownDemoCmd exactly for values outside -1..17 and 64; otherwise the command with that discriminant |
| Frames.DemoCmdRoundTrip | src/parser/src/first_pass/frameparser.rs:52 | every command's discriminant looks up that command |
| Frames.ClearCompressedBit | src/parser/src/first_pass/frameparser.rs:50-51 | `cmd & !64` removes exactly the compression bit when it is set and nothing else |
| Frames.ReadFrame | src/parser/src/first_pass/frameparser.rs:44-62 | a frame starts at `ptr` and its header of three varints ends inside the input; the size is a u32, the tick an i32; failures are OutOfBytesError or UnknownDemoCmd |
| Frames.ReadFrameRoundTrip | src/parser/src/first_pass/frameparser.rs:44-62 | a header written from a command, compression flag, tick and size reads back as that frame, the tick taken `as i32` |
| Frames.NextTickWraps | src/parser/src/first_pass/frameparser.rs:111 | the consecutive-tick test adds one with i32 wrap-around |
| Frames.FindLoop | src/parser/src/first_pass/frameparser.rs:97-117 | a success is the first offset after `ptr` within the search bound where four frames with consecutive ticks start; a failure is ClassNotFound with no such offset in the bound |
| Frames.TryFindBeginningOfAFrame | src/parser/src/first_pass/frameparser.rs:84-119 | offsets 0 and 16 give 16; from any other offset, the first later offset where a run of four frames starts, or ClassNotFound when none lies within the bound |
| Frames.SplitFileIntoNChunks | src/parser/src/first_pass/frameparser.rs:120-127 | n chunks, each `len / n` bytes long |
| Frames.SplitCoversFile | src/parser/src/first_pass/frameparser.rs:120-127 | the chunks start at 0, abut, and the last stops fewer than n bytes before the end of the file |
| Frames.CloseRange | src/parser/src/first_pass/frameparser.rs:176-200 | a full packet closes one range ending at its start, from the previous full packet or, for the first one of the chunk starting at 16, from 16; otherwise nothing is added |
| Frames.ScanLoop | src/parser/src/first_pass/frameparser.rs:173-211 | the ranges the scan adds chain on from those it had, end to end, inside the chunk |
| Frames.Start | src/parser/src/first_pass/frameparser.rs:161-213 | an empty chunk gives no ranges; otherwise ranges back to back within the file, the first from 16 when the chunk starts there |
| FrameCoverage.SortByStart | src/parser/src/first_pass/frameparser.rs:216 | sorted by start and a permutation of its input |
| FrameCoverage.SortSortedIsIdentity | src/parser/src/first_pass/frameparser.rs:216 | sorting ranges already in start order leaves them as they are |
| FrameCoverage.Dedup | src/parser/src/first_pass/frameparser.rs:217 | the same set of ranges with no two equal neighbours, the first kept, order kept, and a list without equal neighbours unchanged |
| FrameCoverage.CheckAllBytesAreCovered | src/parser/src/first_pass/frameparser.rs:215-257 | at most the missing tail up to the file length is sent; a true verdict means a range starts at 16, all ranges lie in the file, and together with the tail they cover every byte from 16 to the end |
| FrameCoverage.AbutCovers | src/parser/src/first_pass/frameparser.rs:221-225 | abutting ranges cover every byte from the first start up to the largest end |
| FrameCoverage.TilingIsCovered | src/parser/src/first_pass/frameparser.rs:215-257 | ranges tiling the file from 16 to its end pass, and nothing is sent |
| FrameCoverage.TilesIncrease | src/parser/src/first_pass/frameparser.rs:216-217 | a tiling is already sorted and has no duplicates, so sorting and dedup keep it |
| FrameCoverage.ContiguousRangesAreCovered | src/parser/src/first_pass/frameparser.rs:268-290 | the contiguous example 16..40 passes |
| FrameCoverage.RangeGapIsNotCovered | src/parser/src/first_pass/frameparser.rs:291-313 | ranges with a gap fail |
| FrameCoverage.MissingStartByteIsNotCovered | src/parser/src/first_pass/frameparser.rs:314-336 | ranges starting at 14 instead of 16 fail |
| FrameCoverage.MissingEndByteIsNotCovered | src/parser/src/first_pass/frameparser.rs:337-359 | ranges running past the file length fail |
| FirstPass.MagicsAreUtf8 | src/parser/src/first_pass/parser.rs:290-296 | both magics are valid UTF-8, so both named arms of the match are reachable |
| FirstPass.InvalidUtf8Byte | src/parser/src/first_pass/parser.rs:290-300 | a first byte 0xC0, 0xC1 or above 0xF4 is never UTF-8, so such a file skips the magic check |
| FirstPass.ExpectedLength | src/parser/src/first_pass/parser.rs:304 | the announced length is a u32 (the field plus 18, wrapping) |
| FirstPass.ShortHeader | src/parser/src/first_pass/parser.rs:289-314 | Source1DemoError exactly for the HL2DEMO magic; UnknownFile exactly for other valid UTF-8 than the two magics; otherwise accepted exactly when the file is not more than 10% shorter than the announced length |
| FirstPass.ShortHeaderAcceptsExactLength | src/parser/src/first_pass/parser.rs:303-313 | a Source 2 header whose length field plus 18 is the file length is accepted |
| FirstPass.ShortHeaderRejectsTruncated | src/parser/src/first_pass/parser.rs:303-313 | a Source 2 file shorter than 90% of the announced length is DemoEndsEarly with both lengths |
| FirstPass.ParseGameEventList | src/parser/src/first_pass/parser.rs:187-194 | every id maps to the last descriptor carrying it, and only ids that occur are keys |
| FirstPass.LastDescriptorWins | src/parser/src/first_pass/parser.rs:187-194 | the descriptor kept for an id is its last occurrence in the list |
| FirstPass.EventListExample | src/parser/src/first_pass/parser.rs:187-194 | a duplicated id keeps the later descriptor, others stay |
| FirstPass.ReadHeader | src/parser/src/first_pass/parser.rs:76-81 | three u32 varints, the position after them at least three bytes on and inside the input |
| FirstPass.HeaderIsFrame | src/parser/src/first_pass/parser.rs:76-90 | the loop's own header read agrees with `read_frame` of the frame parser whenever the command is known |
| FirstPass.Payload | src/parser/src/first_pass/parser.rs:97-108 | an uncompressed payload is passed on as sliced; the only failure is DecompressionFailure |
| FirstPass.Dispatch | src/parser/src/first_pass/parser.rs:110-136 | Stop ends the loop with the state unchanged; ClassInfo without pending SendTables is NoSendTableMessage, and on success consumes them; SendTables stores the payload; a FullPacket records its start; every other command continues |
| FirstPass.FrameBody | src/parser/src/first_pass/parser.rs:82-136 | a frame reaching the end of the file ends the loop with the tick recorded; an unknown command panics; a continuing frame moves the cursor forward but stays inside the file; only a full packet adds its start to the offsets |
| FirstPass.Step | src/parser/src/first_pass/parser.rs:75-136 | a header that does not read is OutOfBytesError; otherwise as one frame body |
| FirstPass.SkipsPacketFrames | src/parser/src/first_pass/parser.rs:93-96 | Packet and AnimationData frames are skipped by their size whatever the message parsers would do |
| FirstPass.ClassInfoNeedsSendTables | src/parser/src/first_pass/parser.rs:118-124 | a ClassInfo frame with no SendTables pending fails with NoSendTableMessage |
| FirstPass.ClassInfoTakesSendTables | src/parser/src/first_pass/parser.rs:118-124 | a successful ClassInfo frame had SendTables pending and consumes them |
| FirstPass.Loop | src/parser/src/first_pass/parser.rs:74-136 | the loop's result records, in increasing order, exactly starts of full-packet frames |
| FirstPass.Fallback | src/parser/src/first_pass/parser.rs:177-185 | offset 16 is added when missing and nothing else is; the embedded event list replaces only an empty one; no other field changes |
| FirstPass.FallbackIdempotent | src/parser/src/first_pass/parser.rs:177-185 | applying the fallback twice is the same as once |
| FirstPass.FallbackKeepsOffsets | src/parser/src/first_pass/parser.rs:177-181 | after the fallback the offsets are still starts of full packets or the header end |
| FirstPass.ParseDemo | src/parser/src/first_pass/parser.rs:69-139 | a file shorter than the header panics; a header error is returned as is; a success has seen ClassInfo, records offset 16 and only full-packet starts, and has an event list unless the embedded one is empty |
| FirstPass.OffsetsAreOrderedFrameStarts | src/parser/src/first_pass/parser.rs:127-131 | before the fallback the recorded offsets are strictly increasing full-packet starts |
| SecondPass.SlicePacketBytes | src/parser/src/second_pass/parser.rs:141-146 | succeeds exactly when the payload ends before the last byte of the file, giving exactly its bytes; MalformedMessage otherwise |
| SecondPass.DecompressIfNeeded | src/parser/src/second_pass/parser.rs:147-158 | an uncompressed payload passes unchanged; the only failure is DecompressionFailure |
| SecondPass.ParseFullPacket | src/parser/src/second_pass/parser.rs:316-330 | a payload that does not decode is MalformedMessage; otherwise the string tables are rebuilt from empty by the packet's contents and the loop's bookkeeping is untouched |
| SecondPass.FullPacketDecision | src/parser/src/second_pass/parser.rs:98-121 | with a byte range: end the segment exactly when past its end, otherwise parse with entities; with `parse_all_packets`: parse without entities; otherwise parse (with entities) only the first full packet of a segment not starting at 16, and end the segment on any other |
| SecondPass.Dispatch | src/parser/src/second_pass/parser.rs:81-94 | Stop ends the loop unchanged; a full packet follows the decision above; commands other than packets, full packets and Stop change nothing |
| SecondPass.FrameBody | src/parser/src/second_pass/parser.rs:66-95 | a continuing frame moves the cursor to the end of its payload; the tick recorded is the frame's; only full packets are logged, as the decision allows |
| SecondPass.Step | src/parser/src/second_pass/parser.rs:65-95 | a frame header that does not read returns its error; otherwise the cursor strictly advances |
| SecondPass.Loop | src/parser/src/second_pass/parser.rs:64-95 | stops once the cursor is past the file; every full packet parsed obeys the segment rule |
| SecondPass.Start | src/parser/src/second_pass/parser.rs:59-97 | a segment starting at `startedAt` with the given tables parses only the full packets the segment rule allows |
| SecondPass.AtMostOneFullPacket | src/parser/src/second_pass/parser.rs:108-116 | without a byte range or `parse_all_packets`, at most one full packet is parsed, and none in the segment starting at 16 |
| SecondPass.RangeBoundsFullPackets | src/parser/src/second_pass/parser.rs:99-105 | with a byte range, every full packet parsed starts a payload at or before the range's end |
| SecondPass.SkipsBySize | src/parser/src/second_pass/parser.rs:66-69 | AnimationData, SendTables and StringTables frames are stepped over by size |
| SecondPass.SkipsUnsliceable | src/parser/src/second_pass/parser.rs:70-76 | a frame whose payload would reach the end of the file is stepped over, not parsed |
| SecondPass.LastFrameAtEndOfFile | src/parser/src/second_pass/parser.rs:63-76 | a frame ending exactly at the end of the file is stepped over, and the next header read at the end fails with OutOfBytesError |
| Sendtables.AsIndex | src/parser/src/first_pass/sendtables.rs:429 | `i32 as usize` keeps a non-negative slot and sends a negative one past any field list |
| Sendtables.GetInner | src/parser/src/first_pass/sendtables.rs:252-269 | arrays and vectors give their element for any slot; nested and pointer fields give the child at the slot, failing exactly past the last child; values have no children; every failure is IllegalPathOp |
| Sendtables.FindField | src/parser/src/first_pass/sendtables.rs:428-454 | a first slot past the serializer's fields, or more than six live slots, is IllegalPathOp; a one-slot path names that field |
| Sendtables.FindFieldOneDeeper | src/parser/src/first_pass/sendtables.rs:433-453 | lengthening a path by one slot looks one level deeper, at the new slot, below the field the shorter path names |
| Sendtables.NothingBelowAValue | src/parser/src/first_pass/sendtables.rs:252-269 | a path cannot look inside a value field |
| Sendtables.GetDecoderFromField | src/parser/src/first_pass/sendtables.rs:455-463 | values give their own decoder, vectors UnsignedDecoder, pointers theirs; anything else is FieldNoDecoder |
| Sendtables.Offset | src/parser/src/first_pass/sendtables.rs:489-495 | `base + slot as u32` is a u32 and equals the plain sum when that does not wrap |
| Sendtables.GetPropinfo | src/parser/src/first_pass/sendtables.rs:465-518 | info exactly for values and for vectors of values, carrying the value's parse flag and its id flattened by the path |
| Sendtables.MyWeaponsFlattened | src/parser/src/first_pass/sendtables.rs:485-492 | a slot of `m_hMyWeapons` gets its own id after the base, one per slot |
| Sendtables.MyWeaponsLengthKept | src/parser/src/first_pass/sendtables.rs:486-488 | the vector's own length, at depth 1, keeps the base id |
| Sendtables.PaintFlattened | src/parser/src/first_pass/sendtables.rs:493-498 | skin and glove paint ids are offset by the slot at depth 1 |
| Sendtables.PurchaseRangesDisjoint | src/parser/src/first_pass/sendtables.rs:500-515 | the five item-purchase ranges do not overlap, so at most one rewrite applies |
| Sendtables.PurchaseFlattened | src/parser/src/first_pass/sendtables.rs:500-515 | an item-purchase id becomes its range's base plus the slot at depth 2, unless the slot at depth 1 is 1 |
| Sendtables.OrdinaryIdKept | src/parser/src/first_pass/sendtables.rs:465-518 | ids outside every special id and range are passed through unchanged |
| Sendtables.PropinfoDecoderAgrees | src/parser/src/first_pass/sendtables.rs:455-518 | the decoder `get_propinfo` reports is the one `get_decoder_from_field` gives |
| Sendtables.FindCategory | src/parser/src/first_pass/sendtables.rs:679-715 | pointer before vector before array before value, each decided by its own test |
| Sendtables.CharArraysAreValues | src/parser/src/first_pass/sendtables.rs:708-715 | a `char[N]` is a string value, not an array |
| Sendtables.SerializerNameMakesVector | src/parser/src/first_pass/sendtables.rs:701-707 | a field naming a serializer is a vector of it unless it is a pointer |
| Sendtables.PointerFieldNew | src/parser/src/first_pass/sendtables.rs:336-348 | a pointer to the serializer, decoded by GameModeRulesDecoder for CCSGameModeRules and by BooleanDecoder otherwise |
| Sendtables.ValueFieldNew | src/parser/src/first_pass/sendtables.rs:356-366 | a value field with the decoder and name given, not parsed, id 0 |
| Sendtables.CreateField | src/parser/src/first_pass/sendtables.rs:519-548 | an unknown serializer name is MalformedMessage (the only failure); arrays stay arrays, vectors get UnsignedDecoder |
| Sendtables.CreatedFieldDecoders | src/parser/src/first_pass/sendtables.rs:519-548 | the field built from a plain value reports exactly the decoder it was given; a vector reports UnsignedDecoder |
| Sendtables.Register | src/parser/src/first_pass/sendtables.rs:649-651 | the next index gets the field's parameters and the counter moves by one |
| Sendtables.FindFloatDecoderU8 | src/parser/src/first_pass/sendtables.rs:636-658 | as written: a quantized field is registered under the full index while its decoder keeps the index modulo 256 |
| Sendtables.QuantizedIndexAliases | src/parser/src/first_pass/sendtables.rs:649-652 | with 256 quantized floats already registered, the next field's decoder names the first field's parameters instead of its own |
| Sendtables.FindFloatDecoder | src/parser/src/first_pass/sendtables.rs:636-658 | the intended version: non-quantized encodings are decided without registering; a quantized field is registered |
| Sendtables.QuantizedDecoderFindsOwnParams | src/parser/src/first_pass/sendtables.rs:649-652 | in the intended version every quantized field's decoder names its own parameters |
| Sendtables.RegisterKeepsEarlier | src/parser/src/first_pass/sendtables.rs:649-651 | registering keeps every earlier quantized float under its index |
| Sendtables.FindUintDecoder | src/parser/src/first_pass/sendtables.rs:659-664 | Fixed64Decoder exactly for the "fixed64" encoder, Unsigned64Decoder otherwise |
| Sendtables.FindQangleDecoder | src/parser/src/first_pass/sendtables.rs:624-635 | pitch-yaw exactly for `m_angEyeAngles`; otherwise Qangle3 exactly when a bit count is given, else the variable form |
| Sendtables.FindVectorType | src/parser/src/first_pass/sendtables.rs:665-678 | a three-component "normal" vector gets VectorNormalDecoder without registering; otherwise the component's float decoder decides, registering as it does |
| Sendtables.FindDecoder | src/parser/src/first_pass/sendtables.rs:602-623 | `m_iClip1` is AmmoDecoder; a base type in the table gets its decoder; an unknown non-special type is UnsignedDecoder; the map changes only by a quantized registration |
| Sendtables.FindDecoderQuantizedRegistered | src/parser/src/first_pass/sendtables.rs:602-658 | every quantized-float decoder handed out names a registered float with the field's own parameters |
| Entities.EntityAt | src/parser/src/second_pass/entities.rs:418-421 | an entity exactly when the id indexes an occupied slot; a negative id, cast to usize, never does |
| Entities.InsertField | src/parser/src/second_pass/entities.rs:293-299 | a decoded value is stored under its id exactly when its field is parsed; otherwise the entity is unchanged |
| Entities.InsertFieldKeepsOthers | src/parser/src/second_pass/entities.rs:293-299 | storing one property leaves every other property as it was |
| Entities.EntityPropinfo | src/parser/src/second_pass/entities.rs:300-335 | info exactly for values and vectors of values, with the decoder and parse flag of the field |
| Entities.PropinfosAgree | src/parser/src/second_pass/entities.rs:300-335 | the second pass's `get_propinfo` and the serializer's agree on every id other than the skin, paint and purchase ids |
| Entities.SkinIdKeptAtTopLevel | src/parser/src/second_pass/entities.rs:324-331 | a weapon skin id is kept when the parent slot is 0 or absent and becomes `u32::MAX` otherwise |
| Entities.DecodePaths | src/parser/src/second_pass/entities.rs:255-274 | decoding the paths keeps the entity's id, class and type and never removes a property |
| Entities.UnparsedPathKeepsProps | src/parser/src/second_pass/entities.rs:271-273 | a path whose field is not parsed reads its value but leaves the properties alone |
| Entities.DecodeEntityUpdate | src/parser/src/second_pass/entities.rs:237-276 | a missing entity is EntityNotFound; an unknown class is ClassNotFound; a success reports all paths as decoded and changes only that entity's properties |
| Entities.MetaProp | src/parser/src/second_pass/entities.rs:438-478 | a special id the prop controller does not know reads as absent, and the only failure is IncorrectMetaDataProp |
| Entities.PickHandle | src/parser/src/second_pass/entities.rs:472 | `handle & 0x7FF` is an entity index below 2048 |
| Entities.WithSteamid | src/parser/src/second_pass/entities.rs:501-509 | exactly the players whose steam id matches |
| Entities.AtMostOneWithSteamid | src/parser/src/second_pass/entities.rs:501-509 | while steam ids are unique at most one player matches, so removing every match removes the one `should_remove` finds |
| Entities.RecordPlayer | src/parser/src/second_pass/entities.rs:479-497 | the pawn's entry becomes the new player, every other entry with the same steam id is dropped, and everything else is kept |
| Entities.RecordPlayerKeepsUnique | src/parser/src/second_pass/entities.rs:479-497 | recording a player keeps steam ids unique |
| Entities.GatherExtraInfo | src/parser/src/second_pass/entities.rs:416-500 | a missing entity is EntityNotFound; other failures are IncorrectMetaDataProp; entities that are neither controllers nor teams change nothing; only team and player records change; unique steam ids stay unique |
| Entities.RecordTeam | src/parser/src/second_pass/entities.rs:424-436 | only the team slots change |
| Entities.ControllerRecorded | src/parser/src/second_pass/entities.rs:469-497 | a controller with a pawn handle and a non-zero steam id, and no team or name ids configured, is recorded under its pawn's index with its own id as controller |
| Entities.CheckEntityType | src/parser/src/second_pass/entities.rs:549-567 | it fails exactly for an unknown class id, with ClassNotFound; a class typed Projectile has a name containing "Projectile" or is CIncendiaryGrenade |
| Entities.ProjectileClasses | src/parser/src/second_pass/entities.rs:563-565 | every class whose name contains "Projectile" is tracked as a projectile |
| Entities.UpdateEntity | src/parser/src/second_pass/entities.rs:127-142 | success needs an existing entity; it keeps the tracker's shape, projectiles, rules and C4 ids, and keeps the tracker consistent |
| Entities.CreateNewEntity | src/parser/src/second_pass/entities.rs:510-540 | a negative id fails; on success the slot holds a new entity of that id whose type is its class's, the list only grows, and the id is a projectile exactly when it was or the new type is one |
| Entities.NoteEntity | src/parser/src/second_pass/entities.rs:516-524 | projectiles, the rules entity and the C4 entity are recorded by type; entities and players are kept |
| Entities.PlaceEntity | src/parser/src/second_pass/entities.rs:526-533 | a negative id is VectorResizeFailure; otherwise the entity lands in its slot, new slots in between are empty, and every other slot is kept |
| Entities.EntityCmdOf | src/parser/src/second_pass/entities.rs:92-98 | every two-bit value decodes; odd values are Delete and exactly 2 is CreateAndUpdate |
| Entities.CommandBitsTotal | src/parser/src/second_pass/entities.rs:92-98 | the two command bits never give ImpossibleCmd |
| Entities.NextEntityId | src/parser/src/second_pass/entities.rs:90 | the next id stays an i32 and, when nothing overflows, is the old id plus one plus the delta |
| Entities.DeleteEntity | src/parser/src/second_pass/entities.rs:100-105 | the id leaves the projectile set and its slot, if any, is emptied; no other slot changes |
| Entities.EntityEntries | src/parser/src/second_pass/entities.rs:89-119 | processing the entries keeps the tracker consistent |
| Entities.ParsePacketEnts | src/parser/src/second_pass/entities.rs:76-126 | with entity parsing off nothing happens; an undecodable message is MalformedMessage; zero entries change nothing; the tracker stays consistent |
| Entities.HistoryOf | src/parser/src/second_pass/parser.rs:255-270 | the input history exactly when every entry has its view angles, in order |
| Entities.UserCmdProps | src/parser/src/second_pass/parser.rs:240-285 | the command's values are written under the user-command ids, with the history and mouse delta always written, and every other property kept |
| Entities.ApplyUserCmds | src/parser/src/second_pass/parser.rs:232-289 | user commands change only properties under the user-command ids, of existing entities; the only failure is a panic |
| Entities.ParseUserCmd | src/parser/src/second_pass/parser.rs:232-289 | with the gate off or an undecodable message nothing changes; otherwise the tracker's shape and players are kept |
| Entities.MissingPawnIgnored | src/parser/src/second_pass/parser.rs:240-250 | a command for a pawn whose entity does not exist changes nothing |
| PropControl.NewController | src/parser/src/first_pass/prop_controller.rs:137-164 | a new controller starts at the normal base id with no infos or names, tracks velocity for events exactly when events are wanted and velocity is needed, and is consistent |
| PropControl.ClassifiedByFirstComponent | src/parser/src/first_pass/prop_controller.rs:599-611 | whether a name is a weapon or grenade prop depends only on its first dotted component |
| PropControl.SplitWeaponPrefix | src/parser/src/first_pass/prop_controller.rs:587-597 | a weapon or grenade name loses exactly its first component and its dot; any other name is kept whole |
| PropControl.PadPath | src/parser/src/first_pass/prop_controller.rs:448-451 | a path of at most seven indices is kept as a prefix and padded with zeros to seven; a longer one panics |
| PropControl.SetSpecialIds | src/parser/src/first_pass/prop_controller.rs:491-539 | only the special id of a name in the matching list (weapon or other) is set, and nothing else changes |
| PropControl.SetId | src/parser/src/first_pass/prop_controller.rs:351-369 | a known name keeps its id; a new name gets the counter; the id-to-name map learns the pair, and the name tables stay in agreement |
| PropControl.PrefixType | src/parser/src/first_pass/prop_controller.rs:381-387 | a prefix type is only ever rules, team, player or controller |
| PropControl.ResolvedType | src/parser/src/first_pass/prop_controller.rs:381-396 | the custom type table wins, then weapon for weapon props; there is no type exactly when neither applies and the prefix is not recognised |
| PropControl.NewInfos | src/parser/src/first_pass/prop_controller.rs:399-424 | one info per list (player, other) that wants the name, each with the prop's id, name, type and friendly name |
| PropControl.NewStates | src/parser/src/first_pass/prop_controller.rs:425-440 | one wanted-state entry exactly when a state is wanted for the name, as a player prop with the prop's id |
| PropControl.InsertPropinfo | src/parser/src/first_pass/prop_controller.rs:371-442 | inserting infos keeps the name tables and counter and keeps every earlier info in place |
| PropControl.InsertPropinfoRecords | src/parser/src/first_pass/prop_controller.rs:371-442 | with no type nothing changes; otherwise one info is appended per wanting list, each with the given id, the stripped name and the resolved type |
| PropControl.OverrideId | src/parser/src/first_pass/prop_controller.rs:481-486 | a raw-value attribute gets the glove paint id on the player pawn and the skin id elsewhere; the fixed-name table is used next; otherwise the id is kept |
| PropControl.NameProp | src/parser/src/first_pass/prop_controller.rs:446-460 | the stripped name ends up with an id, reused if known and fresh otherwise; infos only grow for a new name; the padded path maps to the name |
| PropControl.SharedPropName | src/parser/src/first_pass/prop_controller.rs:351-361 | two names that strip to the same prop share one id and add no info the second time |
| PropControl.WeaponPropName | src/parser/src/first_pass/prop_controller.rs:587-597 | a weapon class prefix is stripped to the bare prop name |
| PropControl.WeaponClassesShareProps | src/parser/src/first_pass/prop_controller.rs:353-355 | the same prop under two weapon classes gets one id, as the comment's `CAK47.m_iClip1` and `CWeaponSCAR20.m_iClip1` example says |
| PropControl.NamePropAgrees | src/parser/src/first_pass/prop_controller.rs:351-369 | naming a prop keeps the name tables in agreement with ids below the counter |
| PropControl.HandleProp | src/parser/src/first_pass/prop_controller.rs:443-489 | a path longer than seven panics; otherwise the field is marked parsed with its full name and overridden id, the name has an id, the path maps to the name, and the counter moves on by one |
| PropControl.TraverseFields | src/parser/src/first_pass/prop_controller.rs:540-584 | the walk panics or keeps the fields' count and prefix, and moves the counter on by one per handled value |
| PropControl.TraverseOne | src/parser/src/first_pass/prop_controller.rs:544-582 | one field moves the counter on by the number of values it handles |
| PropControl.TraverseVectorSerializer | src/parser/src/first_pass/prop_controller.rs:561-573 | a vector of serializers handles each direct value and then walks the serializer again, keeping its name and field count |
| PropControl.HandleInnerValues | src/parser/src/first_pass/prop_controller.rs:562-571 | each direct value of the vector's serializer is handled once, and the fields keep their shape |
| PropControl.FindPropNamePaths | src/parser/src/first_pass/prop_controller.rs:348-350 | a serializer keeps its name and field count, and the counter moves on by the number of handled values |
| PropControl.ButtonInfos | src/parser/src/first_pass/prop_controller.rs:170-180 | wanted buttons get consecutive ids from the buttons base, as player props of type Button |
| PropControl.EveryWantedButton | src/parser/src/first_pass/prop_controller.rs:170-180 | every wanted button gets an info |
| PropControl.ButtonStateInfos | src/parser/src/first_pass/prop_controller.rs:181-193 | buttons with a wanted state get consecutive ids from the buttons base |
| PropControl.FixedInfos | src/parser/src/first_pass/prop_controller.rs:228-325 | with nothing wanted there are none; with projectiles the five grenade infos come last |
| PropControl.CustomPropinfos | src/parser/src/first_pass/prop_controller.rs:166-325 | the wanted buttons come first |
| PropControl.SetCustomPropinfos | src/parser/src/first_pass/prop_controller.rs:166-347 | only infos and state infos change; earlier infos stay first, the wanted buttons follow, and tick, steamid and name always close the list |
| PropControl.NothingWantedAlwaysInfos | src/parser/src/first_pass/prop_controller.rs:166-347 | with nothing wanted the controller gets exactly tick, steamid and name |
| Text.ParseU32 | src/parser/src/first_pass/stringtables.rs:164 | a parsed key is below 2^32 and is a non-empty run of digits after an optional plus sign |
| Text.ParseU32RoundTrip | src/parser/src/first_pass/stringtables.rs:164 | every u32 rendered in decimal, with or without a leading plus, parses back to itself |
| Text.ParseU32Overflow | src/parser/src/first_pass/stringtables.rs:164 | a decimal number of 2^32 or more does not parse as a u32 |
| ParserSettings.NeedsVelocity | src/parser/src/first_pass/parser_settings.rs:89-96 | velocity is needed exactly when some wanted player prop contains "velo" |
| ParserSettings.VelocityPropAnywhere | src/parser/src/first_pass/parser_settings.rs:89-96 | one "velo" prop anywhere in the list is enough |
| ParserSettings.CheckMultithreadability | src/parser/src/first_pass/parser_settings.rs:157-164 | a parse is multithreadable exactly when no wanted player prop is in the non-multithreadable table |
| ParserSettings.StripFriendlyPrefix | src/parser/src/first_pass/parser_settings.rs:169-170 | a "Weapon." or "Grenade." prefix is removed and any other name is kept |
| ParserSettings.StripWeaponPrefix | src/parser/src/first_pass/parser_settings.rs:182 | only a "Weapon." prefix is removed |
| ParserSettings.StripPrefixRoundTrip | src/parser/src/first_pass/parser_settings.rs:169-170 | removing the prefix from a prefixed name gives the bare name back |
| ParserSettings.MapKeepsGrenadePrefix | src/parser/src/first_pass/parser_settings.rs:182 | the map version keeps a "Grenade." prefix that the list version removes |
| ParserSettings.RealName | src/parser/src/first_pass/parser_settings.rs:171-174 | a friendly name maps to its real name and any other name is kept |
| ParserSettings.RmUserFriendlyNames | src/parser/src/first_pass/parser_settings.rs:166-177 | never fails, keeps the list's length, and turns each name into the real name of its stripped form |
| ParserSettings.MapKeys | src/parser/src/first_pass/parser_settings.rs:181-186 | one key per entry, each the real name of the entry's stripped name |
| ParserSettings.RmMapUserFriendlyNames | src/parser/src/first_pass/parser_settings.rs:179-189 | never fails; the keys are exactly the renamed keys; an entry whose key is not renamed again later keeps its value |
| ParserSettings.NewFirstPassParser | src/parser/src/first_pass/parser_settings.rs:99-155 | entity parsing is on; the multithreading and velocity flags follow the wanted player props; wanted players and ticks become sets; the controller starts empty at the normal base id, consistent, and without velocity |
| StringTables.MaskUserid | src/parser/src/first_pass/stringtables.rs:189 | `userid & 0xff` is the residue of the user id modulo 256, also for negative ids |
| StringTables.ParseUserinfo | src/parser/src/first_pass/stringtables.rs:183-191 | an undecodable player info is MalformedMessage; otherwise steam id, name and HLTV flag are copied and the user id is masked to one byte |
| StringTables.Register | src/parser/src/first_pass/stringtables.rs:156-168 | only a "userinfo" table adds players and only an "instancebaseline" table adds baselines; nothing is removed; every new player has a one-byte user id equal to its key and a non-zero steam id; every decodable player and every numeric key ends up registered |
| StringTables.LastBaselineWins | src/parser/src/first_pass/stringtables.rs:163-167 | the baseline of a class id is the value of the last entry whose key parses to it |
| StringTables.LaterOthersKeepBaseline | src/parser/src/first_pass/stringtables.rs:163-167 | entries for other class ids leave an existing baseline alone |
| StringTables.IndexStep | src/parser/src/first_pass/stringtables.rs:94-97 | the index moves on by at least one and at most 2^32 |
| StringTables.NextIndex | src/parser/src/first_pass/stringtables.rs:94-97 | the index stays an i32 |
| StringTables.NextIndexAdvances | src/parser/src/first_pass/stringtables.rs:94-97 | while it does not overflow the index strictly increases by the step |
| StringTables.PushHistory | src/parser/src/first_pass/stringtables.rs:124-127 | the key is appended; once 32 keys are held the oldest is dropped, so at most 32 are kept |
| StringTables.FullHistoryKeepsNewest | src/parser/src/first_pass/stringtables.rs:124-127 | a full history holds exactly the newest 32 keys |
| StringTables.HistoryPrefix | src/parser/src/first_pass/stringtables.rs:115-119 | the copied part of a remembered key is a prefix of it: the whole key when `length` exceeds its UTF-8 byte length, otherwise the prefix whose UTF-8 bytes number exactly `length`, or nothing when byte `length` falls inside a character (`get(0..length)` fails and `unwrap_or("")` applies) |
| StringTables.HistoryPrefixAtBoundary | src/parser/src/first_pass/stringtables.rs:118 | a length at a character boundary copies exactly the characters before it |
| StringTables.HistoryPrefixAscii | src/parser/src/first_pass/stringtables.rs:115-119 | for an ASCII key the copy is its first `length` characters, or the whole key when it is shorter |
| StringTables.ReadKey | src/parser/src/first_pass/stringtables.rs:101-122 | reading a key never changes the stream and stops after the flag, the position and length when the flag is set, and a zero-terminated string, whatever the history holds; without history the key is that string decoded lossily; a position past the history gives the fresh string alone |
| StringTables.HistoryKeyStartsWithPrefix | src/parser/src/first_pass/stringtables.rs:105-121 | a key that refers back to a remembered key starts with that key's copied prefix |
| StringTables.ValueSize | src/parser/src/first_pass/stringtables.rs:133-145 | a fixed-size table's value has the declared size in bytes and is not compressed; only flag bit 0 allows compression; the 17-bit size is below 2^17 bytes |
| StringTables.ReadValue | src/parser/src/first_pass/stringtables.rs:129-155 | a value longer than the remaining stream fails; an uncompressed value has exactly the announced length; failures are MalformedMessage or a failed byte read |
| StringTables.ReadUpdate | src/parser/src/first_pass/stringtables.rs:89-170 | the index moves on by the read step; the update succeeds exactly when its fields fit the stream, and stops where they end; an entry has the new index and pushes its key on the history; without a key the history is kept |
| StringTables.AscendingSnoc | src/parser/src/first_pass/stringtables.rs:169 | appending an entry with a larger index keeps the entries ascending |
| StringTables.SpanStep | src/parser/src/first_pass/stringtables.rs:94-97 | while the steps so far stay within i32 the index is -1 plus their sum and a newly kept entry is above every earlier one |
| StringTables.NextEntries | src/parser/src/first_pass/stringtables.rs:89-170 | one iteration keeps the loop's invariant with the running sum moved on by this update's index step, adds at most one entry, and leaves the sum of the steps still to come short by exactly that step |
| StringTables.ParseEntries | src/parser/src/first_pass/stringtables.rs:84-171 | at most `n_updates` entries, each with an i32 index; the entries are in strictly ascending index order whenever -1 plus the sum of the index steps the message encodes stays within i32 |
| StringTables.ParseStringTable | src/parser/src/first_pass/stringtables.rs:74-181 | exactly one table is appended with the message's settings and at most `n_updates` entries; players change only for "userinfo" and baselines only for "instancebaseline"; every new player has a one-byte user id and a non-zero steam id |
| StringTables.CreateData | src/parser/src/first_pass/stringtables.rs:57-62 | uncompressed data is used as it is, and a failed decompression is MalformedMessage |
| StringTables.ParseCreateStringTableFirst | src/parser/src/first_pass/stringtables.rs:51-73 | an undecodable message is MalformedMessage; tables other than "userinfo" and "instancebaseline" are skipped; the others are appended with their settings |
| StringTables.ParseCreateStringTableSecond | src/parser/src/first_pass/stringtables.rs:212-230 | an undecodable message is MalformedMessage; every table is appended with its settings |
| StringTables.UpdateStringTableFirst | src/parser/src/first_pass/stringtables.rs:35-49 | an undecodable message is MalformedMessage; an unknown table id is StringTableNotFound; otherwise a table with the known table's settings is appended |
| StringTables.UpdateStringTableSecond | src/parser/src/first_pass/stringtables.rs:194-211 | an undecodable message is MalformedMessage; an unknown table id is silently skipped; otherwise a table with the known table's settings is appended |
| OrderedIds.SortedIds | src/parser/src/second_pass/parser_settings.rs:45-55 | the keys of a `BTreeMap` or the elements of a `BTreeSet` are walked in strictly ascending order, each exactly once, and every element is visited |
| OrderedIds.Least | src/parser/src/second_pass/parser_settings.rs:45-55 | a non-empty set of ids has a least element |
| OrderedIds.LeastUnique | src/parser/src/second_pass/parser_settings.rs:45-55 | that least element is unique |
| OrderedIds.SmallerIdComesEarlier | src/parser/src/second_pass/parser_settings.rs:45-55 | every id of the set below the one visited at position `i` is visited before position `i` |
| CollectData.GetPropFromEnt | src/parser/src/second_pass/collect_data.rs:138-146 | a missing entity is EntityNotFound, a missing prop is PropNotFound, and otherwise the stored value is returned |
| CollectData.GetPropAgreesWithTracker | src/parser/src/second_pass/collect_data.rs:138-146 | the lookup succeeds exactly when the tracker holds the prop, with the same value |
| CollectData.ReadsBackInsertedField | src/parser/src/second_pass/collect_data.rs:138-146 | a value stored by `insert_field` under a parsed id reads back unchanged |
| CollectData.GetControllerProp | src/parser/src/second_pass/collect_data.rs:183-188 | without a controller id the error is ControllerEntityIdNotSet; otherwise the prop is read from the controller entity |
| CollectData.GetRulesProp | src/parser/src/second_pass/collect_data.rs:177-182 | without a rules entity the error is RulesEntityIdNotSet; otherwise the prop is read from the rules entity |
| CollectData.HandleEntity | src/parser/src/second_pass/collect_data.rs:1000 | `handle & 0x7FF` is an entity index below 2048 |
| CollectData.FindWeaponProp | src/parser/src/second_pass/collect_data.rs:992-1013 | every failure of the active-weapon chain is reported: no special id, the player's lookup error, a non-u32 handle, and the weapon's missing entity or prop renamed to their weapon errors; otherwise the weapon's value |
| CollectData.FindTeamProp | src/parser/src/second_pass/collect_data.rs:1014-1038 | the player's team number must be a u32 from 1 to 3 whose team entity is known; each other case has its own error; otherwise the prop comes from the team entity |
| CollectData.RecordedTeamServesItsPlayers | src/parser/src/second_pass/collect_data.rs:1014-1038 | after a team entity with number n is recorded, team props of a player on team n are read from that entity |
| CollectData.GetButtonProp | src/parser/src/second_pass/collect_data.rs:164-176 | the button is pressed exactly when the mask shares a bit with its flag; a missing special id, a non-u64 mask and an unknown button are errors |
| CollectData.ButtonPressedByItsFlag | src/parser/src/second_pass/collect_data.rs:164-176 | a mask equal to a button's non-zero flag reads as pressed |
| CollectData.CoordFromCell | src/parser/src/second_pass/collect_data.rs:1134-1146 | a coordinate is cell times 512 minus 16384 plus the offset, given a u32 cell and an f32 offset; the four error cases are told apart |
| CollectData.CoordFromCellInverse | src/parser/src/second_pass/collect_data.rs:1134-1146 | from the coordinate the cell and an in-cell offset are recovered |
| CollectData.CoordExample | src/parser/src/second_pass/collect_data.rs:1134-1146 | cell 10 and offset 42 give -11222 |
| CollectData.CollectCellCoordinate | src/parser/src/second_pass/collect_data.rs:317-406 | a missing cell or offset special id is its own error; otherwise the rounded coordinate, or its error |
| CollectData.CoordinateKeysDistinct | src/parser/src/second_pass/collect_data.rs:317-406 | the player and grenade cell and offset ids of the three axes are six different keys each |
| CollectData.FindPitchOrYaw | src/parser/src/second_pass/collect_data.rs:407-416 | pitch is the x and yaw the y of the eye angles; a missing id, a lookup error or a non-vector value are errors |
| CollectData.FindWeaponName | src/parser/src/second_pass/collect_data.rs:301-316 | a success names a known weapon; a missing item-def id, a non-u32 def and an unmapped def are their own errors |
| CollectData.FindIsAlive | src/parser/src/second_pass/collect_data.rs:639-649 | never fails, and is true exactly when the life state is the u32 0 |
| CollectData.FindIsAirborne | src/parser/src/second_pass/collect_data.rs:471-480 | never fails, and is true exactly when the pawn's ground handle is the airborne constant |
| CollectData.CreateName | src/parser/src/second_pass/collect_data.rs:158-163 | the player's name, or PlayerMetaDataNameNone when there is none |
| CollectData.FirstUserWithSteamid | src/parser/src/second_pass/collect_data.rs:453-457 | the first string-table player with the steam id, or the end of the list |
| CollectData.GetUserid | src/parser/src/second_pass/collect_data.rs:452-459 | succeeds exactly when some string-table player has the steam id, with the user id of the first one; otherwise UseridNotFound |
| CollectData.FindAgentSkin | src/parser/src/second_pass/collect_data.rs:544-557 | the agent name of the controller's u32 index, with separate errors for a missing id, a failed lookup, a wrong variant and an unknown index |
| CollectData.IntToString | src/parser/src/second_pass/collect_data.rs:465 | the decimal form of an i32, with a minus sign for negatives |
| CollectData.FindPlayerColor | src/parser/src/second_pass/collect_data.rs:460-470 | succeeds exactly for an i32 controller value: its color name, or its decimal form when unnamed; otherwise UseridNotFound |
| CollectData.FindSkinFloat | src/parser/src/second_pass/collect_data.rs:481-486 | without a pawn the error is PlayerNotFound; otherwise the active weapon's float prop |
| CollectData.Xuid | src/parser/src/second_pass/collect_data.rs:899 | `(high << 32) \| low` is a u64 |
| CollectData.FindWeaponOriginalOwner | src/parser/src/second_pass/collect_data.rs:880-901 | both special ids, both weapon props and both u32 variants are checked in order, each with its own error; otherwise the decimal of the combined xuid |
| CollectData.XuidRoundTrip | src/parser/src/second_pass/collect_data.rs:899-900 | the decimal string of the combined xuid gives back the high and low halves |
| CollectData.FindSticker | src/parser/src/second_pass/collect_data.rs:520-535 | a sticker exactly when its four props are f32s; the wear is never negative and is kept when it is not negative; id, x and y are copied |
| CollectData.StickersIn | src/parser/src/second_pass/collect_data.rs:506-519 | at most one sticker per slot, none with negative wear |
| CollectData.FullSlotsGiveAllStickers | src/parser/src/second_pass/collect_data.rs:506-519 | when every slot holds a sticker, every slot is listed |
| CollectData.FindStickersFromActiveWeapon | src/parser/src/second_pass/collect_data.rs:487-504 | errors for a missing active-weapon id, a missing pawn, a failed lookup and a non-u32 handle; otherwise the stickers of the weapon entity, at most six |
| CollectData.ControllerUser | src/parser/src/second_pass/game_events.rs:175-182 | a player whose controller is the given id, or none exactly when no player has it |
| CollectData.ControllerUserIsLowest | src/parser/src/second_pass/game_events.rs:175-182 | walking `players` in ascending entity-id order, the player found has the controller and no player with a lower entity id has it; none is found exactly when no player has it |
| CollectData.SpottedSteamids | src/parser/src/second_pass/collect_data.rs:659-669 | a steam id for exactly the set bits of the mask whose controller has a player, each the steam id of the player `find_user_by_controller_id` finds in ascending entity-id order |
| CollectData.EmptyMaskSpotsNobody | src/parser/src/second_pass/collect_data.rs:659-669 | an empty mask spots no one |
| CollectData.FindSpotted | src/parser/src/second_pass/collect_data.rs:650-658 | a failed prop lookup passes its error on; a non-u32 value is SpottedIncorrectVariant; a u32 mask becomes the steam ids of its 16 bits, each found in ascending entity-id order |
| CollectData.FindC4Owner | src/parser/src/second_pass/collect_data.rs:870-879 | the owner is an entity index below 2048 |
| CollectData.SlotEntity | src/parser/src/second_pass/collect_data.rs:684-687 | an inventory slot names an entity index below 2^14 |
| CollectData.SlotEntities | src/parser/src/second_pass/collect_data.rs:682-704 | at most one entity per slot |
| CollectData.DedupSameElements | src/parser/src/second_pass/collect_data.rs:689-692 | skipping repeated entities keeps exactly the same entities |
| CollectData.DedupDistinct | src/parser/src/second_pass/collect_data.rs:689-692 | no entity is listed twice |
| CollectData.Equipment | src/parser/src/second_pass/collect_data.rs:841-868 | at most two defs per weapon, all known weapons, and two only for a flashbang |
| CollectData.EquipmentOf | src/parser/src/second_pass/collect_data.rs:841-868 | every def listed is a known weapon |
| CollectData.ScanStep | src/parser/src/second_pass/collect_data.rs:682-704 | each slot adds its entity and its equipment only when the entity is new |
| CollectData.SlotCount | src/parser/src/second_pass/collect_data.rs:682 | `1..max + 1` has `max` slots, and none when `max + 1` wraps at u32::MAX |
| CollectData.InventoryDefs | src/parser/src/second_pass/collect_data.rs:670-706 | a dead player has no inventory; a missing or non-u32 slot count is InventoryMaxNotFound; every def is a known weapon |
| CollectData.ScanInventory | src/parser/src/second_pass/collect_data.rs:670-706 | the loop computes the inventory definition |
| CollectData.SetBitBits | src/parser/src/second_pass/collect_data.rs:791 | `mask \| 1 << k` has bit k and the old bits and no others |
| CollectData.DefMask | src/parser/src/second_pass/collect_data.rs:782-809 | the bitmask fits in a u64 |
| CollectData.DefMaskBits | src/parser/src/second_pass/collect_data.rs:782-809 | bit j is set exactly when some def is j modulo 64, as a release build shifts |
| CollectData.FindMyInventory | src/parser/src/second_pass/collect_data.rs:670-706 | one name per inventory definition, in order, each the weapon name of that definition; empty for a dead player; fails exactly when the inventory does |
| CollectData.FindMyInventoryAsIds | src/parser/src/second_pass/collect_data.rs:707-743 | the def ids of the inventory, empty for a dead player; fails exactly when the inventory does |
| CollectData.FindMyInventoryAsBitmask | src/parser/src/second_pass/collect_data.rs:744-781 | the bitmask of the inventory's defs, 0 for a dead player; fails exactly when the inventory does |
| CollectData.CreateCustomProp | src/parser/src/second_pass/collect_data.rs:417-451 | float-based props come from the float parameter, entity_id is the entity id, and is_alive and is_airborne never fail |
| CollectData.FindProp | src/parser/src/second_pass/collect_data.rs:123-137 | tick, steamid and game time never fail; name fails exactly without a name; an unknown custom name is UnknownCustomPropName |
| CollectData.PlayerPropIsStored | src/parser/src/second_pass/collect_data.rs:128 | a player prop is exactly what the pawn entity stores |
| CollectData.ControllerPropIsStored | src/parser/src/second_pass/collect_data.rs:133 | a controller prop is found exactly when the controller entity stores it |
| CollectData.ToOption | src/parser/src/second_pass/collect_data.rs:109-116 | a success is pushed as Some of its value and a failure as None |
| CollectData.PropRows | src/parser/src/second_pass/collect_data.rs:86-119 | one push per prop info, under its id, into the player's target |
| CollectData.PropRowsValues | src/parser/src/second_pass/collect_data.rs:98-116 | each push holds the looked-up value or None |
| CollectData.PlayerRows | src/parser/src/second_pass/collect_data.rs:86-96 | a player outside the wanted players gets no pushes; otherwise one per prop info |
| CollectData.PlayersRowsStep | src/parser/src/second_pass/collect_data.rs:72-120 | the pushes of a player list are those of its first player followed by the rest |
| CollectData.RowsPerQualifyingPlayer | src/parser/src/second_pass/collect_data.rs:72-120 | while every wanted state holds, each wanted player adds one push per prop info |
| CollectData.FailedStateEndsTick | src/parser/src/second_pass/collect_data.rs:75-84 | a player whose wanted state fails ends the tick: no later player is collected |
| CollectData.FindOwnerEntid | src/parser/src/second_pass/collect_data.rs:189-199 | the owner is an entity index below 2048, and a missing owner id is GrenadeOwnerIdNotSet |
| CollectData.FindPlayerMetadata | src/parser/src/second_pass/collect_data.rs:200-205 | succeeds exactly for a tracked player, returning its metadata; otherwise PlayerNotFound |
| CollectData.OtherProjectileRows | src/parser/src/second_pass/collect_data.rs:272-297 | every prop info outside the eight fixed ids is pushed from the projectile entity, and no fixed id is |
| CollectData.ProjectileRows | src/parser/src/second_pass/collect_data.rs:233-298 | a projectile whose type, thrower steam id or name is missing gets no pushes; otherwise the eight fixed ids come first, holding the thrower's steam id, the tick and the entity id |
| CollectData.ProjectilesRows | src/parser/src/second_pass/collect_data.rs:233-298 | projectile pushes all go to the shared output |
| CollectData.TickRows | src/parser/src/second_pass/collect_data.rs:60-69 | an unwanted tick adds nothing; otherwise the projectile rows, or the player rows, are collected with the entities visited in ascending entity-id order |
| CollectData.ApplyRow | src/parser/src/second_pass/collect_data.rs:101-115 | a push lands in its column of the shared output or of the player's frame, creating either when missing |
| CollectData.UntouchedColumnKept | src/parser/src/second_pass/collect_data.rs:111-115 | a column no push names is left as it was |
| CollectData.CollectEntities | src/parser/src/second_pass/collect_data.rs:60-121 | an unwanted tick leaves the frames alone, and without per-steamid ordering (or while parsing projectiles) the per-player frames do not change |
| CollectData.TargetsShared | src/parser/src/second_pass/collect_data.rs:97-118 | without per-steamid ordering every push goes to the shared output |
| CollectData.PlayersRowsShared | src/parser/src/second_pass/collect_data.rs:108-118 | without per-steamid ordering player pushes go to the shared output |
| CollectData.SharedRowsKeepFrames | src/parser/src/second_pass/collect_data.rs:101-115 | shared pushes leave the per-player frames alone |
| GameEvents.ParseKey | src/parser/src/second_pass/game_events.rs:1096-1112 | key type codes 1 to 9 give String, F32, I32, I32, I32, Bool, U64, I32, I32 from the matching value slot; any other code gives no value |
| GameEvents.FindUserByUserid | src/parser/src/second_pass/game_events.rs:161-174 | a user whose userid's low byte equals the id is preferred over one whose full userid equals it; no user is found only when neither kind exists |
| GameEvents.MaskedUseridFound | src/parser/src/second_pass/game_events.rs:161-166 | when every userid fits in a byte, looking up a userid that is present finds that very userid |
| GameEvents.EntityIdFromUserid | src/parser/src/second_pass/game_events.rs:183-194 | an entity id is found only through a user the userid lookup finds; it is the player entity of the player with the lowest entity id that carries that user's steamid and has a pawn, and none is found when no such player exists |
| GameEvents.GrenadeOwnerFromGrenade | src/parser/src/second_pass/game_events.rs:257-268 | any owner found is an entity index below 2048 |
| GameEvents.GrenadeOwnerAgrees | src/parser/src/second_pass/game_events.rs:257-268 | the grenade-owner lookup for events finds an owner exactly when the one for projectile rows does, and the same one |
| GameEvents.GenerateEmptyFields | src/parser/src/second_pass/game_events.rs:269-294 | every field is empty, and the last two are the prefix's steamid then name |
| GameEvents.SamePropColumns | src/parser/src/second_pass/game_events.rs:269-294 | a resolved player's prop fields have the same column names, in the same order, as the empty ones for an unresolved player; with no entity they are the empty ones |
| GameEvents.PlayerNameField | src/parser/src/second_pass/game_events.rs:399-417 | the column is prefix_name, and it holds the player's name exactly when the entity is a known player with a name |
| GameEvents.PlayerSteamidField | src/parser/src/second_pass/game_events.rs:418-436 | the column is prefix_steamid, and it holds the steamid as text exactly when the entity is a known player with a steamid |
| GameEvents.ResolvedOrNotSameColumns | src/parser/src/second_pass/game_events.rs:235-250 | whether the player is resolved or not, an event gets the same multiset of column names for that prefix |
| GameEvents.PlayerPrefix | src/parser/src/second_pass/game_events.rs:204-229 | only the player fields get a prefix; entityid gets one only when the event has no userid, and userid_pawn only when it has neither userid nor entityid |
| GameEvents.FindOtherRulesProps | src/parser/src/second_pass/game_events.rs:313-327 | a rules prop gives exactly one column, named by the prop's friendly name |
| GameEvents.FindOtherTeamProps | src/parser/src/second_pass/game_events.rs:328-356 | a team prop gives exactly two columns, the t_ one then the ct_ one |
| GameEvents.TeamColumnsMatchPlayers | src/parser/src/second_pass/game_events.rs:328-356 | the team column for team 2 or 3 holds the value a player row of that team would show for the prop |
| GameEvents.RulesColumnMatchesOutput | src/parser/src/second_pass/game_events.rs:313-327 | the rules column holds the value a player row shows for that rules prop |
| GameEvents.FindExtra | src/parser/src/second_pass/game_events.rs:195-253 | the extra fields always start with the event's tick |
| GameEvents.KeyFields | src/parser/src/second_pass/game_events.rs:101-109 | one field per key, named by the descriptor's key at the same position and holding the key's parsed value |
| GameEvents.RemoveInternal | src/parser/src/second_pass/game_events.rs:33-42 | no kept field has an internal name, every kept field was there, and every field without an internal name is kept |
| GameEvents.CleanField | src/parser/src/second_pass/game_events.rs:132-145 | only an I32 hitgroup changes: it becomes the hitgroup's name from the table, or the number as text when the table lacks it |
| GameEvents.Cleanups | src/parser/src/second_pass/game_events.rs:132-145 | every field is cleaned in place and none is added or dropped |
| GameEvents.ParseEvent | src/parser/src/second_pass/game_events.rs:72-131 | with nothing wanted nothing is decoded or counted; an undecodable message is MalformedMessage; an unknown event id changes nothing; a known one is counted by name; at most one event is stored, clean, and only events decoded before entities are returned |
| GameEvents.UnwantedEventOnlyCounted | src/parser/src/second_pass/game_events.rs:88-94 | a known event that is not wanted is counted and nothing else changes |
| GameEvents.RulesSignals | src/parser/src/second_pass/game_events.rs:1047-1074 | each game-rules signal is raised exactly when the changed prop is its special id, the win reason only for an I32 value, and no purchase signal among them |
| GameEvents.PurchaseSignals | src/parser/src/second_pass/game_events.rs:1075-1089 | each purchase signal is raised exactly when the prop id lies in its block of the flattened vector, and nothing else is raised |
| GameEvents.ListenForEvents | src/parser/src/second_pass/game_events.rs:1039-1094 | no signal without field info; otherwise every signal is raised exactly when its condition on the prop id holds, the round end carrying the entity's value before the change |
| GameEvents.RoundEndSeesBothCounts | src/parser/src/second_pass/entities.rs:255-275 | because signals are taken before the field is stored, the round-end signal sees the old count and the entity then holds the new one |
| GameEvents.PurchaseInfos | src/parser/src/second_pass/game_events.rs:588-597 | exactly the def-index, cost and handle signals are kept, and a sequence of only those passes unchanged |
| GameEvents.BoughtAll | src/parser/src/second_pass/game_events.rs:606-656 | one purchase per buy, each built from that buy's def index, cost, handle and slot |
| GameEvents.CombineOneBuy | src/parser/src/second_pass/game_events.rs:600-660 | the signals of one buy, followed by signals starting a new buy, combine into that buy's purchase followed by the rest's |
| GameEvents.CombineBuysRoundTrip | src/parser/src/second_pass/game_events.rs:585-663 | the signals a sequence of buys raises combine back into exactly those purchases, in order |
| GameEvents.ExtractRoundEnd | src/parser/src/second_pass/game_events.rs:778-785 | the first round-end signal, and none exactly when no signal is a round end |
| GameEvents.ExtractReason | src/parser/src/second_pass/game_events.rs:752-777 | a text value exactly when some win-reason signal is present |
| GameEvents.RoundEndEvent | src/parser/src/second_pass/game_events.rs:786-818 | a round_end event at the current tick exists exactly when there is a round-end signal whose U32 counts step by one |
| GameEvents.RoundIsNewCount | src/parser/src/second_pass/game_events.rs:796-802 | the round the event reports is the new round-end count, also when the count wraps |
| GameEvents.RoundEndStoresNewRound | src/parser/src/second_pass/game_events.rs:786-827 | a wanted round end whose count steps by one stores exactly one event after the existing ones, naming the round the count moved to |
| GameEvents.RoundEndCountsRankUpdate | src/parser/src/second_pass/game_events.rs:823 | as written, a stored round end puts rank_update in the event counter though no rank update was seen |
| GameEvents.AsWrittenOnlyAddsRankUpdate | src/parser/src/second_pass/game_events.rs:786-827 | the code as written stores the same events as the corrected one, and its counter differs by rank_update exactly when an event was stored |
| GameEvents.CreateRoundEnd | src/parser/src/second_pass/game_events.rs:786-827 | round_end is always counted, and the counter gains nothing else; the event is stored only when wanted and the counts step by one |
| GameEvents.FindCurrentRound | src/parser/src/second_pass/game_events.rs:883-894 | a round exists exactly when the rules entity holds an I32 rounds-played prop, and it is an i32 |
| GameEvents.CreateRoundOfficiallyEnded | src/parser/src/second_pass/game_events.rs:829-859 | always counted; one event is appended after the existing ones when wanted, unless the current round is known and at most 1 |
| GameEvents.NoOfficialEndBeforeFirstRound | src/parser/src/second_pass/game_events.rs:836-843 | when no round has been played yet, no round_officially_ended event is stored |
| ParseDemo.ParallelChoice | src/parser/src/parse_demo.rs:61-73 | forcing single-threaded never runs segments in parallel, forcing multi-threaded always does, and the normal mode does exactly when the wanted props allow it |
| ParseDemo.CountZeroIff | src/parser/src/parse_demo.rs:195-197 | no event with a name is counted exactly when no event has that name |
| ParseDemo.RemoveItemSoldEvents | src/parser/src/parse_demo.rs:195-197 | no item_sold event is left, and exactly the item_sold events are gone |
| ParseDemo.RemoveKeepsOrder | src/parser/src/parse_demo.rs:195-197 | removing from a concatenation is removing from each part, so the kept events stay in their order |
| ParseDemo.RemoveKeepsOthers | src/parser/src/parse_demo.rs:195-197 | an event is kept exactly when it was there and is not an item_sold event |
| ParseDemo.NothingSoldNothingRemoved | src/parser/src/parse_demo.rs:195-197 | events without item_sold pass unchanged |
| ParseDemo.RemoveIsIdempotent | src/parser/src/parse_demo.rs:195-197 | removing item_sold events twice is the same as once |
| ParseDemo.ExtractField | src/parser/src/parse_demo.rs:370-377 | the value of the first field with the name, and none when no field has it |
| ParseDemo.ExtractIgnoresLaterFields | src/parser/src/parse_demo.rs:370-377 | once a field with the name is present, fields added after it do not change what is extracted |
| ParseDemo.SellBackSurvivesWasSold | src/parser/src/parse_demo.rs:225-235 | appending the was_sold field does not change the event's tick, steamid or slot as the sell-back helper reads them |
| ParseDemo.HelpersLoseUnparsed | src/parser/src/parse_demo.rs:201-205 | there is one helper per named event exactly when every such event has an I32 tick, a U64 steamid and a U32 slot |
| ParseDemo.EarliestLater | src/parser/src/parse_demo.rs:210-218 | the least tick among the later events of the same steamid and slot, and none exactly when there is no such event |
| ParseDemo.WasSoldMeans | src/parser/src/parse_demo.rs:207-224 | a purchase counts as sold exactly when a later rebuy of its slot exists and some later sell of its slot comes before every later rebuy |
| ParseDemo.MarkPurchases | src/parser/src/parse_demo.rs:225-235 | every event but an item_purchase is unchanged, and each item_purchase gains the was_sold verdict for itself |
| ParseDemo.AddSellColumn | src/parser/src/parse_demo.rs:198-237 | the same number of events, each keeping its name and tick |
| ParseDemo.PairingNeedsTheSells | src/parser/src/parse_demo.rs:97-98 | were the item_sold events removed first, every purchase would be marked not sold |
| ParseDemo.AttachPanicsIff | src/parser/src/parse_demo.rs:225-235 | attaching the verdicts panics exactly when there are fewer verdicts than item_purchase events |
| ParseDemo.AttachMatchesMarks | src/parser/src/parse_demo.rs:198-237 | when every purchase parses, the source's index-based attachment gives exactly the per-purchase marks |
| ParseDemo.AsWrittenPanicsOnUnparsedPurchase | src/parser/src/parse_demo.rs:198-237 | as written, the column panics exactly when some item_purchase lacks a parseable tick, steamid or slot, and otherwise agrees with the corrected column |
| ParseDemo.UnparsedPurchasePanics | src/parser/src/parse_demo.rs:232 | a lone item_purchase with only a tick makes the code as written panic, while the corrected column marks it not sold |
| ParseDemo.WantedRowsFrom | src/parser/src/parse_demo.rs:243-253 | exactly the rows from the start position whose tick is wanted, in increasing order |
| ParseDemo.RmUnwantedTicks | src/parser/src/parse_demo.rs:238-262 | no tick filter gives no new frame; otherwise the slice panics exactly when some column is too short for the wanted rows, and every column of the result has one cell per wanted row |
| ParseDemo.KeptRowsAreWantedTicks | src/parser/src/parse_demo.rs:238-262 | every kept tick is wanted, every row with a wanted tick is kept, and every column's kth cell comes from the kth kept row |
| ParseDemo.RectangularFrameNeverPanics | src/parser/src/parse_demo.rs:238-262 | when no column is shorter than the tick column, slicing succeeds |
| ParseDemo.Joined | src/parser/src/parse_demo.rs:330-345 | a key has a joined column exactly when some part has it |
| ParseDemo.AllKeys | src/parser/src/parse_demo.rs:334-344 | exactly the keys of any part |
| ParseDemo.CombineDfs | src/parser/src/parse_demo.rs:317-346 | the keys are those of any part except, when asked, steamid and name, each holding its parts' columns joined |
| ParseDemo.JoinedConcatenates | src/parser/src/parse_demo.rs:330-345 | when every part types a key the same way, the joined column has that type and holds all parts' cells in part order |
| ParseDemo.NoKeyNoCells | src/parser/src/parse_demo.rs:330-345 | a key no part has contributes no cells |
| ParseDemo.InsertBySorted | src/parser/src/parse_demo.rs:266 | inserting into a sorted sequence keeps it sorted by the key |
| ParseDemo.SortBy | src/parser/src/parse_demo.rs:266 | the result is sorted by the key and is a permutation of the input |
| ParseDemo.SortedByUnique | src/parser/src/parse_demo.rs:266 | with distinct keys there is only one sorted permutation |
| ParseDemo.StrLessTotal | src/parser/src/parse_demo.rs:271 | any two names are equal or ordered one way or the other |
| ParseDemo.InsertName | src/parser/src/parse_demo.rs:271-272 | inserting a name into a strictly sorted list keeps it strictly sorted and adds exactly that name |
| ParseDemo.SortDedup | src/parser/src/parse_demo.rs:270-272 | the names, strictly sorted and without duplicates, no name gained or lost |
| ParseDemo.StrictlySortedUnique | src/parser/src/parse_demo.rs:270-272 | two strictly sorted lists with the same names are equal |
| ParseDemo.RemoveTempProps | src/parser/src/parse_demo.rs:274-279 | exactly the temporary props leave the wanted player props and the prop infos, and nothing else in the controller changes |
| ParseDemo.AllSteamids | src/parser/src/parse_demo.rs:280-286 | exactly the steamids some segment has a per-player frame for |
| ParseDemo.CountersOf | src/parser/src/parse_demo.rs:269 | exactly the event names some segment counted |
| ParseDemo.CombineIgnoresArrivalOrder | src/parser/src/parse_demo.rs:264-316 | segment outputs with distinct positions combine to the same output whatever order they arrive in |
| ParseDemo.SameOutputs | src/parser/src/parse_demo.rs:269-286 | the counted names, prop names and players seen depend only on which outputs there are, not on their order |
| ParseDemo.CombinedOutputContents | src/parser/src/parse_demo.rs:264-316 | the counter and the player frames cover exactly what the segments saw, the prop names come sorted and deduplicated, and no player frame keeps a steamid or name column |
| ParseDemo.FinishOutput | src/parser/src/parse_demo.rs:93-99 | only a panic fails; without a tick filter the frame is untouched; no item_sold event is left, and exactly those are gone |
| VoiceData.I16RoundTrip | src/parser/src/second_pass/voice_data.rs:107-110 | a sample's two little-endian bytes read back as the sample |
| VoiceData.SamplesLeRoundTrip | src/parser/src/second_pass/voice_data.rs:107-110 | the kth pair of bytes of the flattened samples reads back as the kth sample |
| VoiceData.ByteRate | src/parser/src/second_pass/voice_data.rs:80 | the byte rate is computed in u32 and so always fits one |
| VoiceData.BlockAlign | src/parser/src/second_pass/voice_data.rs:81 | the block alignment is computed in u16 and so always fits one |
| VoiceData.WavHeader | src/parser/src/second_pass/voice_data.rs:67-86 | the header is 44 bytes |
| VoiceData.WavBytesChunks | src/parser/src/second_pass/voice_data.rs:67-86 | the header is the RIFF chunk, the fmt head, the rates and the data chunk header, at bytes 0, 12, 24 and 36 |
| VoiceData.WavHeaderRiff | src/parser/src/second_pass/voice_data.rs:69-72 | bytes 0 to 4 are RIFF, bytes 8 to 12 are WAVE, and bytes 4 to 8 read as 36 plus the data size, wrapped to u32 |
| VoiceData.WavHeaderFmt | src/parser/src/second_pass/voice_data.rs:74-77 | bytes 12 to 16 are "fmt ", then a 16-byte chunk size, PCM format 1 and the channel count, little-endian |
| VoiceData.WavHeaderRates | src/parser/src/second_pass/voice_data.rs:78-82 | the sample rate, the byte rate, the block alignment and the bits per sample sit at bytes 24, 28, 32 and 34 |
| VoiceData.WavHeaderData | src/parser/src/second_pass/voice_data.rs:84-85 | bytes 36 to 40 are "data" and bytes 40 to 44 read as the data size |
| VoiceData.Filled | src/parser/src/second_pass/voice_data.rs:58 | the decoder writes into a buffer of 1024 samples |
| VoiceData.DecodeChunk | src/parser/src/second_pass/voice_data.rs:57-65 | fails with MalformedVoicePacket exactly when the decoder fails; otherwise the buffer truncated to the count the decoder reports, holding what it wrote and zeros after |
| VoiceData.SpeakerPayload | src/parser/src/second_pass/voice_data.rs:99-117 | fails only with UnkVoiceFormat or MalformedVoicePacket; otherwise whole samples, two bytes each |
| VoiceData.EnginePacketFails | src/parser/src/second_pass/voice_data.rs:114-116 | a speaker with an Engine-format packet always fails, and with a decoder that never fails that is the only way to fail |
| VoiceData.PacketsOf | src/parser/src/second_pass/voice_data.rs:90-93 | exactly the packets of that xuid |
| VoiceData.PacketsOfKeepsOrder | src/parser/src/second_pass/voice_data.rs:90-93 | grouping commutes with concatenation, so each speaker's packets keep their stream order |
| VoiceData.SpeakerWav | src/parser/src/second_pass/voice_data.rs:119-123 | a speaker's file fails exactly when their payload does, with the same error |
| VoiceData.SpeakerWavSplits | src/parser/src/second_pass/voice_data.rs:119-123 | a speaker's file is named by the xuid and is the 44-byte header for the payload length followed by the payload |
| VoiceData.CollectSpeakersFails | src/parser/src/second_pass/voice_data.rs:127-131 | collecting fails exactly when some speaker fails |
| VoiceData.ConvertVoiceDataToWav | src/parser/src/second_pass/voice_data.rs:88-133 | fails exactly when some speaker's packets do not decode, with UnkVoiceFormat or MalformedVoicePacket; otherwise one file per speaker, each a header followed by that speaker's payload |
| KeyValues.ExtendFrom | src/csgoproto/src/parser.rs:20-27 | only an object extended by an object changes: it gains the other's keys, the other's values winning on shared keys and its own kept elsewhere |
| KeyValues.MergeIntoPerKey | src/csgoproto/src/parser.rs:50-59 | a key is in the merged object exactly when it was already there or some entry has it, and its value is the first value extended by every later one with that key, in order |
| KeyValues.StringAbsorbsNothing | src/csgoproto/src/parser.rs:20-27 | a string value extended by anything stays that string |
| KeyValues.ObjectKeepsKeys | src/csgoproto/src/parser.rs:20-27 | an object extended by anything stays an object and keeps all its keys |
| KeyValues.DuplicateKeys | src/csgoproto/src/parser.rs:46-65 | a key is in an object exactly when some entry has it; a first string value wins over later duplicates, and a first object value keeps its keys while gaining the duplicates' |
| KeyValues.LowercaseIsIdempotent | src/csgoproto/src/parser.rs:138 | lowercasing gives a lowercase key, leaves a lowercase key as it is, and applied twice is applied once |
| KeyValues.MergeKeepsLowercase | src/csgoproto/src/parser.rs:50-59 | merging entries with lowercase keys into an object with lowercase keys keeps every key lowercase |
| KeyValues.Multispace0 | src/csgoproto/src/parser.rs:142 | what is left never starts with whitespace |
| KeyValues.TillLineEnd | src/csgoproto/src/parser.rs:142 | what is left is empty or starts with a line end |
| KeyValues.SkipSepIsSkip | src/csgoproto/src/parser.rs:141-143 | the whitespace-then-comments separator skips exactly what a single loop over whitespace characters and line comments skips |
| KeyValues.TillLineEndSkipsText | src/csgoproto/src/parser.rs:142 | a comment's text is skipped up to the line end that closes it |
| KeyValues.SkipSepSkipsGaps | src/csgoproto/src/parser.rs:141-143 | any run of whitespace and closed line comments in front of the text is skipped as if absent |
| KeyValues.SkipSepStops | src/csgoproto/src/parser.rs:141-143 | what the separator leaves starts with neither whitespace nor a comment |
| KeyValues.HexValue | src/csgoproto/src/parser.rs:122 | a value exactly when every character is a hex digit |
| KeyValues.FromStrRadix16 | src/csgoproto/src/parser.rs:122 | any value parsed fits in a u16 |
| KeyValues.U16HexAsWritten | src/csgoproto/src/parser.rs:121-123 | as written, a value below 0x10000 from the first four characters, the rest after them |
| KeyValues.U16Hex | src/csgoproto/src/parser.rs:121-123 | a value exactly when the first four characters are hex digits; it fits in a u16 and the rest follows them |
| KeyValues.U16HexRoundTrip | src/csgoproto/src/parser.rs:121-123 | four hex digits written for any u16 read back as it, in the corrected and the as-written reader alike |
| KeyValues.U16HexAgreesWithoutPlus | src/csgoproto/src/parser.rs:121-123 | the two readers differ only on text starting with a plus sign |
| KeyValues.PlusSignPassesAsWritten | src/csgoproto/src/parser.rs:122 | as written, a plus sign and three hex digits read as those three digits' value, while the corrected reader refuses them |
| KeyValues.PlusSignExample | src/csgoproto/src/parser.rs:122 | "+041" reads as 0x41 as written and is refused by the corrected reader |
| KeyValues.SurrogatesRoundTrip | src/csgoproto/src/parser.rs:110-114 | splitting a supplementary code point into surrogates and combining them gives it back, and combining then splitting gives the surrogates back |
| KeyValues.UnicodeEscape | src/csgoproto/src/parser.rs:106-119 | a read escape consumes at least four characters |
| KeyValues.SurrogatePair | src/csgoproto/src/parser.rs:108-114 | a read pair consumes at least ten characters |
| KeyValues.Character | src/csgoproto/src/parser.rs:82-104 | a read character consumes input, and a failing character never cuts |
| KeyValues.StringLit | src/csgoproto/src/parser.rs:67-80 | refused without consuming exactly when the text does not open with a quote; a read string consumes both quotes |
| KeyValues.SimpleEscapes | src/csgoproto/src/parser.rs:86-97 | a backslash before a quote, apostrophe, backslash, slash, b, f, n, r or t reads as that escape's character |
| KeyValues.UnknownEscape | src/csgoproto/src/parser.rs:84-101 | a backslash before any other letter but u and x reads no character |
| KeyValues.CharsPlainPrefix | src/csgoproto/src/parser.rs:70-76 | characters other than quote and backslash read as themselves |
| KeyValues.UnknownEscapeCuts | src/csgoproto/src/parser.rs:67-80 | once the quote is open, an unknown escape fails the whole string without backtracking |
| KeyValues.BmpEscape | src/csgoproto/src/parser.rs:107 | a u escape of a code point outside the surrogate range reads as that character |
| KeyValues.PairReads | src/csgoproto/src/parser.rs:108-114 | a high and a low surrogate escape in a row read as the character they combine to |
| KeyValues.SurrogatePairEscape | src/csgoproto/src/parser.rs:106-119 | every supplementary character written as a surrogate-pair escape reads back as itself |
| KeyValues.LoneHighSurrogate | src/csgoproto/src/parser.rs:106-119 | a high surrogate not followed by a second u escape reads no character |
| KeyValues.CharsReadsEscaped | src/csgoproto/src/parser.rs:70-76 | the characters of an escaped string read back as the string, stopping at the closing quote |
| KeyValues.StringRoundTrip | src/csgoproto/src/parser.rs:67-80 | every string, escaped and quoted, reads back as itself with the rest untouched |
| KeyValues.KeyValue | src/csgoproto/src/parser.rs:137-139 | a read pair consumes input, its key is lowercase and so are the keys inside its value |
| KeyValues.JsonValueOf | src/csgoproto/src/parser.rs:46-65 | a read value consumes input and all its keys are lowercase |
| KeyValues.ObjectOf | src/csgoproto/src/parser.rs:125-135 | refused without consuming exactly when the text does not open with a brace; a read object consumes input and its keys are lowercase |
| KeyValues.Entries | src/csgoproto/src/parser.rs:128-131 | the entry list never backtracks: no entry is an empty list, and a failure after an entry cuts |
| KeyValues.MoreEntries | src/csgoproto/src/parser.rs:128-131 | after an entry, the loop never backtracks and any keys it reads are lowercase |
| KeyValues.Document | src/csgoproto/src/parser.rs:31-44 | a parsed document is an object holding exactly one pair, all keys lowercase |
| KeyValues.ObjectSkipsLeadingGaps | src/csgoproto/src/parser.rs:125-135 | whitespace and closed line comments after an opening brace do not change the object read |
| KeyValues.TranslationOf | src/csgoproto/src/parser.rs:149-162 | a translation exactly when the document has a lang object holding a tokens object, and its tokens are those |
| KeyValues.TrimHashes | src/csgoproto/src/parser.rs:166 | a suffix of the key that does not start with a hash |
| KeyValues.Get | src/csgoproto/src/parser.rs:165-175 | a token exactly when the key, without leading hashes and lowercased, names a string token, and then that string |
| KeyValues.LowercaseKeepsHashes | src/csgoproto/src/parser.rs:166 | trimming hashes and lowercasing can be done in either order |
| KeyValues.GetIgnoresHash | src/csgoproto/src/parser.rs:166 | a leading hash does not change the lookup |
| KeyValues.GetIgnoresCase | src/csgoproto/src/parser.rs:166 | the case of the key does not change the lookup |
| KeyValues.GetFindsTokens | src/csgoproto/src/parser.rs:165-175 | a lowercase key without a hash finds its string token |
| KeyValues.GameItemsOf | src/csgoproto/src/parser.rs:180-191 | game items exactly when the document has an items_game object, and its entries are those |
| KeyValues.GetSection | src/csgoproto/src/parser.rs:194-199 | a section exactly when the key names an object, and then that object's entries |

## Left out

Members whose contracts are deliberately narrower than the code, or that model the intended behaviour instead of the code as written:

- BitReader.ReadVarint32: decodes ZigZag as intended (logical shift); `read_varint32` in src/parser/src/first_pass/read_bits.rs:86-90 shifts an `i32` arithmetically, which differs for raw words of 2^31 and above (see Findings: `BitReader.ZigZagAsWritten`). Decoders.Decode's Signed arm and the PathOps non-topological deltas read through this corrected function.
- Sendtables.FindVectorType: hands out quantized-float decoders through the corrected `Sendtables.FindFloatDecoder`, which keeps the whole index; the code truncates it to `u8` (src/parser/src/first_pass/sendtables.rs:653), which only matters once a schema holds more than 256 quantized floats (see Findings).
- Sendtables.FindDecoder: the same corrected quantized-float index as `Sendtables.FindVectorType`; the base-type decoder table (TYPEHM's decoder half) is its `baseTypeDecoders` parameter.
- U128Arrays.IncrIdx: writes through the corrected `U128Arrays.Set`, which masks the value to 16 bits; the code's `set` sign-extends a negative value and clobbers the higher slots (src/parsing/u128arr.rs:53; see Findings).
- ParseDemo.FinishOutput: pairs sells with purchases through the corrected `ParseDemo.AddSellColumn`; the code panics when an item_purchase event lacks a parseable tick, steamid or slot (src/parser/src/parse_demo.rs:232; see Findings).
- KeyValues.UnicodeEscape: reads its four hex digits through the corrected `KeyValues.U16Hex`, which refuses a leading '+'; `from_str_radix` in the code accepts one (src/csgoproto/src/parser.rs:122; see Findings).
- KeyValues.SurrogatePair: the same corrected `KeyValues.U16Hex` as `KeyValues.UnicodeEscape`.
- GameEvents.CreateRoundEnd: counts only "round_end"; the code also records "rank_update" in the counter when it emits a round end (src/parser/src/second_pass/game_events.rs:823; see Findings).
- Decoders.Decode: the nine float arms (quantized float, vector normal, vector and scalar bit coord, simulation time, and the four qangle decoders) go to a `FloatArms` parameter standing for src/parser/src/second_pass/decoder.rs:208-396 and src/parsing/q_float.rs; their f32 arithmetic is not modelled, and for them Decode promises only the quantized-float key check.
- BitReader.BitAt: bits past the end of the stream read as zero, since `bitter`'s unchecked reads never fail; the refill/peek/consume cache is not modelled.
- FirstPass.EndsEarly: compares with exact rationals, where src/parser/src/first_pass/parser.rs:305-310 computes the 10% margin in `f32`; rounding at the boundary may differ.
- FirstPass.ExpectedLength: the u32 length plus 18 wraps at 32 bits as a release build computes it (src/parser/src/first_pass/parser.rs:304); a debug build panics on overflow.
- Ints.WrapU32: every u32 addition, subtraction and shift the code performs unchecked is written as release-build wrapping; a debug build would panic instead.
- Ints.WrapI32: likewise for i32 arithmetic, including the PathOps slot updates and the entity and string-table index deltas.
- FirstPass.PassHooks: protobuf decoding, snappy decompression and the per-message parsers of the first pass are parameters.
- SecondPass.SecondHooks: protobuf decoding, snappy decompression and the per-message handlers of the second pass are parameters.
- CollectData.Lookups: the button map, weapon names, agent names, player colours and sticker names are a parameter.
- CollectData.FloatOps: f32 values, rounding and the float-built custom properties (velocity, skin ids through `fract`, the paint seed) are a parameter; `CollectData.CoordFromCell` is stated over the reals without f32 rounding.
- GameEvents.EventTables: the HIT_GROUP, ROUND_WIN_REASON and ROUND_WIN_REASON_TO_WINNER tables events read are a parameter.
- PropControl.Tables: the button names, CUSTOM_PLAYER_PROP_IDS, TYPEHM, the special weapon and non-weapon names and the property names whose ids `handle_prop` fixes are a parameter; `PropControl.SourceNames` pins the fixed names to the code's constants.
- VoiceData.Codec: opus decoding is a parameter (an initial state and a decode step).
- Entities.RecordPlayer: removes every player with the same steamid before inserting, whereas `should_remove` (src/parser/src/second_pass/entities.rs:500-508) removes only the first match in ascending entity-id order (`players` is a `BTreeMap`); the two agree whenever steamids are unique, which `Entities.AtMostOneWithSteamid` and `Entities.RecordPlayerKeepsUnique` show the tracker maintains.
- KeyValues.MoreEntries: reports a Cut when a separator consumes nothing, as winnow's `separated` does in a release build; a debug build asserts instead.
- VoiceData.ByteRate: the product wraps at 32 bits and `VoiceData.BlockAlign` at 16 bits, as a release build computes them.

Operations not modelled:

- Threads, rayon `par_iter`, `thread::scope` and channels in src/parser/src/parse_demo.rs and `FrameParser::par_start`: only the per-segment logic and the merge (`ParseDemo.CombineOutputs`) are modelled; arrival order is an input.
- File and memory-mapped I/O, and `read_file`'s byte-order-mark trim and its rewrite of ` n\` into `\n` in src/csgoproto/src/parser.rs: the model starts from the text.
- The Huffman table of `parse_paths` (src/parser/src/second_pass/parser_settings.rs:338-345): opcodes arrive already decoded.
- `parse_voice_chunk_old_format`: `convert_voice_data_to_wav` never calls it; both supported formats go through the new-format decoder.
- Event synthesis not covered by the model: `emit_events`, `create_custom_event_weapon_sold` and `create_custom_event_weapon_purchase` (their input, `combine_purchase_events`, is modelled), match end, chat and server messages, round start, rank update, `parse_convars`, `resolve_wrong_order_event`, `player_from_steamid32` and the `game_time` field of `find_non_player_props` (f32 arithmetic).
- Outputs other than ticks, events and voice: chat, item drops, skins, convars and projectile trajectories.
- The static tables of crate::maps and csgoproto::maps themselves: every table is a parameter, as listed above.

## Findings

| source | as written | input that shows it | evidently intended | confidence | as-written member | corrected member |
|---|---|---|---|---|---|---|
| src/parser/src/first_pass/read_bits.rs:86-90 | `read_varint32` casts the raw u32 to `i32` and shifts it right arithmetically before undoing ZigZag | raw word 0x8000_0000 decodes to -2^30 (intended 2^30); 0x8000_0001 decodes to 0x3FFF_FFFF (intended -0x4000_0001) | ZigZag as in the "Signed Integers" section of the Protocol Buffers encoding guide: 2k decodes to k, 2k+1 to -(k+1) | high, not executed | BitReader.ZigZagAsWritten, shown by BitReader.ZigZagAsWrittenCounterexample | BitReader.ReadVarint32, with BitReader.ZigZagDecodeEncode |
| src/parser/src/first_pass/sendtables.rs:653 | the quantized-float decoder stores the map index as `idx as u8` | the 257th quantized float (index 256) gets decoder index 0 and decodes with the first float's parameters | each quantized-float decoder keeps the index its parameters were stored under | medium, not executed | Sendtables.FindFloatDecoderU8, shown by Sendtables.QuantizedIndexAliases | Sendtables.FindFloatDecoder, with Sendtables.QuantizedDecoderFindsOwnParams |
| src/parsing/u128arr.rs:53 | `set` widens a negative `i32` with `val as u128`, which sign-extends | `set(1, -1)` on a fresh array makes `get(2)` read -1 although slot 2 was never written | `set` changes only the 16 bits of its own slot | high, not executed | U128Arrays.SetAsWritten, shown by U128Arrays.SetAsWrittenClobbers | U128Arrays.Set, with U128Arrays.SetThenGet |
| src/parser/src/parse_demo.rs:232 | `was_sold` has one verdict per parseable purchase, but it is indexed once per item_purchase event | a lone item_purchase event carrying only a tick field: the verdict list is empty and `was_sold[0]` panics | every item_purchase event gets a was_sold field; an unparseable one is not sold | medium, not executed | ParseDemo.AddSellColumnAsWritten, shown by ParseDemo.UnparsedPurchasePanics | ParseDemo.AddSellColumn, with ParseDemo.WasSoldMeans |
| src/csgoproto/src/parser.rs:122 | `u16_hex` takes four characters and hands them to `u16::from_str_radix`, which accepts a leading '+' | the escape `\u+041` reads as U+0041 | exactly four hex digits, as section 7 of RFC 8259 requires of a `\u` escape | high, not executed | KeyValues.U16HexAsWritten, shown by KeyValues.PlusSignPassesAsWritten and KeyValues.PlusSignExample | KeyValues.U16Hex, with KeyValues.U16HexRoundTrip |
| src/parser/src/second_pass/game_events.rs:823 | after pushing a round_end event, `create_round_end` inserts "rank_update" into the event counter | a round count going from 4 to 5 with every event wanted: the counter gains "rank_update" although no rank update was seen | the counter records only the events seen, here "round_end" | medium, not executed | GameEvents.CreateRoundEndAsWritten, shown by GameEvents.RoundEndCountsRankUpdate | GameEvents.CreateRoundEnd, with GameEvents.RoundEndStoresNewRound and GameEvents.AsWrittenOnlyAddsRankUpdate |
