# mari: osu! replay decoding and judgement compression, modelled in Dafny

This project models two pieces of the `mari` service and proves what they
promise.

- `OsuReplay` decodes an osu! replay file (`.osr`). Files over 4194304
  bytes are refused. Then `decode()` reads each field in a fixed order,
  through a `DataInputStream`:
  - signed bytes;
  - little-endian shorts, ints and longs that check `available()` first;
  - a capped ULEB128 length;
  - marker-prefixed optional strings of at most 512000 bytes;
  - the LZMA replay blob;
  - and, when bit 24 of the mods is set, a trailing double that must lie in
    `Double.MIN_VALUE..Double.MAX_VALUE`.

  The first read that throws ends decoding. The exception is swallowed and
  the fields read so far are left in place.
- `CompressJudgements` packs a list of hit judgements into a byte payload:
  - each record is a time delta, then `x` and `y`, a type byte, then the two
    distances and the error;
  - every number is a 32-bit variable-length quantity (VLQ) written with
    `putVLQ` into a scratch `ByteBuffer`;
  - `decompress` reads the payload back with `getVLQ` while bytes remain.

The model has three layers:

- **Value layer.** Functions describe every reader and both payload
  directions. They are written on the unread bytes and return
  `Result<Parsed<T, seq<byte>>, Error>`. Modules: `ReplayReaders`,
  `ReplayFormat`, `VlqCodec`, `JudgementPayload`.
- **Imperative layer.** The source's classes and loops are methods that
  keep the source's own state:
  - `OsuReplay`, with its public fields and its `DataInputStream` cursor;
  - `ByteBuffer`, with its array and position;
  - the `putVLQ`, `getVLQ`, `readULEB128`, `compress` and `decompress`
    loops.

  Each method is proved to compute the corresponding function. Modules:
  `OsuReplayDecoder`, `CompressJudgements`.
- **Lemmas.** These are proved about the functions: round trips for every
  reader, for the whole replay layout and for the judgement payload; the
  failure behaviour; and what a partial decode leaves behind.

`decode()` is modelled line by line:

- One method per field assignment. Each is proved against one step of
  `ReplayFormat.Run`, the function of the whole decoding.
- The lines are called in four groups (header, hit counts, score, tail).
- `OsuReplay.Decode` chains the groups. Its contract is that the object's
  fields and its recorded failure are exactly `Run` on the file's bytes.

The four groups have no counterpart in the source, where `decode()` is one
flat `try` block. They exist only to keep each proof obligation small
enough for the verifier. Each line method also states that it assigns only
its own field.

On the ULEB128 reader, the model follows what the code does:
- **Too many bytes.** A ULEB128 sequence that would need an eleventh byte is
  refused as an invalid sequence (`OsuReplay.kt:137-139`) before that byte
  is read.
- **Tenth byte.** The comment at `OsuReplay.kt:144` allows the tenth byte
  one payload bit. The bit-63 guard at `OsuReplay.kt:150` still rejects
  payload 1 there, so only payload 0 completes a ten-byte value
  (`UlebTenthByte`).

## Model

| member | source | states |
|---|---|---|
| VlqCodec.Vlq | src/main/kotlin/org/nisemoe/mari/judgements/CompressJudgements.kt:28-38 | `putVLQ` writes one to five bytes for every 32-bit `Int` |
| VlqCodec.VlqShape | src/main/kotlin/org/nisemoe/mari/judgements/CompressJudgements.kt:28-38 | every byte but the last has bit 0x80 set, the last has it clear, and zero is the single byte 0x00 |
| VlqCodec.Shl32 | src/main/kotlin/org/nisemoe/mari/judgements/CompressJudgements.kt:50 | Kotlin `Int` `shl` (count masked to five bits, result truncated) always yields a 32-bit pattern |
| VlqCodec.GetByte | src/main/kotlin/org/nisemoe/mari/judgements/CompressJudgements.kt:49 | `get()` succeeds exactly when a byte remains, returning it and advancing past it, and otherwise fails with an underflow |
| VlqCodec.GetVlqFromShape | src/main/kotlin/org/nisemoe/mari/judgements/CompressJudgements.kt:44-54 | a successful `getVLQ` loop consumes at least one byte; its only failure is an underflow |
| VlqCodec.GetVlq | src/main/kotlin/org/nisemoe/mari/judgements/CompressJudgements.kt:44-54 | `getVLQ()` consumes bytes when it succeeds and can fail only by underflow |
| VlqCodec.GetVlqFromBase128 | src/main/kotlin/org/nisemoe/mari/judgements/CompressJudgements.kt:44-54 | started at any group inside 32 bits, the loop adds the remaining groups of a value at their shift and stops right after them |
| VlqCodec.VlqRoundTrip | src/main/kotlin/org/nisemoe/mari/judgements/CompressJudgements.kt:28-54 | `getVLQ` on what `putVLQ(v)` wrote, followed by anything, returns `v` (negatives included) and leaves exactly what followed |
| VlqCodec.ContinuationRunsOut | src/main/kotlin/org/nisemoe/mari/judgements/CompressJudgements.kt:48-52 | a run of continuation bytes up to the end of the buffer underflows |
| VlqCodec.TruncatedVlq | src/main/kotlin/org/nisemoe/mari/judgements/CompressJudgements.kt:44-54 | every proper prefix of an encoding, at the end of the buffer, underflows instead of yielding a value |
| VlqCodec.VlqOfPrefix | src/main/kotlin/org/nisemoe/mari/judgements/CompressJudgements.kt:44-54 | an encoding cut inside the quantity underflows; cut after it, the value is read and the rest of the cut is left |
| VlqCodec.GetVlqs | src/main/kotlin/org/nisemoe/mari/judgements/CompressJudgements.kt:91-102 | `n` successive `getVLQ()` calls yield `n` values, consume at least `n` bytes, and fail only by underflow |
| VlqCodec.VlqSeqRoundTrip | src/main/kotlin/org/nisemoe/mari/judgements/CompressJudgements.kt:28-54 | several quantities written back to back read back in order, leaving what follows them |
| VlqCodec.VlqSeqLength | src/main/kotlin/org/nisemoe/mari/judgements/CompressJudgements.kt:28-38 | `n` quantities take between `n` and `5n` bytes |
| VlqCodec.VlqSeqOfPrefix | src/main/kotlin/org/nisemoe/mari/judgements/CompressJudgements.kt:44-54 | several quantities cut inside underflow; cut after them, they all read back |
| JudgementPayload.Ordinal | src/main/kotlin/org/nisemoe/mari/judgements/JudgementModel.kt:55-69 | the four `Judgement.Type` entries have ordinals below 4 |
| JudgementPayload.EntryAt | src/main/kotlin/org/nisemoe/mari/judgements/CompressJudgements.kt:99 | `Judgement.Type.entries[k]` exists exactly for `0 <= k < 4`, and it is the entry whose ordinal is `k` |
| JudgementPayload.EntryAtOrdinal | src/main/kotlin/org/nisemoe/mari/judgements/CompressJudgements.kt:69 | reading back the type byte `compress` wrote, as a signed byte, gives back the type |
| JudgementPayload.DecodeRecord | src/main/kotlin/org/nisemoe/mari/judgements/CompressJudgements.kt:91-103 | one pass of the `decompress` loop that succeeds consumes at least one byte |
| JudgementPayload.DeltaTimeRestores | src/main/kotlin/org/nisemoe/mari/judgements/CompressJudgements.kt:66 | adding the wrapped delta back to the previous time restores the time exactly, whatever the sign of the delta |
| JudgementPayload.JudgementRestored | src/main/kotlin/org/nisemoe/mari/judgements/CompressJudgements.kt:94-103 | the fields `decompress` rebuilds from what `compress` wrote make up the original judgement |
| JudgementPayload.DecodeRecordRoundTrip | src/main/kotlin/org/nisemoe/mari/judgements/CompressJudgements.kt:65-103 | reading a record `compress` wrote, with the same previous time, returns that judgement and stops right after it |
| JudgementPayload.DecodeFromStep | src/main/kotlin/org/nisemoe/mari/judgements/CompressJudgements.kt:90-104 | a record read in the loop is appended and becomes the time base of the next one |
| JudgementPayload.DecodeFromEncoded | src/main/kotlin/org/nisemoe/mari/judgements/CompressJudgements.kt:56-107 | on the encoding of any list followed by anything, the read loop reads exactly that list and carries on after it with the last time as base |
| JudgementPayload.PayloadRoundTrip | src/main/kotlin/org/nisemoe/mari/judgements/CompressJudgements.kt:56-107 | `decompress` of the payload of `compress(judgements)` returns the same judgements, in order, even when times go backwards |
| JudgementPayload.UnknownTypeFails | src/main/kotlin/org/nisemoe/mari/judgements/CompressJudgements.kt:99 | after any number of good records, a type byte naming no entry stops decoding with that signed ordinal |
| JudgementPayload.RecordLength | src/main/kotlin/org/nisemoe/mari/judgements/CompressJudgements.kt:63-65 | a record takes 7 to 31 bytes, so the 4096-byte scratch buffer always has room |
| JudgementPayload.EmptyPayload | src/main/kotlin/org/nisemoe/mari/judgements/CompressJudgements.kt:56-107 | no judgements give an empty payload, and an empty payload gives no judgements |
| JudgementPayload.HeadFails | src/main/kotlin/org/nisemoe/mari/judgements/CompressJudgements.kt:91-98 | a record whose delta, `x` or `y` cannot be read underflows |
| JudgementPayload.TypeByteMissing | src/main/kotlin/org/nisemoe/mari/judgements/CompressJudgements.kt:99 | a record that ends before its type byte underflows |
| JudgementPayload.TailFails | src/main/kotlin/org/nisemoe/mari/judgements/CompressJudgements.kt:100-102 | a record with a valid type whose distances or error cannot be read underflows |
| JudgementPayload.DecodeRecordOfPrefix | src/main/kotlin/org/nisemoe/mari/judgements/CompressJudgements.kt:90-104 | a record cut short anywhere underflows instead of yielding a judgement |
| JudgementPayload.DecodeFromFails | src/main/kotlin/org/nisemoe/mari/judgements/CompressJudgements.kt:90-104 | a failed record ends `decompress` with that record's error |
| JudgementPayload.TruncatedPayload | src/main/kotlin/org/nisemoe/mari/judgements/CompressJudgements.kt:90-104 | a trailing partial record after any number of good ones makes decoding fail with an underflow |
| CompressJudgements.ByteBuffer.Allocate | src/main/kotlin/org/nisemoe/mari/judgements/CompressJudgements.kt:65 | `ByteBuffer.allocate(capacity)` is a fresh buffer of that capacity at position 0 |
| CompressJudgements.ByteBuffer.Wrap | src/main/kotlin/org/nisemoe/mari/judgements/CompressJudgements.kt:86 | `ByteBuffer.wrap(data)` reads `data` itself from its start |
| CompressJudgements.ByteBuffer.Put | src/main/kotlin/org/nisemoe/mari/judgements/CompressJudgements.kt:69 | `put(b)` appends `b` to the written bytes and advances the position by one |
| CompressJudgements.ByteBuffer.Get | src/main/kotlin/org/nisemoe/mari/judgements/CompressJudgements.kt:49 | `get()` returns what `GetByte` reads from the unread bytes and advances past it; on underflow nothing is consumed |
| CompressJudgements.ByteBuffer.PutVlq | src/main/kotlin/org/nisemoe/mari/judgements/CompressJudgements.kt:28-38 | the `putVLQ` loop appends exactly `Vlq(value)` to the written bytes |
| CompressJudgements.ByteBuffer.GetVlq | src/main/kotlin/org/nisemoe/mari/judgements/CompressJudgements.kt:44-54 | the `getVLQ` loop returns what `VlqCodec.GetVlq` reads from the unread bytes and leaves the position after it |
| CompressJudgements.CompressRecord | src/main/kotlin/org/nisemoe/mari/judgements/CompressJudgements.kt:65-75 | the bytes one pass of `compress` writes for a judgement are `EncodeRecord` of it |
| CompressJudgements.Compress | src/main/kotlin/org/nisemoe/mari/judgements/CompressJudgements.kt:56-79 | the stream `compress` hands to the compressor is `EncodePayload(judgements)` |
| CompressJudgements.GetVlqThree | src/main/kotlin/org/nisemoe/mari/judgements/CompressJudgements.kt:91-98 | three `getVLQ()` calls in a row read what `GetVlqs(_, 3)` reads and fail exactly when it does |
| CompressJudgements.ReadJudgement | src/main/kotlin/org/nisemoe/mari/judgements/CompressJudgements.kt:91-103 | one pass of the loop body yields what `DecodeRecord` yields, with the same error on failure |
| CompressJudgements.Decompress | src/main/kotlin/org/nisemoe/mari/judgements/CompressJudgements.kt:83-107 | null decompressed data gives the empty list; otherwise the result is `DecodePayload` of the data |
| ReplayReaders.ReadByte | src/main/kotlin/org/nisemoe/mari/replays/OsuReplay.kt:73 | `readByte()` succeeds exactly when a byte remains, returning it signed, and otherwise fails at end of file |
| ReplayReaders.ReadFully | src/main/kotlin/org/nisemoe/mari/replays/OsuReplay.kt:109 | `readFully` of `n` bytes succeeds exactly when `n` remain and returns them, otherwise fails at end of file |
| ReplayReaders.Shl64 | src/main/kotlin/org/nisemoe/mari/replays/OsuReplay.kt:154 | Kotlin `Long` `shl` always yields a 64-bit pattern |
| ReplayReaders.FixedWidthAvailable | src/main/kotlin/org/nisemoe/mari/replays/OsuReplay.kt:161-207 | the short, int and long readers succeed exactly when their width is available, consuming exactly that width, and otherwise fail with insufficient data; the double reader fails with insufficient data below 8 bytes and otherwise consumes 8 bytes or refuses the pattern (see `DoubleRoundTrip`) |
| ReplayReaders.LittleEndianOfLeBytes | src/main/kotlin/org/nisemoe/mari/replays/OsuReplay.kt:167 | little-endian decoding inverts little-endian encoding for every value that fits the width |
| ReplayReaders.ShortRoundTrip | src/main/kotlin/org/nisemoe/mari/replays/OsuReplay.kt:161-168 | `readShortLittleEndian` reads back every `Short` from its two bytes and leaves what follows |
| ReplayReaders.IntRoundTrip | src/main/kotlin/org/nisemoe/mari/replays/OsuReplay.kt:170-181 | `readIntLittleEndian` reads back every `Int`; its range test never refuses one |
| ReplayReaders.LongRoundTrip | src/main/kotlin/org/nisemoe/mari/replays/OsuReplay.kt:183-194 | `readLongLittleEndian` reads back every `Long`; its range test never refuses one |
| ReplayReaders.DoubleRoundTrip | src/main/kotlin/org/nisemoe/mari/replays/OsuReplay.kt:196-207 | a double's bit pattern reads back exactly when the double is in `Double.MIN_VALUE..Double.MAX_VALUE`; any other pattern is refused |
| ReplayReaders.UlebFromOk | src/main/kotlin/org/nisemoe/mari/replays/OsuReplay.kt:131-159 | a successful loop from any byte on has read up to the first byte without the continuation bit, within ten bytes, adding their payloads at their shifts |
| ReplayReaders.UlebValue | src/main/kotlin/org/nisemoe/mari/replays/OsuReplay.kt:131-159 | `readULEB128` succeeds only by consuming up to and including the first byte with its top bit clear, at most ten bytes; the value is the base-128 sum of their payloads and lies in 0 .. 2^63-1 |
| ReplayReaders.UlebFromBase128 | src/main/kotlin/org/nisemoe/mari/replays/OsuReplay.kt:131-159 | started at any byte on the base-128 digits of a value that fits below 2^63, the loop adds the value at its shift and stops right after the digits |
| ReplayReaders.UlebRoundTrip | src/main/kotlin/org/nisemoe/mari/replays/OsuReplay.kt:131-159 | `readULEB128` reads back every value below 2^63 from its base-128 digits and stops right after them |
| ReplayReaders.UlebFromTenth | src/main/kotlin/org/nisemoe/mari/replays/OsuReplay.kt:137-152 | after continuation bytes up to the tenth byte: a non-zero payload overflows, `0x80` is refused as invalid, and only `0x00` completes the value |
| ReplayReaders.UlebTenthByte | src/main/kotlin/org/nisemoe/mari/replays/OsuReplay.kt:137-152 | after nine continuation bytes, the tenth byte decides: a non-zero payload overflows, `0x80` is refused as invalid, and only `0x00` succeeds |
| ReplayReaders.UlebFromRunsOut | src/main/kotlin/org/nisemoe/mari/replays/OsuReplay.kt:136-156 | input that ends inside a run of continuation bytes, within ten bytes, fails with end of file |
| ReplayReaders.UlebTruncated | src/main/kotlin/org/nisemoe/mari/replays/OsuReplay.kt:131-159 | `readULEB128` on fewer than ten continuation bytes and nothing after them fails with end of file |
| ReplayReaders.OptStringAbsent | src/main/kotlin/org/nisemoe/mari/replays/OsuReplay.kt:103-111 | a marker other than `0x0b` means the string is absent, and exactly one byte is read |
| ReplayReaders.OptStringOfLength | src/main/kotlin/org/nisemoe/mari/replays/OsuReplay.kt:104-110 | after `0x0b` and a length: a length outside 0..512000 is refused; too few remaining bytes fail at end of file; otherwise exactly that many bytes are the string |
| ReplayReaders.OptStringPresent | src/main/kotlin/org/nisemoe/mari/replays/OsuReplay.kt:102-113 | the same for a length written as ULEB128: the cap is checked before any string byte is read |
| ReplayReaders.OptStringRoundTrip | src/main/kotlin/org/nisemoe/mari/replays/OsuReplay.kt:102-113 | every string of at most 512000 bytes reads back from its marker, length and bytes, leaving what follows |
| ReplayReaders.BlobRead | src/main/kotlin/org/nisemoe/mari/replays/OsuReplay.kt:115-129 | the replay blob reader consumes exactly `length` bytes and yields what the LZMA/Base64 normaliser makes of them, failing when it throws |
| ReplayFormat.Next | src/main/kotlin/org/nisemoe/mari/replays/OsuReplay.kt:93-96 | fields follow one another in order; decoding ends after the trailing double, or after the online score id when bit 24 of the mods is clear |
| ReplayFormat.ParseReplay | src/main/kotlin/org/nisemoe/mari/replays/OsuReplay.kt:63-69 | a file is refused exactly when it is over 4194304 bytes; otherwise the result is `decode()` on it |
| ReplayFormat.StepKeeps | src/main/kotlin/org/nisemoe/mari/replays/OsuReplay.kt:73-96 | each line of `decode()` assigns only its own field |
| ReplayFormat.RunKeeps | src/main/kotlin/org/nisemoe/mari/replays/OsuReplay.kt:71-100 | decoding from a field on leaves the fields before it unchanged |
| ReplayFormat.RunFailure | src/main/kotlin/org/nisemoe/mari/replays/OsuReplay.kt:71-100 | when a read throws, the earlier fields keep their decoded values, and the failing field and every later one keep their initial values |
| ReplayFormat.DecodeFailure | src/main/kotlin/org/nisemoe/mari/replays/OsuReplay.kt:71-100 | after a failed decode, nothing from the failing field on is set. `additionalModInfo` stays `0.0`; `onlineScoreID` stays null unless only the double failed; the replay data stays null unless the failure came after it |
| ReplayFormat.RunComplete | src/main/kotlin/org/nisemoe/mari/replays/OsuReplay.kt:71-100 | a decode without failure from any field on has read the replay data and the score id, and has read the trailing double exactly when bit 24 is set |
| ReplayFormat.DecodeComplete | src/main/kotlin/org/nisemoe/mari/replays/OsuReplay.kt:71-100 | a successful decode sets the replay data and the online score id; the double is set (non-zero, within range) exactly when bit 24 of the mods is set |
| ReplayFormat.OptBytesRead | src/main/kotlin/org/nisemoe/mari/replays/OsuReplay.kt:102-113 | an absent string or a present one within the cap reads back from its bytes |
| ReplayFormat.StepLayout | src/main/kotlin/org/nisemoe/mari/replays/OsuReplay.kt:73-96 | each line of `decode()` reads its field of a well-formed replay back from that field's bytes, leaving what follows |
| ReplayFormat.RunLayout | src/main/kotlin/org/nisemoe/mari/replays/OsuReplay.kt:71-100 | decoding the bytes of the fields from any field on yields the whole replay without failure |
| ReplayFormat.ReplayRoundTrip | src/main/kotlin/org/nisemoe/mari/replays/OsuReplay.kt:71-100 | a well-formed replay's file, followed by anything, decodes to exactly that replay without failure |
| OsuReplayDecoder.ByteStream.constructor | src/main/kotlin/org/nisemoe/mari/replays/OsuReplay.kt:39 | the stream over `fileContent` starts at its first byte |
| OsuReplayDecoder.ByteStream.Available | src/main/kotlin/org/nisemoe/mari/replays/OsuReplay.kt:162 | `available()` is the number of unread bytes |
| OsuReplayDecoder.ByteStream.ReadByte | src/main/kotlin/org/nisemoe/mari/replays/OsuReplay.kt:73 | `readByte()` returns what `ReplayReaders.ReadByte` reads and advances past it; at end of file nothing moves |
| OsuReplayDecoder.ByteStream.ReadFully | src/main/kotlin/org/nisemoe/mari/replays/OsuReplay.kt:109 | `readFully` returns what `ReplayReaders.ReadFully` reads; at end of file the remaining bytes are consumed before the error |
| OsuReplayDecoder.Low7 | src/main/kotlin/org/nisemoe/mari/replays/OsuReplay.kt:149 | `byte.toInt() and 0x7F` is the low seven bits of the byte's unsigned value |
| OsuReplayDecoder.OsuReplay.constructor | src/main/kotlin/org/nisemoe/mari/replays/OsuReplay.kt:63-69 | the fields start at their initial values; after `decode()`, the fields and the recorded failure are `ReplayFormat.Decode` of the file |
| OsuReplayDecoder.OsuReplay.ReadShortLittleEndian | src/main/kotlin/org/nisemoe/mari/replays/OsuReplay.kt:161-168 | returns what `ReadShort` reads and leaves the stream after it; on failure nothing is consumed |
| OsuReplayDecoder.OsuReplay.ReadIntLittleEndian | src/main/kotlin/org/nisemoe/mari/replays/OsuReplay.kt:170-181 | returns what `ReadInt` reads and leaves the stream after it; on failure nothing is consumed |
| OsuReplayDecoder.OsuReplay.ReadLongLittleEndian | src/main/kotlin/org/nisemoe/mari/replays/OsuReplay.kt:183-194 | returns what `ReadLong` reads and leaves the stream after it; on failure nothing is consumed |
| OsuReplayDecoder.OsuReplay.ReadDoubleLittleEndian | src/main/kotlin/org/nisemoe/mari/replays/OsuReplay.kt:196-207 | returns what `ReadDoubleBits` reads (a double within range, as its bit pattern) or its error |
| OsuReplayDecoder.OsuReplay.ReadULEB128 | src/main/kotlin/org/nisemoe/mari/replays/OsuReplay.kt:131-159 | the `readULEB128` loop returns what `ReadUleb128` reads, or its error, and leaves the stream after the bytes it read |
| OsuReplayDecoder.OsuReplay.ReadCompressedReplayData | src/main/kotlin/org/nisemoe/mari/replays/OsuReplay.kt:102-113 | returns what `ReadOptString` reads (absent, or the string's bytes), or its error |
| OsuReplayDecoder.OsuReplay.ReadCompressedReplayBlob | src/main/kotlin/org/nisemoe/mari/replays/OsuReplay.kt:115-129 | returns what `ReadBlob` reads for the given length, or its error |
| OsuReplayDecoder.OsuReplay.Decode | src/main/kotlin/org/nisemoe/mari/replays/OsuReplay.kt:71-100 | afterwards the fields and the recorded failure are exactly `ReplayFormat.Run` from the first field on the bytes that were unread |
| OsuReplayDecoder.OsuReplay.DecodeHeader | src/main/kotlin/org/nisemoe/mari/replays/OsuReplay.kt:73-78 | the mode, version and three hash/name lines either end decoding as `Run` does or leave it pending at the hit counts |
| OsuReplayDecoder.OsuReplay.DecodeHits | src/main/kotlin/org/nisemoe/mari/replays/OsuReplay.kt:79-84 | the six hit-count lines either end decoding as `Run` does or leave it pending at the total score |
| OsuReplayDecoder.OsuReplay.DecodeScore | src/main/kotlin/org/nisemoe/mari/replays/OsuReplay.kt:85-88 | the score, combo, full-combo and mods lines either end decoding as `Run` does or leave it pending at the life bar graph |
| OsuReplayDecoder.OsuReplay.DecodeTail | src/main/kotlin/org/nisemoe/mari/replays/OsuReplay.kt:89-96 | the remaining lines, the double only when bit 24 is set, end decoding exactly as `Run` does |
| OsuReplayDecoder.OsuReplay.DecodeGameMode | src/main/kotlin/org/nisemoe/mari/replays/OsuReplay.kt:73 | this line either ends decoding as `Run` does or assigns the mode and leaves the version pending; no other field changes |
| OsuReplayDecoder.OsuReplay.DecodeGameVersion | src/main/kotlin/org/nisemoe/mari/replays/OsuReplay.kt:75 | the same for the game version; no other field changes |
| OsuReplayDecoder.OsuReplay.DecodeBeatmapHash | src/main/kotlin/org/nisemoe/mari/replays/OsuReplay.kt:76 | the same for the beatmap hash; no other field changes |
| OsuReplayDecoder.OsuReplay.DecodePlayerName | src/main/kotlin/org/nisemoe/mari/replays/OsuReplay.kt:77 | the same for the player name; no other field changes |
| OsuReplayDecoder.OsuReplay.DecodeReplayHash | src/main/kotlin/org/nisemoe/mari/replays/OsuReplay.kt:78 | the same for the replay hash; no other field changes |
| OsuReplayDecoder.OsuReplay.DecodeNumberOf300s | src/main/kotlin/org/nisemoe/mari/replays/OsuReplay.kt:79 | the same for the 300 count; no other field changes |
| OsuReplayDecoder.OsuReplay.DecodeNumberOf100s | src/main/kotlin/org/nisemoe/mari/replays/OsuReplay.kt:80 | the same for the 100 count; no other field changes |
| OsuReplayDecoder.OsuReplay.DecodeNumberOf50s | src/main/kotlin/org/nisemoe/mari/replays/OsuReplay.kt:81 | the same for the 50 count; no other field changes |
| OsuReplayDecoder.OsuReplay.DecodeNumberOfGekis | src/main/kotlin/org/nisemoe/mari/replays/OsuReplay.kt:82 | the same for the geki count; no other field changes |
| OsuReplayDecoder.OsuReplay.DecodeNumberOfKatus | src/main/kotlin/org/nisemoe/mari/replays/OsuReplay.kt:83 | the same for the katu count; no other field changes |
| OsuReplayDecoder.OsuReplay.DecodeNumberOfMisses | src/main/kotlin/org/nisemoe/mari/replays/OsuReplay.kt:84 | the same for the miss count; no other field changes |
| OsuReplayDecoder.OsuReplay.DecodeTotalScore | src/main/kotlin/org/nisemoe/mari/replays/OsuReplay.kt:85 | the same for the total score; no other field changes |
| OsuReplayDecoder.OsuReplay.DecodeGreatestCombo | src/main/kotlin/org/nisemoe/mari/replays/OsuReplay.kt:86 | the same for the greatest combo; no other field changes |
| OsuReplayDecoder.OsuReplay.DecodePerfectCombo | src/main/kotlin/org/nisemoe/mari/replays/OsuReplay.kt:87 | the same for the full-combo flag, true exactly when its byte is non-zero; no other field changes |
| OsuReplayDecoder.OsuReplay.DecodeModsUsed | src/main/kotlin/org/nisemoe/mari/replays/OsuReplay.kt:88 | the same for the mods; no other field changes |
| OsuReplayDecoder.OsuReplay.DecodeLifeBarGraph | src/main/kotlin/org/nisemoe/mari/replays/OsuReplay.kt:89 | the same for the life bar graph; no other field changes |
| OsuReplayDecoder.OsuReplay.DecodeTimestamp | src/main/kotlin/org/nisemoe/mari/replays/OsuReplay.kt:90 | the same for the time stamp; no other field changes |
| OsuReplayDecoder.OsuReplay.DecodeReplayLength | src/main/kotlin/org/nisemoe/mari/replays/OsuReplay.kt:91 | the same for the replay length; no other field changes |
| OsuReplayDecoder.OsuReplay.DecodeReplayData | src/main/kotlin/org/nisemoe/mari/replays/OsuReplay.kt:92 | the same for the replay data, read with the replay length just decoded; no other field changes |
| OsuReplayDecoder.OsuReplay.DecodeOnlineScoreID | src/main/kotlin/org/nisemoe/mari/replays/OsuReplay.kt:93-94 | reads the score id. Decoding then ends as `Run` does, unless it succeeded and bit 24 of the mods is set, in which case the double is pending; no other field changes |
| OsuReplayDecoder.OsuReplay.DecodeAdditionalModInfo | src/main/kotlin/org/nisemoe/mari/replays/OsuReplay.kt:94-96 | reading the trailing double ends decoding exactly as `Run` does; no other field changes |
| OsuReplayDecoder.Open | src/main/kotlin/org/nisemoe/mari/replays/OsuReplay.kt:63-69 | a file over 4194304 bytes is refused before anything is read; any other yields a new replay whose fields and failure are `ReplayFormat.Decode` of the file |

## Left out

- **Brotli.** `Encoder.compress` and `Decoder.decompress` are a foreign
  library. `Compress` returns the payload before compression. `Decompress`
  takes what the decompressor returned, where null gives the empty list.
- **Floating point in judgements.** `round(x * 100).toInt()`,
  `(distance * 100).toInt()`, `error.toInt()` and the `/ 100.0` on reading
  are not modelled. A `Judgement` holds the scaled 32-bit integers, so the
  round trip is proved on those.
- **The `Judgement` JSON serialiser.** `TimeSerializer` and the
  serialisation annotations are not part of the codec.
- **Replay blob normalisation.** The LZMA decompression, the LZMA
  recompression and the Base64 encoding are foreign code. They are the
  parameter `normalise` (`None` when they throw).
- **UTF-8 decoding of strings.** Strings are kept as their bytes; Dafny
  strings have no UTF-8 decoder here.
- **Floating point in replays.** The trailing double is kept as its 64-bit
  pattern. Its range check is stated on the pattern, which is equivalent
  for every double, NaN included.
- **The swallowed exception.** `println` in `decode()`'s catch block is
  output. The exception is recorded in the `failure` field instead.
- **Int and long range checks.** The checks of `readIntLittleEndian` and
  `readLongLittleEndian` admit every value, so they are not written as code.
  `IntRoundTrip` and `LongRoundTrip` state that nothing is refused.
- **Aliasing of the file.** The `DataInputStream` is a fixed byte sequence
  and a position, so a caller changing `fileContent` during decoding is not
  modelled.
- **Stream closing in `compress`.** Each pass of `compress` wraps the output
  stream in `use`. Closing a `ByteArrayOutputStream` has no effect, so this
  is not modelled.
- OsuReplayDecoder.OsuReplay.ReadULEB128: on failure it states only that
  the stream moved forward, not how far. `decode()` stops at the first
  failure, so the position is never used again.
- OsuReplayDecoder.OsuReplay.ReadCompressedReplayData: on failure the
  stream position is not stated, for the same reason.
- OsuReplayDecoder.OsuReplay.ReadCompressedReplayBlob: on failure the stream
  position is not stated, for the same reason.
- OsuReplayDecoder.OsuReplay.ReadDoubleLittleEndian: on failure the stream
  position is not stated, for the same reason.
- ReplayReaders.BlobRead: `ByteArray(length)` (`OsuReplay.kt:116`) is
  allocated before any byte is read. For a length the JVM cannot allocate,
  the source throws `OutOfMemoryError`. That is an `Error`, not an
  `Exception`, so it escapes `decode()` and the `OsuReplay` constructor.
  The model reports `EndOfFile` for the replay data instead, because the
  JVM's allocation limit is not part of the model.
- ReplayReaders.ReadBlob: the same `OutOfMemoryError` of
  `ByteArray(length)` is not modelled. An unallocatable length that the
  file cannot supply is reported as `EndOfFile`.
- OsuReplayDecoder.OsuReplay.ReadCompressedReplayBlob: the same
  allocation failure is not modelled. The method records `EndOfFile`, and
  the constructor and `Open` return an object, where the source's
  constructor would throw.
- CompressJudgements.ByteBuffer.PutVlq: requires room for five bytes, so a
  `putVLQ` that writes part of a value and then throws
  `BufferOverflowException` is not modelled. Every call in `compress`
  meets the requirement (`RecordLength`).
- CompressJudgements.ByteBuffer.Put: requires room in the buffer, so
  `BufferOverflowException` is not modelled. `compress` writes at most 31
  bytes into a 4096-byte buffer (`RecordLength`), so it never overflows.
- **Fields after construction.** `OsuReplay`'s fields are public `var`s
  that callers may reassign after construction. Only what `decode()` leaves
  in them is modelled.
