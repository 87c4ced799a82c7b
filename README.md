# Thrift binary protocol engine of pilota, in Dafny

This project models the unchecked Thrift binary protocol of pilota
(`pilota/src/thrift/binary_unsafe.rs`) and proves how its parts fit together:

- the **length pass** (`TLengthProtocol`) answers, for every write call, how many bytes that
  write will occupy, and keeps a running `zero_copy_len` count of large payloads;
- the **contiguous writer** (`TBinaryProtocol<&mut BytesMut>`) stores big-endian bytes at a
  cursor into one preallocated region, without bounds checks;
- the **chained writer** (`TBinaryProtocol<&mut LinkedBytes>`) writes the same bytes, but
  splices a payload of at least `ZERO_COPY_THRESHOLD` bytes into the chain as its own segment
  when zero copy is enabled, then continues on a fresh window;
- the **synchronous reader** (`TInputProtocol` over `&mut BytesMut`) loads big-endian values
  at a cursor, validates message headers and wire-type tags, and splits payloads off the
  transport.

Layout:

- `types.dfy` holds the wire vocabulary: integer widths, `TType` and `TMessageType` with their
  codes, identifiers, `field_type_from_u8`.
- `bigendian.dfy` holds `to_be_bytes` / `from_be_bytes` and the `as i32` / `as usize` casts,
  written out on unbounded integers.
- `encoding.dfy` is the wire format. It says which bytes each write call emits: `Encode(op)`
  for one call, `EncodeAll` for a sequence of calls. It also says which payloads move by
  reference.
- `length.dfy` models the length pass:
  - one function per `_len` call, each proved equal to the size of that call's bytes;
  - the `LengthCalculator` class for the zero-copy counter.
- `contiguous_writer.dfy` and `chained_writer.dfy` model the writers as classes over an
  `array<byte>` and a cursor.
  - Every write method of the contiguous writer is proved to advance the cursor by its
    `_len` value, to store exactly the encoder's bytes there, and to change nothing else.
  - Every write method of the chained writer is proved to grow the logical stream
    (`Stream()`: committed segments, then the written part of the window) by exactly the
    encoder's bytes, and to shrink the room left in the window by exactly the bytes it
    copies. A write that copies appends to the window and leaves the segments alone. A
    payload that is spliced commits the window as a segment, adds the payload as the next
    one, and continues at cursor 0 on a fresh window.
- `decoding.dfy` holds one parser per read call and the round-trip lemmas against the encoders.
  `reader.dfy` is the reader class whose methods are proved against those parsers.
- `roundtrip.dfy` proves that reading a stream with the read call that matches each write call
  gives back the calls that were written. `scenarios.dfy` gives concrete frames.

Unchecked accesses (`get_unchecked`, `copy_nonoverlapping`) become `requires` clauses: room
in the writable region, and enough remaining bytes for a read. Those are the safety contract
of `TBinaryProtocol::new` (lines 30-36). The same clauses exclude the panic of the checked
`split_to` when a payload's length exceeds the bytes left.

The reader does not handle all payloads alike:

- `read_faststr` decides by the threshold alone, whatever the zero-copy flag says
  (lines 1124-1143).
- `read_bytes` and `read_bytes_vec` always split (lines 1038-1046 and 1192-1199).
- `read_string` always copies (lines 1110-1121).

## Model

| member | source | states |
|---|---|---|
| `Types.TTypeFromByte` | pilota/src/thrift/binary_unsafe.rs:50-59 | `field_type_from_u8`: yields `Ok(t)` exactly when `t`'s code is the byte, and otherwise InvalidData |
| `Types.MessageTypeFromByte` | pilota/src/thrift/binary_unsafe.rs:967-974 | yields `Ok(t)` exactly when `t`'s code is the byte (1..4), otherwise InvalidData |
| `BigEndian.DecodeEncodeInt` | pilota/src/thrift/binary_unsafe.rs:1081-1087 | `from_be_bytes(to_be_bytes(x)) == x` for every width and every representable `x` |
| `BigEndian.EncodeDecodeInt` | pilota/src/thrift/binary_unsafe.rs:326-337 | `to_be_bytes(from_be_bytes(s)) == s`: every byte string is the encoding of exactly one value |
| `BigEndian.EncodeInt` | pilota/src/thrift/binary_unsafe.rs:312-351 | `to_be_bytes` of an n-byte signed integer yields n bytes; `DecodeEncodeInt` and `EncodeDecodeInt` make it the inverse of `DecodeInt` |
| `BigEndian.DecodeInt` | pilota/src/thrift/binary_unsafe.rs:1072-1096 | `from_be_bytes` of n bytes yields a value representable in n bytes (two's complement range) |
| `BigEndian.UsizeAsI32` | pilota/src/thrift/binary_unsafe.rs:266-268 | `len as i32` keeps lengths below 2^31 unchanged |
| `BigEndian.I32AsUsize` | pilota/src/thrift/binary_unsafe.rs:1146-1150 | `size as usize` keeps non-negative sizes; a negative size becomes at least 2^63 |
| `Encoding.VersionWord` | pilota/src/thrift/binary_unsafe.rs:207-210 | the header word `(VERSION_1 \| type) as i32` is negative and its bit pattern is `0x8001_0000 + code` |
| `Encoding.Binary` | pilota/src/thrift/binary_unsafe.rs:266-277 | a length-prefixed payload is `len as i32` big-endian then the payload, 4 + len bytes; `Decoding.BinaryRoundTrip` reads it back |
| `Encoding.ZeroCopyShare` | pilota/src/thrift/binary_unsafe.rs:103-108 | the bytes counted as zero copy are non-zero only when zero copy is on and the payload is at least the threshold; they are then the whole payload, and lie inside the call's bytes after a 4-byte prefix |
| `Length.MessageBeginLen` | pilota/src/thrift/binary_unsafe.rs:63-65 | equals the size of the message header bytes, 4 + (4 + \|name\|) + 4 |
| `Length.BinaryLen` | pilota/src/thrift/binary_unsafe.rs:103-108 | `write_bytes_len` / `write_faststr_len` return the size of the length-prefixed payload, 4 + len |
| `Length.MessageEndLen` | pilota/src/thrift/binary_unsafe.rs:68-70 | the message end writes nothing: 0 |
| `Length.StructBeginLen` | pilota/src/thrift/binary_unsafe.rs:73-75 | the struct begin writes nothing: 0 |
| `Length.StructEndLen` | pilota/src/thrift/binary_unsafe.rs:78-80 | the struct end writes nothing: 0 |
| `Length.FieldBeginLen` | pilota/src/thrift/binary_unsafe.rs:83-85 | equals the size of a field header, 3 |
| `Length.FieldEndLen` | pilota/src/thrift/binary_unsafe.rs:88-90 | the field end writes nothing: 0 |
| `Length.FieldStopLen` | pilota/src/thrift/binary_unsafe.rs:93-95 | equals the size of the stop marker, 1 |
| `Length.BoolLen` | pilota/src/thrift/binary_unsafe.rs:98-100 | equals the size of an encoded bool, 1 |
| `Length.ByteLen` | pilota/src/thrift/binary_unsafe.rs:111-113 | equals the size of a byte, 1 |
| `Length.UuidLen` | pilota/src/thrift/binary_unsafe.rs:116-118 | equals the size of a uuid, 16 |
| `Length.I8Len` | pilota/src/thrift/binary_unsafe.rs:121-123 | equals the size of an encoded i8, 1 |
| `Length.I16Len` | pilota/src/thrift/binary_unsafe.rs:126-128 | equals the size of an encoded i16, 2 |
| `Length.I32Len` | pilota/src/thrift/binary_unsafe.rs:131-133 | equals the size of an encoded i32, 4 |
| `Length.I64Len` | pilota/src/thrift/binary_unsafe.rs:136-138 | equals the size of an encoded i64, 8 |
| `Length.DoubleLen` | pilota/src/thrift/binary_unsafe.rs:141-143 | equals the size of an encoded double, 8 |
| `Length.StringLen` | pilota/src/thrift/binary_unsafe.rs:145-147 | equals the size of the length-prefixed string, 4 + len; it touches no counter |
| `Length.ListBeginLen` | pilota/src/thrift/binary_unsafe.rs:158-160 | equals the size of a list header, 5 |
| `Length.ListEndLen` | pilota/src/thrift/binary_unsafe.rs:163-165 | the list end writes nothing: 0 |
| `Length.SetBeginLen` | pilota/src/thrift/binary_unsafe.rs:168-170 | equals the size of a set header, 5 |
| `Length.SetEndLen` | pilota/src/thrift/binary_unsafe.rs:173-175 | the set end writes nothing: 0 |
| `Length.MapBeginLen` | pilota/src/thrift/binary_unsafe.rs:178-180 | equals the size of a map header, 6 |
| `Length.MapEndLen` | pilota/src/thrift/binary_unsafe.rs:183-185 | the map end writes nothing: 0 |
| `Length.BytesVecLen` | pilota/src/thrift/binary_unsafe.rs:188-190 | equals the size of the length-prefixed payload, 4 + len; it touches no counter |
| `Length.LenIsEncodedSize` | pilota/src/thrift/binary_unsafe.rs:61-201 | whichever call it is, the length pass reports the size of the bytes the matching write emits |
| `Length.LengthAgreement` | pilota/src/thrift/binary_unsafe.rs:61-201 | the lengths reported for a sequence of calls add up to the size of the whole encoding |
| `Length.ZeroCopyWithinTotal` | pilota/src/thrift/binary_unsafe.rs:103-155 | over any sequence of calls, the zero-copy count never exceeds the total length; total minus zero-copy count is exactly what a zero-copy writer copies |
| `Length.PhysicalLen` | pilota/src/thrift/binary_unsafe.rs:519-544 | the bytes a writer copies for one call: the whole encoding, minus the payload when it moves by reference |
| `Length.CopiedBinaryLen` | pilota/src/thrift/binary_unsafe.rs:519-544 | for a payload that moves by reference only the 4-byte prefix is copied; otherwise prefix and payload |
| `Length.CopiedMessageBeginLen` | pilota/src/thrift/binary_unsafe.rs:460-467 | a message header copies 12 bytes when its name moves by reference, otherwise its whole encoding |
| `Length.CopiedBinaryIsPhysical` | pilota/src/thrift/binary_unsafe.rs:654-679 | what the chained writer copies for bytes and faststr payloads is the length-pass total minus their zero-copy count |
| `Length.CopiedMessageBeginIsPhysical` | pilota/src/thrift/binary_unsafe.rs:460-467 | the same for a message header, whose name is the payload |
| `Length.LengthCalculator.constructor` | pilota/src/thrift/binary_unsafe.rs:38-46 | a new instance has the given zero-copy flag and a zero counter |
| `Length.LengthCalculator.WriteMessageBeginLen` | pilota/src/thrift/binary_unsafe.rs:63-65 | returns the header size, 4 + (4 + \|name\|) + 4; the counter grows by the name's zero-copy share, as `write_faststr_len` counts it |
| `Length.LengthCalculator.WriteBytesLen` | pilota/src/thrift/binary_unsafe.rs:103-108 | returns 4 + len always; the counter grows by len exactly when zero copy is on and len reaches the threshold, by 0 otherwise |
| `Length.LengthCalculator.WriteFaststrLen` | pilota/src/thrift/binary_unsafe.rs:150-155 | the same for a faststr |
| `Length.LengthCalculator.ZeroCopyLen` | pilota/src/thrift/binary_unsafe.rs:193-195 | returns the counter, changing nothing |
| `Length.LengthCalculator.Reset` | pilota/src/thrift/binary_unsafe.rs:198-200 | sets the counter to 0 |
| `ContiguousWriter.Store` | pilota/src/thrift/binary_unsafe.rs:269-276 | `copy_nonoverlapping` into the region: the target range holds the bytes and everything else is unchanged |
| `ContiguousWriter.ContiguousWriter.constructor` | pilota/src/thrift/binary_unsafe.rs:38-46 | the cursor starts at 0 over the given region |
| `ContiguousWriter.ContiguousWriter.WriteFieldBegin` | pilota/src/thrift/binary_unsafe.rs:232-245 | stores the type byte then the big-endian id at the cursor; the cursor advances by `write_field_begin_len`; nothing else changes |
| `ContiguousWriter.ContiguousWriter.WriteFieldStop` | pilota/src/thrift/binary_unsafe.rs:252-254 | stores the single byte 0; the cursor advances by 1; nothing else changes |
| `ContiguousWriter.ContiguousWriter.WriteBool` | pilota/src/thrift/binary_unsafe.rs:257-264 | stores 1 for true and 0 for false; the cursor advances by 1; nothing else changes |
| `ContiguousWriter.ContiguousWriter.WriteByte` | pilota/src/thrift/binary_unsafe.rs:280-286 | stores the byte; the cursor advances by 1; nothing else changes |
| `ContiguousWriter.ContiguousWriter.WriteUuid` | pilota/src/thrift/binary_unsafe.rs:289-300 | stores the 16 bytes; the cursor advances by 16; nothing else changes |
| `ContiguousWriter.ContiguousWriter.WriteI8` | pilota/src/thrift/binary_unsafe.rs:303-309 | stores the two's complement byte; the cursor advances by 1; nothing else changes |
| `ContiguousWriter.ContiguousWriter.WriteI16` | pilota/src/thrift/binary_unsafe.rs:312-323 | stores the 2 big-endian bytes; the cursor advances by 2; nothing else changes |
| `ContiguousWriter.ContiguousWriter.WriteI32` | pilota/src/thrift/binary_unsafe.rs:326-337 | stores the 4 big-endian bytes; the cursor advances by 4; nothing else changes |
| `ContiguousWriter.ContiguousWriter.WriteI64` | pilota/src/thrift/binary_unsafe.rs:340-351 | stores the 8 big-endian bytes; the cursor advances by 8; nothing else changes |
| `ContiguousWriter.ContiguousWriter.WriteDouble` | pilota/src/thrift/binary_unsafe.rs:354-365 | stores the 64-bit pattern big-endian; the cursor advances by 8; nothing else changes |
| `ContiguousWriter.ContiguousWriter.WriteBinary` | pilota/src/thrift/binary_unsafe.rs:266-277 | stores the 4-byte length prefix then a copy of the payload; the cursor advances by 4 + len; nothing else changes |
| `ContiguousWriter.ContiguousWriter.WriteBytes` | pilota/src/thrift/binary_unsafe.rs:266-277 | stores the length-prefixed payload; the cursor advances by `write_bytes_len`; nothing else changes |
| `ContiguousWriter.ContiguousWriter.WriteString` | pilota/src/thrift/binary_unsafe.rs:368-379 | stores the length-prefixed string; the cursor advances by `write_string_len`; nothing else changes |
| `ContiguousWriter.ContiguousWriter.WriteFaststr` | pilota/src/thrift/binary_unsafe.rs:382-393 | stores the length-prefixed faststr, always copied; the cursor advances by `write_faststr_len`; nothing else changes |
| `ContiguousWriter.ContiguousWriter.WriteBytesVec` | pilota/src/thrift/binary_unsafe.rs:437-448 | stores the length-prefixed payload; the cursor advances by `write_bytes_vec_len`; nothing else changes |
| `ContiguousWriter.ContiguousWriter.WriteMessageBegin` | pilota/src/thrift/binary_unsafe.rs:207-214 | stores the header word, the length-prefixed name and the sequence number; the cursor advances by `write_message_begin_len`; nothing else changes |
| `ContiguousWriter.ContiguousWriter.WriteListBegin` | pilota/src/thrift/binary_unsafe.rs:396-399 | stores the element type byte then `size as i32`; the cursor advances by 5; nothing else changes |
| `ContiguousWriter.ContiguousWriter.WriteSetBegin` | pilota/src/thrift/binary_unsafe.rs:407-410 | the same for a set header |
| `ContiguousWriter.ContiguousWriter.WriteMapBegin` | pilota/src/thrift/binary_unsafe.rs:418-424 | stores the key type, the value type, then `size as i32`; the cursor advances by 6; nothing else changes |
| `ChainedWriter.ChainedWriter.constructor` | pilota/src/thrift/binary_unsafe.rs:38-46 | the cursor starts at 0 on the given window; the logical stream is the committed segments |
| `ChainedWriter.ChainedWriter.WriteFieldBegin` | pilota/src/thrift/binary_unsafe.rs:485-497 | appends the field header to the window; segments and window array unchanged; the logical stream grows by exactly those bytes |
| `ChainedWriter.ChainedWriter.WriteFieldStop` | pilota/src/thrift/binary_unsafe.rs:505-507 | appends the byte 0 |
| `ChainedWriter.ChainedWriter.WriteBool` | pilota/src/thrift/binary_unsafe.rs:510-516 | appends 1 or 0 |
| `ChainedWriter.ChainedWriter.Put` | pilota/src/thrift/binary_unsafe.rs:547-637 | the unchecked fixed-width store at the cursor: the written part of the window grows by exactly the bytes, the segments and the window array stay the same, and the stream grows by the bytes |
| `ChainedWriter.ChainedWriter.WriteByte` | pilota/src/thrift/binary_unsafe.rs:547-553 | appends the byte |
| `ChainedWriter.ChainedWriter.WriteUuid` | pilota/src/thrift/binary_unsafe.rs:556-568 | appends the 16 bytes |
| `ChainedWriter.ChainedWriter.WriteI8` | pilota/src/thrift/binary_unsafe.rs:571-577 | appends the two's complement byte |
| `ChainedWriter.ChainedWriter.WriteI16` | pilota/src/thrift/binary_unsafe.rs:580-592 | appends the 2 big-endian bytes |
| `ChainedWriter.ChainedWriter.WriteI32` | pilota/src/thrift/binary_unsafe.rs:595-607 | appends the 4 big-endian bytes |
| `ChainedWriter.ChainedWriter.WriteI64` | pilota/src/thrift/binary_unsafe.rs:610-622 | appends the 8 big-endian bytes |
| `ChainedWriter.ChainedWriter.WriteDouble` | pilota/src/thrift/binary_unsafe.rs:625-637 | appends the 64-bit pattern big-endian |
| `ChainedWriter.ChainedWriter.CopyBinary` | pilota/src/thrift/binary_unsafe.rs:640-651 | appends the 4-byte prefix then a copy of the payload |
| `ChainedWriter.ChainedWriter.SpliceBinary` | pilota/src/thrift/binary_unsafe.rs:520-533 | zero-copy path: the written window plus the prefix is committed as one segment; the payload becomes the next segment; the cursor restarts at 0 on a fresh window with 4 fewer bytes of room; the logical stream grows by prefix and payload |
| `ChainedWriter.ChainedWriter.WritePayload` | pilota/src/thrift/binary_unsafe.rs:519-544 | splices when zero copy is on and the payload reaches the threshold, copies otherwise; either way the stream grows by prefix then payload, and room shrinks by exactly the bytes copied |
| `ChainedWriter.ChainedWriter.WriteBytes` | pilota/src/thrift/binary_unsafe.rs:519-544 | `write_bytes` with both paths, as for `WritePayload` |
| `ChainedWriter.ChainedWriter.WriteFaststr` | pilota/src/thrift/binary_unsafe.rs:654-679 | `write_faststr` with both paths, as for `WritePayload` |
| `ChainedWriter.ChainedWriter.WriteString` | pilota/src/thrift/binary_unsafe.rs:640-651 | appends the length-prefixed string, always copied |
| `ChainedWriter.ChainedWriter.WriteBytesVec` | pilota/src/thrift/binary_unsafe.rs:723-734 | appends the length-prefixed payload, always copied |
| `ChainedWriter.ChainedWriter.WriteMessageBegin` | pilota/src/thrift/binary_unsafe.rs:460-467 | the stream grows by header word, name and sequence number; room shrinks by the bytes copied; without a splice it is a plain append to the window; when the name is spliced, the window plus header word and name prefix is committed as one segment, the name is the next segment, and the fresh window holds only the sequence number |
| `ChainedWriter.ChainedWriter.WriteListBegin` | pilota/src/thrift/binary_unsafe.rs:682-685 | appends the list header |
| `ChainedWriter.ChainedWriter.WriteSetBegin` | pilota/src/thrift/binary_unsafe.rs:693-696 | appends the set header |
| `ChainedWriter.ChainedWriter.WriteMapBegin` | pilota/src/thrift/binary_unsafe.rs:704-710 | appends the map header |
| `Decoding.DecodeI8` | pilota/src/thrift/binary_unsafe.rs:1063-1069 | the i8 loaded from the first byte re-encodes to exactly that byte |
| `Decoding.DecodeI16` | pilota/src/thrift/binary_unsafe.rs:1072-1078 | the i16 loaded big-endian from the first 2 bytes re-encodes to exactly those bytes |
| `Decoding.DecodeI32` | pilota/src/thrift/binary_unsafe.rs:1081-1087 | the i32 loaded big-endian from the first 4 bytes re-encodes to exactly those bytes |
| `Decoding.DecodeI64` | pilota/src/thrift/binary_unsafe.rs:1090-1096 | the i64 loaded big-endian from the first 8 bytes re-encodes to exactly those bytes |
| `Decoding.DecodeDouble` | pilota/src/thrift/binary_unsafe.rs:1099-1107 | the 64-bit pattern loaded from the first 8 bytes re-encodes to exactly those bytes |
| `Decoding.DecodeBool` | pilota/src/thrift/binary_unsafe.rs:1029-1035 | true exactly when the byte is non-zero |
| `Decoding.DecodeI8Encode` | pilota/src/thrift/binary_unsafe.rs:1063-1069 | reading an i8 inverts `write_i8`, whatever follows |
| `Decoding.DecodeI16Encode` | pilota/src/thrift/binary_unsafe.rs:1072-1078 | reading an i16 inverts `write_i16` |
| `Decoding.DecodeI32Encode` | pilota/src/thrift/binary_unsafe.rs:1081-1087 | reading an i32 inverts `write_i32` |
| `Decoding.DecodeI64Encode` | pilota/src/thrift/binary_unsafe.rs:1090-1096 | reading an i64 inverts `write_i64` |
| `Decoding.DecodeDoubleEncode` | pilota/src/thrift/binary_unsafe.rs:1099-1107 | reading a double's bit pattern inverts `write_double` |
| `Decoding.DecodeBoolEncode` | pilota/src/thrift/binary_unsafe.rs:1029-1035 | reading a bool inverts `write_bool` |
| `Decoding.CheckMessageHeader` | pilota/src/thrift/binary_unsafe.rs:959-982 | a positive word is BadVersion; an accepted word is negative and its low four bits are the returned type's code |
| `Decoding.HeaderAccepted` | pilota/src/thrift/binary_unsafe.rs:958-982 | the header word of every message type is accepted and yields that type |
| `Decoding.HeaderAcceptance` | pilota/src/thrift/binary_unsafe.rs:959-982 | a header is accepted with type `t` exactly when its 32-bit pattern has upper half 0x8001 and low four bits `t`'s code; the bits between are ignored |
| `Decoding.HeaderErrors` | pilota/src/thrift/binary_unsafe.rs:959-982 | errors in order: a positive word is BadVersion; then an unknown low nibble is InvalidData; then a wrong upper half is BadVersion |
| `Decoding.BinaryPayload` | pilota/src/thrift/binary_unsafe.rs:1038-1046 | the payload is the `len` bytes after the 4-byte prefix |
| `Decoding.BinaryRoundTrip` | pilota/src/thrift/binary_unsafe.rs:1110-1121 | a length-prefixed payload shorter than 2^31 reads back as itself, leaving what followed it |
| `Decoding.ParseMessageBegin` | pilota/src/thrift/binary_unsafe.rs:958-988 | a rejected header consumes exactly the 4 header bytes |
| `Decoding.MessageBeginRoundTrip` | pilota/src/thrift/binary_unsafe.rs:958-988 | reading the bytes of `write_message_begin` gives back the same name, type and sequence number, consuming all of them |
| `Decoding.ParseFieldBegin` | pilota/src/thrift/binary_unsafe.rs:1006-1021 | fails exactly when the type byte is unknown, and then with InvalidData after 1 byte |
| `Decoding.FieldBeginRoundTrip` | pilota/src/thrift/binary_unsafe.rs:1006-1021 | a field header of a non-Stop type reads back as itself in 3 bytes |
| `Decoding.FieldStopRoundTrip` | pilota/src/thrift/binary_unsafe.rs:1014-1017 | the stop marker reads back as Stop with id 0, consuming 1 byte |
| `Decoding.FieldBeginStopLeavesId` | pilota/src/thrift/binary_unsafe.rs:1014-1017 | a field header written with type Stop is read as the stop marker, leaving its id bytes unread |
| `Decoding.ParseCollectionBegin` | pilota/src/thrift/binary_unsafe.rs:1146-1150 | fails exactly when the element type byte is unknown, and then with InvalidData after 1 byte |
| `Decoding.CollectionBeginRoundTrip` | pilota/src/thrift/binary_unsafe.rs:1146-1150 | a list or set header with size below 2^31 reads back as itself in 5 bytes |
| `Decoding.CollectionSizeOverflow` | pilota/src/thrift/binary_unsafe.rs:396-399 | a size of 2^31 is cut by `as i32` and reads back as 2^64 - 2^31 |
| `Decoding.ParseMapBegin` | pilota/src/thrift/binary_unsafe.rs:1170-1175 | fails exactly when the key or value type byte is unknown, and then with InvalidData |
| `Decoding.MapBeginRoundTrip` | pilota/src/thrift/binary_unsafe.rs:1170-1175 | a map header with size below 2^31 reads back as itself in 6 bytes |
| `SyncReader.Reader.constructor` | pilota/src/thrift/binary_unsafe.rs:38-46 | the cursor starts at 0 over the transport |
| `SyncReader.Reader.ReadByte` | pilota/src/thrift/binary_unsafe.rs:1183-1189 | returns the byte at the cursor and advances it by 1; the transport is unchanged |
| `SyncReader.Reader.ReadI8` | pilota/src/thrift/binary_unsafe.rs:1063-1069 | returns the signed byte at the cursor and advances by 1 |
| `SyncReader.Reader.ReadI16` | pilota/src/thrift/binary_unsafe.rs:1072-1078 | returns the big-endian i16 at the cursor and advances by 2 |
| `SyncReader.Reader.ReadI32` | pilota/src/thrift/binary_unsafe.rs:1081-1087 | returns the big-endian i32 at the cursor and advances by 4 |
| `SyncReader.Reader.ReadI64` | pilota/src/thrift/binary_unsafe.rs:1090-1096 | returns the big-endian i64 at the cursor and advances by 8 |
| `SyncReader.Reader.ReadDouble` | pilota/src/thrift/binary_unsafe.rs:1099-1107 | returns the big-endian 64-bit pattern and advances by 8 |
| `SyncReader.Reader.ReadBool` | pilota/src/thrift/binary_unsafe.rs:1029-1035 | returns false only for a zero byte and advances by 1 |
| `SyncReader.Reader.ReadUuid` | pilota/src/thrift/binary_unsafe.rs:1049-1060 | returns the 16 bytes at the cursor and advances by 16 |
| `SyncReader.Reader.SplitPayload` | pilota/src/thrift/binary_unsafe.rs:1040-1044 | drops the bytes before the cursor, splits off the next `len` bytes as the result, and leaves the transport holding what follows them, with the cursor at 0 |
| `SyncReader.Reader.ReadBytes` | pilota/src/thrift/binary_unsafe.rs:1038-1046 | returns the payload after the prefix, always split off the transport |
| `SyncReader.Reader.ReadBytesVec` | pilota/src/thrift/binary_unsafe.rs:1192-1199 | returns the payload after the prefix, always split off the transport |
| `SyncReader.Reader.ReadString` | pilota/src/thrift/binary_unsafe.rs:1110-1121 | returns the payload after the prefix, copied; the cursor advances past it and the transport is unchanged |
| `SyncReader.Reader.ReadFaststr` | pilota/src/thrift/binary_unsafe.rs:1124-1143 | returns the payload after the prefix; split off when it reaches the threshold, copied below it; the unread bytes are the same either way |
| `SyncReader.Reader.ReadMessageBegin` | pilota/src/thrift/binary_unsafe.rs:958-988 | returns `ParseMessageBegin` of the unread bytes and consumes what it consumes |
| `SyncReader.Reader.ReadFieldBegin` | pilota/src/thrift/binary_unsafe.rs:1006-1021 | returns `ParseFieldBegin` of the unread bytes and consumes what it consumes |
| `SyncReader.Reader.ReadListBegin` | pilota/src/thrift/binary_unsafe.rs:1146-1150 | returns `ParseCollectionBegin` of the unread bytes as a list header |
| `SyncReader.Reader.ReadSetBegin` | pilota/src/thrift/binary_unsafe.rs:1158-1162 | returns `ParseCollectionBegin` of the unread bytes as a set header |
| `SyncReader.Reader.ReadMapBegin` | pilota/src/thrift/binary_unsafe.rs:1170-1175 | returns `ParseMapBegin` of the unread bytes and consumes what it consumes |
| `RoundTrip.ReadLike` | pilota/src/thrift/binary_unsafe.rs:955-1205 | the read call matching a write call, on the unread bytes: whatever it recovers, it never consumes more bytes than there are |
| `RoundTrip.ReadScalar` | pilota/src/thrift/binary_unsafe.rs:1029-1107 | the scalar reads `read_bool` … `read_double`, `read_byte`, `read_uuid`; never consume more bytes than there are |
| `RoundTrip.ReadPayload` | pilota/src/thrift/binary_unsafe.rs:1038-1143 | the payload reads `read_bytes`, `read_string`, `read_faststr`, `read_bytes_vec`; never consume more bytes than there are |
| `RoundTrip.ReadHeader` | pilota/src/thrift/binary_unsafe.rs:958-1175 | the message, field, list, set and map header reads; never consume more bytes than there are |
| `RoundTrip.ReadField` | pilota/src/thrift/binary_unsafe.rs:1006-1021 | `read_field_begin`, which yields the stop marker for a Stop tag and a field header otherwise; never consumes more bytes than there are |
| `RoundTrip.ReadAllLike` | pilota/src/thrift/binary_unsafe.rs:955-1205 | one matching read per call, in order: recovers as many calls as were asked for, and the unread rest is a suffix of the input |
| `RoundTrip.ScalarReadsBack` | pilota/src/thrift/binary_unsafe.rs:1029-1107 | every scalar write is read back unchanged by its matching read, consuming exactly its bytes |
| `RoundTrip.PayloadReadsBack` | pilota/src/thrift/binary_unsafe.rs:1038-1143 | every bytes, string, faststr or bytes-vec write below 2^31 bytes is read back unchanged |
| `RoundTrip.HeaderReadsBack` | pilota/src/thrift/binary_unsafe.rs:958-1175 | every message, field, stop, list, set and map header is read back unchanged |
| `RoundTrip.OpReadsBack` | pilota/src/thrift/binary_unsafe.rs:955-1205 | any single write call reads back as itself and consumes exactly its bytes |
| `RoundTrip.StreamReadsBack` | pilota/src/thrift/binary_unsafe.rs:955-1205 | reading the bytes of a whole sequence of write calls, one matching read per call, gives back the same calls and leaves what followed unread |
| `Scenarios.PingCallBytes` | pilota/src/thrift/binary_unsafe.rs:207-214 | a call to "ping" with sequence number 7 and an empty struct is `80 01 00 01 00 00 00 04 70 69 6E 67 00 00 00 07 00` |
| `Scenarios.CallHeaderBytes` | pilota/src/thrift/binary_unsafe.rs:207-210 | the header word of a call is `80 01 00 01` |
| `Scenarios.WrongVersionRejected` | pilota/src/thrift/binary_unsafe.rs:976-982 | the header `80 02 00 01` is BadVersion |
| `Scenarios.UnversionedRejected` | pilota/src/thrift/binary_unsafe.rs:961-966 | the positive header word 4 (`00 00 00 04`, an unversioned header) is BadVersion |
| `Scenarios.UnknownMessageTypeRejected` | pilota/src/thrift/binary_unsafe.rs:967-974 | the header `80 01 00 05` is InvalidData |
| `Scenarios.UnknownFieldTypeRejected` | pilota/src/thrift/binary_unsafe.rs:1007-1013 | type byte 5 fails the field header read with InvalidData after 1 byte |
| `Scenarios.MapHeaderBytes` | pilota/src/thrift/binary_unsafe.rs:418-424 | a map from i32 to strings with 2 entries has the header `08 0B 00 00 00 02`; swapping key and value types gives `0B 08 00 00 00 02` |

## Left out

- The asynchronous reader `TAsyncBinaryProtocol` (lines 742-953) is not part of this model. It
  is tokio I/O. Its header and field validation is the synchronous reader's, which is modelled.
- Doubles are their 64-bit pattern only (`to_bits` / `from_bits`). Floating point is not modelled.
- Strings are byte sequences. UTF-8 is neither validated nor produced, as
  `from_utf8_unchecked` does not validate either.
- The internals of `BytesMut`, `LinkedBytes` and `FastStr` are abstract. That covers reference
  counting, pointer identity and the raw-pointer re-derivation of `buf`.
  - The contiguous writer's `buf` and `trans` alias one region, modelled as one array.
  - The reader's transport is a sequence of bytes.
  - The chained writer's chain is a sequence of committed segments plus a window array.
- After a splice, the chained writer's window is a fresh array with the remaining capacity:
  the old room minus the 4 prefix bytes already stored. How `LinkedBytes` re-derives it is
  not modelled.
- `buf_mut` (lines 451-453, 737-739, 1202-1204) is left out; it only panics.
- The bracket calls that write or read nothing are not methods of the writer and reader
  classes: `write_message_end`, `write_struct_begin`, `write_struct_end`, `write_field_end`,
  `write_list_end`, `write_set_end`, `write_map_end` and `flush`, and on the read side
  `read_message_end`, `read_struct_begin` (always `None`), `read_struct_end`,
  `read_field_end`, `read_list_end`, `read_set_end` and `read_map_end`. They touch no
  state. They appear as zero-length `_len` answers, as empty encodings in `Encoding.Encode`,
  and as zero-byte reads in `RoundTrip.ReadLike`.
- Error values carry only their kind (BadVersion, InvalidData). The message texts are left
  out, and so is the conversion from a protocol error to a decode error.
- Field identifiers carry no name; the reader always sets it to `None`.
- `write_field_begin_len` takes an optional id; the model takes an i16, since the id does
  not affect the length.
- Unchecked stores and loads (`get_unchecked`, `copy_nonoverlapping`) are preconditions:
  enough room in the region, enough unread bytes. The code does not check them; violating
  them is undefined behaviour.
- The panic of `split_to` is not modelled. `read_bytes`, `read_bytes_vec` and the large-payload
  path of `read_faststr` (lines 1043, 1130, 1196) panic when the length prefix exceeds the
  bytes left; the precondition `Decoding.BinaryFits` (non-negative prefix, payload within
  the unread bytes) excludes that case.
- A negative length prefix on a payload read is excluded by the same precondition. In the
  code, `len as usize` then wraps to a huge length. `read_bytes`, `read_bytes_vec` and
  `read_faststr` pass it to `split_to`, which panics. `read_string` (lines 1112-1118) passes
  it to `get_unchecked`, an out-of-range load.
- Negative list, set and map sizes are modelled as the code computes them: the
  sign-extending `as usize` of a 64-bit target (`BigEndian.I32AsUsize`).
- `ZERO_COPY_THRESHOLD`, `TType` and `TMessageType` are defined outside `binary_unsafe.rs`.
  The threshold is the constant 4096; no proof's validity depends on its value. The type codes are those of
  the Thrift binary protocol. Its tag set includes `Void = 1`, so `field_type_from_u8`
  (lines 50-59), which accepts every byte `TType` converts from, accepts 1 as `Void`.
  The model follows that tag set; the codes 5, 7 and 9 and everything above 16 are rejected.
- The length pass, the writers and the reader are not connected by a loop that drives them
  through a value. That is generated code outside `binary_unsafe.rs`. Their agreement is stated per
  call (`_len` value = cursor advance = encoded size) and over call sequences
  (`Length.LengthAgreement`, `RoundTrip.StreamReadsBack`).
