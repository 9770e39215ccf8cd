# binary-codec in Dafny

A model of the `binary-codec` Rust library and of the two formats its tests
build on it.

The library has two halves:

- **Decoding** (`src/decode.rs`). A reader is a cursor over a byte source. It offers two reads:
  `read_fixed_length::<N>` and `read_variable_length(length)`. Each fills a buffer with
  `read_exact` or fails. Two dispatchers, `try_decode` and `try_decode_with(ctx)`, hand the
  reader (and a context) to a type's `handle`.
- **Encoding** (`src/encode.rs`). A writer is an append-only sink. Two dispatchers,
  `try_encode` and `try_encode_with`, hand the writer (and a context) to a type's `handle`.

The formats are:

- **A toy bitmap** (`tests/bitmap.rs`). It has a 14-byte file header with the "BM"
  signature, a 40-byte info header whose size field must be 40, and a colour table. The
  table's shape (BGR triples or BGRA quads) and length come from the two headers.
- **A length-prefixed frame** (`tests/frame.rs`). A big-endian `u32` length is followed by
  exactly that many payload bytes.

Modules, one per file:

- `Results`: the `Result` type.
- `Bytes`: bytes, fixed-width integers and their little- and big-endian conversions, with
  their round trips.
- `Decode`: the `Reader` class and the decode dispatchers.
- `Encode`: the `Writer` class and the encode dispatchers.
- `Bitmap` and `Frame`: the two formats.

How the model is built:

- Each format's decoder is an imperative method over the live `Reader`. It is proved
  against a pure layout function, `...Step(input)`. That function gives the result and the
  number of bytes consumed from the front of `input`.
- Each encoder is a method over the live `Writer`. It is proved to append exactly
  `...Bytes(value)`.
- Lemmas relate the two: decode(encode(x)) == x, and the re-encoding of a decoded value is
  the prefix it was decoded from. Further lemmas cover error cases and the context-dependent
  colour table.
- Rust dispatches to a `handle` chosen by the type. Dafny functions can be passed as values,
  methods cannot. So the generic dispatchers `TryDecode`/`TryEncode` take a handle described
  by its effect:
  - a decode handle gives a result and how many bytes it consumed;
  - an encode handle gives the bytes it appends and its result.
- The formats' handles call one another directly, as Rust's static dispatch does.

Where the library's tests and its code differ: in `src/encode.rs:105-106` the test named for
`try_encode_with` calls `try_encode`. `Encode.TryEncodeWithU16` models the call the test's
name and handle intend: `try_encode_with(value, ())`.

## Model

| member | source | states |
|---|---|---|
| Decode.Reader.ReadExact | src/decode.rs:70 | `read_exact` on an in-memory cursor: it succeeds exactly when `n` bytes remain. On success it returns the next `n` bytes and advances by `n`. It fails with `UnexpectedEof` otherwise. |
| Decode.Reader.ReadFixedLength | src/decode.rs:68-72 | Succeeds exactly when `n` bytes remain. It then returns exactly the next `n` source bytes and advances by `n`. Otherwise it is an I/O error, and no bytes reach the caller. |
| Decode.Reader.ReadVariableLength | src/decode.rs:74-78 | A buffer of exactly `length` bytes, equal to the next `length` bytes, with the cursor advanced by `length`. `length == 0` always gives `Ok([])` and leaves the cursor where it was. |
| Decode.Reader.TryDecode | src/decode.rs:47-52 | Returns exactly the handle's result, its own error included. The cursor moves by exactly the handle's count. |
| Decode.Reader.TryDecodeWith | src/decode.rs:54-59 | The same, with `ctx` passed to the handle unchanged. |
| Decode.U16BeHandle | src/decode.rs:117-119 | The two-byte big-endian handle succeeds exactly on two or more bytes. It then consumes 2, and `to_be_bytes` of its value is those two bytes. |
| Decode.U16BeHandleWith | src/decode.rs:135-137 | The handle taking the unit context ignores it: it succeeds exactly on two or more bytes, consumes 2, and `to_be_bytes` of its value is those two bytes. |
| Decode.ReadFixedLengthU16 | src/decode.rs:93-97 | Reading 2 bytes from a cursor over `value.to_be_bytes()` and converting big-endian gives `value`. |
| Decode.ReadVariableLengthU16 | src/decode.rs:100-107 | The same through `read_variable_length(2)`, the value rebuilt from entries 0 and 1. |
| Decode.TryDecodeU16 | src/decode.rs:110-125 | `try_decode` with the `u16` handle gives back `value` and consumes both bytes. |
| Decode.TryDecodeWithU16 | src/decode.rs:128-143 | `try_decode_with(())` gives back `value` and consumes both bytes. |
| Encode.Writer.WriteAll | src/encode.rs:82 | `write_all` on a `Vec` sink: the buffer becomes the old buffer followed by exactly the bytes written. |
| Encode.Writer.TryEncode | src/encode.rs:37-42 | Exactly the handle's bytes are appended, and the handle's result, error included, is returned as it is. |
| Encode.Writer.TryEncodeWith | src/encode.rs:44-53 | The same, with `ctx` handed to the handle unchanged. |
| Encode.U16BeEmit | src/encode.rs:81-83 | The `u16` handle succeeds and emits two bytes, which read back big-endian to the value. |
| Encode.U16BeEmitWith | src/encode.rs:100-102 | The same for the handle taking the unit context, which it ignores. |
| Encode.TryEncodeU16 | src/encode.rs:73-90 | Encoding a `u16` into an empty writer leaves exactly two bytes: `value / 256`, then `value % 256`. Reading them big-endian gives `value`. |
| Encode.TryEncodeWithU16 | src/encode.rs:92-109 | The same through `try_encode_with(value, ())`. |
| Bytes.LeValueOfLeBytes | tests/bitmap.rs:56-84 | Little-endian digits: writing a value that fits in `n` bytes and reading it back gives the value. |
| Bytes.LeBytesOfLeValue | tests/bitmap.rs:56-84 | Reading `n` bytes as a little-endian value and writing it back in `n` bytes gives the same bytes. |
| Bytes.BeValueOfBeBytes | src/encode.rs:82 | The big-endian counterpart of `LeValueOfLeBytes`. |
| Bytes.BeBytesOfBeValue | src/decode.rs:118 | The big-endian counterpart of `LeBytesOfLeValue`. |
| Bytes.U16ToLe | tests/bitmap.rs:82 | `u16::to_le_bytes` gives 2 bytes, and `from_le_bytes` of them is the value. |
| Bytes.U16ToBe | src/encode.rs:82 | `u16::to_be_bytes` gives 2 bytes, and `from_be_bytes` of them is the value. |
| Bytes.U32ToLe | tests/bitmap.rs:81 | `u32::to_le_bytes` gives 4 bytes, and `from_le_bytes` of them is the value. |
| Bytes.U32ToBe | tests/frame.rs:30 | `u32::to_be_bytes` gives 4 bytes, and `from_be_bytes` of them is the value. |
| Bytes.I32ToLe | tests/bitmap.rs:176 | `i32::to_le_bytes` (two's complement) gives 4 bytes, and `from_le_bytes` of them is the value. |
| Bytes.U16FromLe | tests/bitmap.rs:60 | `u16::from_le_bytes([a, b]) == a + 256 * b`. |
| Bytes.U16FromBe | src/decode.rs:95 | `u16::from_be_bytes([a, b]) == 256 * a + b`. |
| Bytes.U32FromLe | tests/bitmap.rs:56 | `u32::from_le_bytes` weighs its bytes by 1, 2^8, 2^16 and 2^24, in order. |
| Bytes.U32FromBe | tests/frame.rs:21 | `u32::from_be_bytes` weighs its bytes by 2^24, 2^16, 2^8 and 1, in order. |
| Bytes.I32FromLe | tests/bitmap.rs:127 | `i32::from_le_bytes` is negative exactly when the top bit of the last byte is set. The value is then the unsigned reading minus 2^32. |
| Bytes.U16LeBytesRoundTrip | tests/bitmap.rs:60 | `to_le_bytes(from_le_bytes(bs)) == bs` for `u16`. |
| Bytes.U16BeBytesRoundTrip | src/decode.rs:118 | `to_be_bytes(from_be_bytes(bs)) == bs` for `u16`. |
| Bytes.U32LeBytesRoundTrip | tests/bitmap.rs:56 | `to_le_bytes(from_le_bytes(bs)) == bs` for `u32`. |
| Bytes.U32BeBytesRoundTrip | tests/frame.rs:21 | `to_be_bytes(from_be_bytes(bs)) == bs` for `u32`. |
| Bytes.I32LeBytesRoundTrip | tests/bitmap.rs:127 | `to_le_bytes(from_le_bytes(bs)) == bs` for `i32`. |
| Bitmap.FileHeaderStep | tests/bitmap.rs:44-70 | The file-header layout never consumes more than it is given. Its cases are spelled out in `FileHeaderErrors` and its round-trip lemmas. |
| Bitmap.FileHeaderBytes | tests/bitmap.rs:79-86 | The file header is written as 14 bytes. |
| Bitmap.ReadU32Le | tests/bitmap.rs:53-56 | A field read: succeeds exactly when 4 bytes remain at offset `k`. The value is `u32::from_le_bytes` of those bytes, and the cursor advances by 4. |
| Bitmap.ReadU16Le | tests/bitmap.rs:57-60 | The same for a 2-byte `u16` field. |
| Bitmap.ReadI32Le | tests/bitmap.rs:124-127 | The same for a 4-byte `i32` field. |
| Bitmap.DecodeFileHeader | tests/bitmap.rs:44-70 | The file header's handle returns exactly the layout's result. Unless it fails with an I/O error, it consumes exactly the layout's count: 2 bytes after a bad signature, 14 on success. |
| Bitmap.EncodeFileHeader | tests/bitmap.rs:79-86 | Appends exactly the 14 layout bytes: signature, LE `file_size`, LE `reserved_1`, LE `reserved_2`, LE `offset`. |
| Bitmap.FileHeaderRoundTrip | tests/bitmap.rs:44-86 | A "BM" header decodes back from its encoding, whatever follows it. Exactly 14 bytes are consumed. |
| Bitmap.FileHeaderReencode | tests/bitmap.rs:44-86 | A decoded header consumed 14 bytes and encodes back to exactly those 14 bytes. |
| Bitmap.FileHeaderErrors | tests/bitmap.rs:46-52 | Success happens exactly on 14 or more bytes starting with "BM". `InvalidSignature` is returned exactly when two bytes are present and they are not "BM"; it carries those two bytes, after only they were consumed. Fewer than 2 bytes give `Io`, never `InvalidSignature`. |
| Bitmap.InfoHeaderStep | tests/bitmap.rs:114-165 | The info-header layout never consumes more than it is given. Its cases are spelled out in `InfoHeaderErrors` and its round-trip lemmas. |
| Bitmap.InfoHeaderErrors | tests/bitmap.rs:116-123 | Success happens exactly on 40 or more bytes whose size field is 40. `UnsupportedInfoHeaderSize(size)` is returned exactly when 4 bytes are present and give another size, after only those 4 were consumed. Fewer than 4 bytes give `Io`, never `UnsupportedInfoHeaderSize`. |
| Bitmap.InfoHeaderAt | tests/bitmap.rs:115-164 | The 11 fields at their offsets; `Bitmap.InfoHeaderAtBytes` states that they encode back to those 40 bytes. |
| Bitmap.InfoHeaderBytes | tests/bitmap.rs:174-187 | The info header is written as 40 bytes. |
| Bitmap.DecodeInfoHeader | tests/bitmap.rs:114-165 | Returns exactly the layout's result. Unless that is an I/O error, it consumes the layout's count: 4 after a bad size, 40 on success. |
| Bitmap.EncodeInfoHeader | tests/bitmap.rs:174-187 | Appends exactly the 11 fields in decode order, little-endian. The size is written as it stands. |
| Bitmap.InfoHeaderRoundTrip | tests/bitmap.rs:114-187 | An info header with size 40 decodes back from its encoding, whatever follows it. 40 bytes are consumed. |
| Bitmap.InfoHeaderReencode | tests/bitmap.rs:114-187 | A decoded info header consumed 40 bytes and encodes back to exactly those bytes. |
| Bitmap.InfoHeaderAtBytes | tests/bitmap.rs:114-187 | The 11 fields read at their offsets encode back to the first 40 bytes. |
| Bitmap.TripleOf | tests/bitmap.rs:203-206 | The triple read from `[b, g, r]` encodes back to the same three bytes. |
| Bitmap.TripleBytes | tests/bitmap.rs:215-217 | A triple is written as three bytes. |
| Bitmap.QuadOf | tests/bitmap.rs:234-237 | The quad read from `[b, g, r, reserved]` encodes back to the same four bytes. |
| Bitmap.QuadBytes | tests/bitmap.rs:246-248 | A quad is written as four bytes. |
| Bitmap.TripleRoundTrip | tests/bitmap.rs:203-217 | Decoding an encoded triple gives the triple. |
| Bitmap.QuadRoundTrip | tests/bitmap.rs:234-248 | Decoding an encoded quad gives the quad. |
| Bitmap.DecodeRgbTriple | tests/bitmap.rs:203-206 | Succeeds exactly when 3 bytes remain. It returns the triple with `b, g, r` taken in that order, and advances by 3. |
| Bitmap.DecodeRgbQuad | tests/bitmap.rs:234-237 | Succeeds exactly when 4 bytes remain. It returns the quad with `b, g, r, reserved` taken in that order, and advances by 4. |
| Bitmap.EncodeRgbTriple | tests/bitmap.rs:215-217 | Appends `[b, g, r]`. |
| Bitmap.EncodeRgbQuad | tests/bitmap.rs:246-248 | Appends `[b, g, r, reserved]`. |
| Bitmap.TriplesOf | tests/bitmap.rs:291-295 | A buffer of `3n` bytes gives `n` triples. |
| Bitmap.QuadsOf | tests/bitmap.rs:302-306 | A buffer of `4n` bytes gives `n` quads. |
| Bitmap.TriplesBytes | tests/bitmap.rs:321-325 | `n` triples are written as `3n` bytes. |
| Bitmap.QuadsBytes | tests/bitmap.rs:326-330 | `n` quads are written as `4n` bytes. |
| Bitmap.ColorTableBytes | tests/bitmap.rs:319-333 | A table is written as three bytes per triple or four per quad. |
| Bitmap.TriplesOfSnoc | tests/bitmap.rs:291-295 | Appending one entry's three bytes to whole triples appends that triple, as each loop step pushes one. |
| Bitmap.QuadsOfSnoc | tests/bitmap.rs:302-306 | Appending one entry's four bytes to whole quads appends that quad. |
| Bitmap.TriplesOfTriplesBytes | tests/bitmap.rs:291-325 | Encoding a list of triples and decoding the bytes gives the list back. |
| Bitmap.TriplesBytesOfTriplesOf | tests/bitmap.rs:291-325 | Decoding `3n` bytes as triples and encoding them gives the same bytes. |
| Bitmap.QuadsOfQuadsBytes | tests/bitmap.rs:302-330 | Encoding a list of quads and decoding the bytes gives the list back. |
| Bitmap.QuadsBytesOfQuadsOf | tests/bitmap.rs:302-330 | Decoding `4n` bytes as quads and encoding them gives the same bytes. |
| Bitmap.ColorTableStep | tests/bitmap.rs:284-310 | The colour-table layout never consumes more than it is given. Its cases are spelled out in `ColorTableErrors` and the round-trip lemmas. |
| Bitmap.ColorTableErrors | tests/bitmap.rs:284-310 | Bit count 24 with `length % 3 != 0`, and 32 with `length % 4 != 0`, give `InvalidDataLength(length)`. Any other bit count gives `UnsupportedColorPalette(bit_count)`. Neither consumes a byte. Otherwise the table is read exactly when `length` bytes are present, consuming `length`; when they are not, the error is `Io`. |
| Bitmap.DecodeTriples | tests/bitmap.rs:291-295 | The loop succeeds exactly when at least `3 * count` bytes remain; it then yields the triples of those bytes in order and advances by `3 * count`. Its only failure is a short read. |
| Bitmap.DecodeQuads | tests/bitmap.rs:302-306 | The loop succeeds exactly when at least `4 * count` bytes remain; it then yields the quads of those bytes in order and advances by `4 * count`. Its only failure is a short read. |
| Bitmap.DecodeColorTable | tests/bitmap.rs:284-310 | The loop that pushes `length/3` triples (or `length/4` quads) returns exactly the layout's result. Unless that is an I/O error, it consumes the layout's count (`length`, or 0 on a domain error). |
| Bitmap.EncodeColorTable | tests/bitmap.rs:319-333 | Appends each entry in list order. |
| Bitmap.ColorTableReencode | tests/bitmap.rs:284-333 | A decoded table consumed `length` bytes and encodes back to exactly those bytes. |
| Bitmap.ColorTableRoundTrip | tests/bitmap.rs:284-333 | A table decodes back from its encoding under the context that describes it, whatever follows it. |
| Bitmap.ContextSelectsPalette | tests/bitmap.rs:285-308 | The context alone decides the shape. The same bytes, of a length divisible by both 3 and 4, read at bit count 24 give triples and at 32 give quads. The two results always differ, and have `length / 3` and `length / 4` entries. |
| Bitmap.FromHeaders | tests/bitmap.rs:270-275 | `length + offset == file_size` and `bit_count` is the info header's. This needs `offset <= file_size`. |
| Bitmap.FromFileHeaderError | tests/bitmap.rs:358-361 | `Io` stays `Io`, and only `Io` becomes `Io`. |
| Bitmap.FromInfoHeaderError | tests/bitmap.rs:363-368 | `Io` stays `Io`, and only `Io` becomes `Io`. |
| Bitmap.FromColorTableError | tests/bitmap.rs:372-380 | `Io` stays `Io`, and only `Io` becomes `Io`. |
| Bitmap.ErrorMappingsAreInjective | tests/bitmap.rs:358-380 | Each stage's errors map one-to-one into `BitmapError`. Two stages agree only on `Io`. |
| Bitmap.ToyBitmapStep | tests/bitmap.rs:357-387 | The bitmap layout is the three stages in order. Each runs on the bytes the previous one left, the table under `from_headers` of the two headers. It never consumes more than it is given. |
| Bitmap.ToyBitmapBytes | tests/bitmap.rs:396-401 | A bitmap is written as `54 + n` bytes, `n` being the byte count of its colour table. |
| Bitmap.DecodeToyBitmap | tests/bitmap.rs:357-387 | Returns exactly the layout's result, each stage's error mapped into `BitmapError`. Unless that is an I/O error, it consumes the layout's count. |
| Bitmap.EncodeToyBitmap | tests/bitmap.rs:396-401 | Appends file header, info header and colour table, in that order. |
| Bitmap.ToyBitmapReencode | tests/bitmap.rs:357-417 | A decoded bitmap consumed `54 + file_size - offset` bytes and encodes back to exactly those bytes. |
| Bitmap.ToyBitmapRoundTrip | tests/bitmap.rs:357-401 | A consistent bitmap decodes back from its encoding, whatever follows it. Consistent means: "BM", size 40, a bit count matching the palette, and `file_size - offset` equal to the table's length. |
| Bitmap.ToyBitmapStepOfStages | tests/bitmap.rs:357-387 | When the three stages succeed in turn, the bitmap decoder succeeds with their three parts after `54 + n` bytes. |
| Bitmap.ContextOfConsistent | tests/bitmap.rs:270-275 | For a consistent bitmap, `from_headers` gives exactly the context that describes its table. |
| Bitmap.ReencodeBitmap | tests/bitmap.rs:404-417 | Decode from a fresh cursor and encode into an empty buffer. The output is the consumed prefix of the input, and the whole input when all of it was consumed. Decode errors are returned unchanged. |
| Frame.DecodeLengthHeader | tests/frame.rs:20-22 | The length prefix is the four bytes read big-endian, the first byte highest. |
| Frame.EncodeLengthHeader | tests/frame.rs:29-31 | The prefix is written as four bytes. |
| Frame.DecodePayload | tests/frame.rs:37-39 | The payload decoded from a buffer encodes back to that buffer. |
| Frame.EncodePayload | tests/frame.rs:46-48 | A payload is written as exactly as many bytes as it holds. |
| Frame.LengthHeaderRoundTrip | tests/frame.rs:20-31 | Decoding an encoded length header gives it back. |
| Frame.LengthHeaderReencode | tests/frame.rs:20-31 | Encoding a decoded length header gives the same four bytes. |
| Frame.PayloadRoundTrip | tests/frame.rs:37-48 | The payload conversions are inverse to each other in both directions. |
| Frame.FrameStep | tests/frame.rs:57-66 | The frame layout never consumes more than it is given. Its cases are spelled out by `FrameErrors` and the round-trip lemmas. |
| Frame.FrameBytes | tests/frame.rs:75-78 | A frame is written as `4 + |payload|` bytes. |
| Frame.DecodeFrame | tests/frame.rs:57-66 | A fixed 4-byte read, then a variable read of that many bytes. Returns exactly the layout's result. On success the cursor moves by `4 + k`. |
| Frame.EncodeFrame | tests/frame.rs:75-78 | Appends the prefix bytes, then the payload bytes. Nothing checks that the two agree. |
| Frame.FrameErrors | tests/frame.rs:58-60 | Success happens exactly when at least `4 + k` bytes are present. Every failure is `Io(UnexpectedEof)`, never `UserDefined`. |
| Frame.FrameRoundTrip | tests/frame.rs:57-78 | A frame whose prefix equals its payload length decodes back from its encoding, whatever follows. `4 + |payload|` bytes are consumed. |
| Frame.FrameReencode | tests/frame.rs:57-78 | A decoded frame consumed `4 + k` bytes and encodes back to exactly those bytes. |
| Frame.FrameBytesDecodeBack | tests/frame.rs:75-78 | The bytes written for a frame decode back to that frame exactly when its prefix equals its payload length. |
| Frame.ReencodeFrame | tests/frame.rs:82-93 | Decode then re-encode. The output is the consumed prefix of the input. The only error is `Io(UnexpectedEof)`. |
| Frame.EquivalentWhenDecodeAndEncode | tests/frame.rs:82-93 | `00 00 00 04 11 22 33 44` decodes to prefix 4 and payload `11 22 33 44`, and encodes back to the same eight bytes. |

## Left out

- Real `std::io` / `core2::io` behaviour. Partial reads, `Interrupted` retries and `ErrorKind` values are not modelled. The one transport error is `UnexpectedEof`, because an in-memory source has no other.
- Decode.Reader.ReadExact: the cursor position after a failed read is not promised. The std documentation leaves it unspecified. The model's cursor moves to the end, as `std::io::Cursor` does, but no contract states that. For the same reason, the format decoders (`Bitmap.DecodeFileHeader`, `Bitmap.DecodeInfoHeader`, `Bitmap.DecodeColorTable`, `Bitmap.DecodeToyBitmap`, `Frame.DecodeFrame`) say nothing about the position after an I/O error.
- The `Reader` is an in-memory cursor, not any `Read` implementor.
- The `Writer` is a `Vec<u8>`, so `write_all` never fails. Sinks that fail part-way, and the encoders' `Err` results, are not modelled.
- The `std`/`core2` feature flags, the `no_std` setup and the quickcheck generators are not modelled. The quickcheck properties are stated for every `u16` instead.
- The contents of `tests/example.bmp` are not part of this model. `Bitmap.ReencodeBitmap` states the whole-file round trip for any input.
- `src/error.rs` (`Debug`, `Display`, `source()`) and `src/lib.rs` (module declarations) are formatting and re-exports.
- The decode/encode façade that `tests/frame.rs` calls (`decode_fixed_array`, `decode_vector`, `encode_bytes`, `decode_mutable_read`, `encode_mutable_write`) is not defined in `src`. The frame is modelled on `ReadFixedLength` and `ReadVariableLength` directly. Its error is a two-case `CodecError` (`Io` or `UserDefined`).
- Rust's uninhabited `Infallible` becomes `()`. The parts' conversions are total functions. `Frame.FrameErrors` shows that the `UserDefined` case never arises.
- Bitmap.DecodeToyBitmap: `file_size - offset` in `from_headers` panics or wraps depending on the build. The model therefore requires `HeadersFit`: whenever both headers decode, `offset <= file_size`. It does not model the overflow.
- Bitmap.ToyBitmapStep: carries the same `HeadersFit` precondition, for the same reason.
- Bitmap.FromHeaders: requires `offset <= file_size` instead of modelling the underflow.
- Frame.DecodeFrame: `length_header.0 as usize` is taken as lossless (a 32-bit or wider `usize`).
- Const generics (`[u8; N]`), lifetimes and borrowed slices are not modelled. A fixed-length read takes `N` as a length parameter, and a borrowed slice is an owned sequence.
- Derives (`Debug`, `PartialEq`) are not modelled.
- The bitmap and frame handles call each other directly. The generic dispatchers `Decode.Reader.TryDecode` and `Encode.Writer.TryEncode` take a handle described by its effect, because a Dafny method cannot be passed as a value.
