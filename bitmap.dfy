/**
 A toy BMP codec built on the library: a 14-byte file header, a 40-byte info
 header and a colour table whose shape is chosen by a context built from the
 two headers. All multi-byte fields are little-endian.
 */
module Bitmap {
  import opened Results
  import opened Bytes
  import opened Decode
  import opened Encode

  type Signature = s: seq<byte> | |s| == 2 witness [0x42, 0x4D]

  /** The signature of a bitmap file, "BM". */
  const BM: seq<byte> := [0x42, 0x4D]

  /** The only info-header size the codec accepts. */
  const InfoHeaderSize: U32 := 40

  // ---------------------------------------------------------------------------
  // File header

  datatype FileHeader = FileHeader(signature: Signature, fileSize: U32, reserved1: U16, reserved2: U16, offset: U32)

  datatype FileHeaderError = InvalidSignature(bytes: Signature) | Io(io: IoError)

  /**
   The layout of the file header: a 2-byte signature that must be "BM", then
   `file_size` (u32), `reserved_1` and `reserved_2` (u16) and `offset` (u32).
   A wrong signature is reported once its two bytes are read; running out of
   bytes at any point is an I/O error.
   */
  function FileHeaderStep(input: seq<byte>): (s: Step<FileHeader, FileHeaderError>)
    ensures s.consumed <= |input|
  {
    if |input| < 2 then Step(Err(FileHeaderError.Io(UnexpectedEof)), |input|)
    else if input[..2] != BM then Step(Err(InvalidSignature(input[..2])), 2)
    else if |input| < 14 then Step(Err(FileHeaderError.Io(UnexpectedEof)), |input|)
    else
      Step(Ok(FileHeader(input[..2], U32FromLe(input[2..6]), U16FromLe(input[6..8]),
                         U16FromLe(input[8..10]), U32FromLe(input[10..14]))), 14)
  }

  /** The 14 bytes the file-header encoder writes, field by field. */
  function FileHeaderBytes(h: FileHeader): (bs: seq<byte>)
    ensures |bs| == 14
  {
    h.signature + U32ToLe(h.fileSize) + U16ToLe(h.reserved1) + U16ToLe(h.reserved2) + U32ToLe(h.offset)
  }

  // The three field reads below are `read_fixed_length::<N>()` followed by a
  // `from_le_bytes` conversion. The ghost parameters say where the cursor is:
  // `k` bytes into `input`, the bytes after position `p0` where the handle began.

  method ReadU16Le(reader: Reader, ghost input: seq<byte>, ghost p0: nat, ghost k: nat) returns (r: Result<U16, IoError>)
    requires reader.Valid() && p0 <= |reader.source| && reader.source[p0..] == input && reader.pos == p0 + k
    modifies reader
    ensures reader.Valid()
    ensures r.Ok? <==> k + 2 <= |input|
    ensures r.Err? ==> r.error == UnexpectedEof
    ensures r.Ok? ==> r.value == U16FromLe(input[k..k + 2])
    ensures r.Ok? ==> reader.pos == p0 + k + 2
  {
    var bytes := reader.ReadFixedLength(2);
    if bytes.Err? {
      return Err(bytes.error);
    }
    assert bytes.value == reader.source[p0 + k..p0 + k + 2] == input[k..k + 2];
    r := Ok(U16FromLe(bytes.value));
  }

  method ReadU32Le(reader: Reader, ghost input: seq<byte>, ghost p0: nat, ghost k: nat) returns (r: Result<U32, IoError>)
    requires reader.Valid() && p0 <= |reader.source| && reader.source[p0..] == input && reader.pos == p0 + k
    modifies reader
    ensures reader.Valid()
    ensures r.Ok? <==> k + 4 <= |input|
    ensures r.Err? ==> r.error == UnexpectedEof
    ensures r.Ok? ==> r.value == U32FromLe(input[k..k + 4])
    ensures r.Ok? ==> reader.pos == p0 + k + 4
  {
    var bytes := reader.ReadFixedLength(4);
    if bytes.Err? {
      return Err(bytes.error);
    }
    assert bytes.value == reader.source[p0 + k..p0 + k + 4] == input[k..k + 4];
    r := Ok(U32FromLe(bytes.value));
  }

  method ReadI32Le(reader: Reader, ghost input: seq<byte>, ghost p0: nat, ghost k: nat) returns (r: Result<I32, IoError>)
    requires reader.Valid() && p0 <= |reader.source| && reader.source[p0..] == input && reader.pos == p0 + k
    modifies reader
    ensures reader.Valid()
    ensures r.Ok? <==> k + 4 <= |input|
    ensures r.Err? ==> r.error == UnexpectedEof
    ensures r.Ok? ==> r.value == I32FromLe(input[k..k + 4])
    ensures r.Ok? ==> reader.pos == p0 + k + 4
  {
    var bytes := reader.ReadFixedLength(4);
    if bytes.Err? {
      return Err(bytes.error);
    }
    assert bytes.value == reader.source[p0 + k..p0 + k + 4] == input[k..k + 4];
    r := Ok(I32FromLe(bytes.value));
  }

  /**
   The file header's `handle`: five reads in order. The result is the layout's;
   unless the result is an I/O error, the cursor has moved by exactly the bytes
   the layout accounts for (2 after a bad signature, 14 on success).
   */
  method DecodeFileHeader(reader: Reader) returns (r: Result<FileHeader, FileHeaderError>)
    requires reader.Valid()
    modifies reader
    ensures reader.Valid()
    ensures r == FileHeaderStep(old(reader.Remaining())).result
    ensures !(r.Err? && r.error.Io?) ==> reader.pos == old(reader.pos) + FileHeaderStep(old(reader.Remaining())).consumed
  {
    ghost var input := reader.Remaining();
    ghost var p0 := reader.pos;
    var signature := reader.ReadFixedLength(2);
    if signature.Err? {
      return Err(FileHeaderError.Io(signature.error));
    }
    if signature.value != BM {
      return Err(InvalidSignature(signature.value));
    }
    var fileSize := ReadU32Le(reader, input, p0, 2);
    if fileSize.Err? {
      return Err(FileHeaderError.Io(fileSize.error));
    }
    var reserved1 := ReadU16Le(reader, input, p0, 6);
    if reserved1.Err? {
      return Err(FileHeaderError.Io(reserved1.error));
    }
    var reserved2 := ReadU16Le(reader, input, p0, 8);
    if reserved2.Err? {
      return Err(FileHeaderError.Io(reserved2.error));
    }
    var offset := ReadU32Le(reader, input, p0, 10);
    if offset.Err? {
      return Err(FileHeaderError.Io(offset.error));
    }
    r := Ok(FileHeader(signature.value, fileSize.value, reserved1.value, reserved2.value, offset.value));
  }

  /** The file header's encoder: the five fields in decode order. */
  method EncodeFileHeader(writer: Writer, h: FileHeader)
    modifies writer
    ensures writer.buffer == old(writer.buffer) + FileHeaderBytes(h)
  {
    writer.WriteAll(h.signature);
    writer.WriteAll(U32ToLe(h.fileSize));
    writer.WriteAll(U16ToLe(h.reserved1));
    writer.WriteAll(U16ToLe(h.reserved2));
    writer.WriteAll(U32ToLe(h.offset));
  }

  /** A header with the "BM" signature survives encoding and decoding, whatever follows it. */
  lemma FileHeaderRoundTrip(h: FileHeader, rest: seq<byte>)
    requires h.signature == BM
    ensures FileHeaderStep(FileHeaderBytes(h) + rest) == Step(Ok(h), 14)
  {
    var bs := FileHeaderBytes(h) + rest;
    assert bs[..2] == h.signature;
    assert bs[2..6] == U32ToLe(h.fileSize);
    assert bs[6..8] == U16ToLe(h.reserved1);
    assert bs[8..10] == U16ToLe(h.reserved2);
    assert bs[10..14] == U32ToLe(h.offset);
  }

  /** A decoded file header encodes back to exactly the 14 bytes it was decoded from. */
  lemma FileHeaderReencode(input: seq<byte>)
    requires FileHeaderStep(input).result.Ok?
    ensures FileHeaderStep(input).consumed == 14
    ensures FileHeaderBytes(FileHeaderStep(input).result.value) == input[..14]
  {
    U32LeBytesRoundTrip(input[2..6]);
    U16LeBytesRoundTrip(input[6..8]);
    U16LeBytesRoundTrip(input[8..10]);
    U32LeBytesRoundTrip(input[10..14]);
    assert input[..14] == input[..2] + input[2..6] + input[6..8] + input[8..10] + input[10..14];
  }

  /**
   How the file-header decoder fails: a bad signature is reported exactly when
   two bytes are there to be checked and they are not "BM"; otherwise a short
   input is an I/O error.
   */
  lemma FileHeaderErrors(input: seq<byte>)
    ensures FileHeaderStep(input).result.Ok? <==> |input| >= 14 && input[..2] == BM
    ensures (FileHeaderStep(input).result.Err? && FileHeaderStep(input).result.error.InvalidSignature?)
            <==> |input| >= 2 && input[..2] != BM
    ensures |input| >= 2 && input[..2] != BM ==> FileHeaderStep(input) == Step(Err(InvalidSignature(input[..2])), 2)
    ensures |input| < 2 ==> FileHeaderStep(input).result == Err(FileHeaderError.Io(UnexpectedEof))
  {
  }

  // ---------------------------------------------------------------------------
  // Info header

  datatype InfoHeader = InfoHeader(
    size: U32, width: I32, height: I32, planes: U16, bitCount: U16, compression: U32,
    imageSize: U32, xPixelsPerMeter: I32, yPixelsPerMeter: I32, colorsUsed: U32, colorsImportant: U32)

  datatype InfoHeaderError = UnsupportedInfoHeaderSize(size: U32) | Io(io: IoError)

  /**
   The layout of the info header: eleven little-endian fields in 40 bytes.
   The first, `size`, must be 40; any other value is reported once its four
   bytes are read.
   */
  function InfoHeaderStep(input: seq<byte>): (s: Step<InfoHeader, InfoHeaderError>)
    ensures s.consumed <= |input|
  {
    if |input| < 4 then Step(Err(InfoHeaderError.Io(UnexpectedEof)), |input|)
    else if U32FromLe(input[..4]) != InfoHeaderSize then
      Step(Err(InfoHeaderError.UnsupportedInfoHeaderSize(U32FromLe(input[..4]))), 4)
    else if |input| < 40 then Step(Err(InfoHeaderError.Io(UnexpectedEof)), |input|)
    else Step(Ok(InfoHeaderAt(input)), 40)
  }

  /** The eleven fields at their offsets in the first 40 bytes of `input`. */
  function InfoHeaderAt(input: seq<byte>): InfoHeader
    requires |input| >= 40
  {
    InfoHeader(
      U32FromLe(input[..4]), I32FromLe(input[4..8]), I32FromLe(input[8..12]),
      U16FromLe(input[12..14]), U16FromLe(input[14..16]), U32FromLe(input[16..20]),
      U32FromLe(input[20..24]), I32FromLe(input[24..28]), I32FromLe(input[28..32]),
      U32FromLe(input[32..36]), U32FromLe(input[36..40]))
  }

  /**
   The info-header decoder's outcomes: success exactly when 40 bytes are present
   and the size is 40; `UnsupportedInfoHeaderSize` exactly when the first four
   bytes are present and give another size, after those four bytes only; and an
   input too short for the size is an I/O error.
   */
  lemma InfoHeaderErrors(input: seq<byte>)
    ensures InfoHeaderStep(input).result.Ok? <==> |input| >= 40 && U32FromLe(input[..4]) == InfoHeaderSize
    ensures (InfoHeaderStep(input).result.Err? && InfoHeaderStep(input).result.error.UnsupportedInfoHeaderSize?)
            <==> |input| >= 4 && U32FromLe(input[..4]) != InfoHeaderSize
    ensures |input| >= 4 && U32FromLe(input[..4]) != InfoHeaderSize ==>
      InfoHeaderStep(input) == Step(Err(InfoHeaderError.UnsupportedInfoHeaderSize(U32FromLe(input[..4]))), 4)
    ensures |input| < 4 ==> InfoHeaderStep(input).result == Err(InfoHeaderError.Io(UnexpectedEof))
  {
  }

  /** The 40 bytes the info-header encoder writes, field by field. */
  function InfoHeaderBytes(h: InfoHeader): (bs: seq<byte>)
    ensures |bs| == 40
  {
    U32ToLe(h.size) + I32ToLe(h.width) + I32ToLe(h.height) + U16ToLe(h.planes) + U16ToLe(h.bitCount)
    + U32ToLe(h.compression) + U32ToLe(h.imageSize) + I32ToLe(h.xPixelsPerMeter)
    + I32ToLe(h.yPixelsPerMeter) + U32ToLe(h.colorsUsed) + U32ToLe(h.colorsImportant)
  }

  /**
   The info header's `handle`: eleven reads in order, the size checked right
   after the first. The result is the layout's; unless it is an I/O error the
   cursor has moved by the layout's count (4 after a bad size, 40 on success).
   */
  method DecodeInfoHeader(reader: Reader) returns (r: Result<InfoHeader, InfoHeaderError>)
    requires reader.Valid()
    modifies reader
    ensures reader.Valid()
    ensures r == InfoHeaderStep(old(reader.Remaining())).result
    ensures !(r.Err? && r.error.Io?) ==> reader.pos == old(reader.pos) + InfoHeaderStep(old(reader.Remaining())).consumed
  {
    ghost var input := reader.Remaining();
    ghost var p0 := reader.pos;
    var size := ReadU32Le(reader, input, p0, 0);
    if size.Err? {
      return Err(InfoHeaderError.Io(size.error));
    }
    if size.value != InfoHeaderSize {
      return Err(InfoHeaderError.UnsupportedInfoHeaderSize(size.value));
    }
    var width := ReadI32Le(reader, input, p0, 4);
    if width.Err? {
      return Err(InfoHeaderError.Io(width.error));
    }
    var height := ReadI32Le(reader, input, p0, 8);
    if height.Err? {
      return Err(InfoHeaderError.Io(height.error));
    }
    var planes := ReadU16Le(reader, input, p0, 12);
    if planes.Err? {
      return Err(InfoHeaderError.Io(planes.error));
    }
    var bitCount := ReadU16Le(reader, input, p0, 14);
    if bitCount.Err? {
      return Err(InfoHeaderError.Io(bitCount.error));
    }
    var compression := ReadU32Le(reader, input, p0, 16);
    if compression.Err? {
      return Err(InfoHeaderError.Io(compression.error));
    }
    var imageSize := ReadU32Le(reader, input, p0, 20);
    if imageSize.Err? {
      return Err(InfoHeaderError.Io(imageSize.error));
    }
    var xPixelsPerMeter := ReadI32Le(reader, input, p0, 24);
    if xPixelsPerMeter.Err? {
      return Err(InfoHeaderError.Io(xPixelsPerMeter.error));
    }
    var yPixelsPerMeter := ReadI32Le(reader, input, p0, 28);
    if yPixelsPerMeter.Err? {
      return Err(InfoHeaderError.Io(yPixelsPerMeter.error));
    }
    var colorsUsed := ReadU32Le(reader, input, p0, 32);
    if colorsUsed.Err? {
      return Err(InfoHeaderError.Io(colorsUsed.error));
    }
    var colorsImportant := ReadU32Le(reader, input, p0, 36);
    if colorsImportant.Err? {
      return Err(InfoHeaderError.Io(colorsImportant.error));
    }
    r := Ok(InfoHeader(size.value, width.value, height.value, planes.value, bitCount.value,
                       compression.value, imageSize.value, xPixelsPerMeter.value,
                       yPixelsPerMeter.value, colorsUsed.value, colorsImportant.value));
  }

  /** The info header's encoder: the eleven fields in decode order, the size written as it is. */
  method EncodeInfoHeader(writer: Writer, h: InfoHeader)
    modifies writer
    ensures writer.buffer == old(writer.buffer) + InfoHeaderBytes(h)
  {
    ghost var start := writer.buffer;
    writer.WriteAll(U32ToLe(h.size));
    ghost var written := U32ToLe(h.size);
    writer.WriteAll(I32ToLe(h.width));
    AppendAssoc(start, written, I32ToLe(h.width));
    written := written + I32ToLe(h.width);
    writer.WriteAll(I32ToLe(h.height));
    AppendAssoc(start, written, I32ToLe(h.height));
    written := written + I32ToLe(h.height);
    writer.WriteAll(U16ToLe(h.planes));
    AppendAssoc(start, written, U16ToLe(h.planes));
    written := written + U16ToLe(h.planes);
    writer.WriteAll(U16ToLe(h.bitCount));
    AppendAssoc(start, written, U16ToLe(h.bitCount));
    written := written + U16ToLe(h.bitCount);
    writer.WriteAll(U32ToLe(h.compression));
    AppendAssoc(start, written, U32ToLe(h.compression));
    written := written + U32ToLe(h.compression);
    writer.WriteAll(U32ToLe(h.imageSize));
    AppendAssoc(start, written, U32ToLe(h.imageSize));
    written := written + U32ToLe(h.imageSize);
    writer.WriteAll(I32ToLe(h.xPixelsPerMeter));
    AppendAssoc(start, written, I32ToLe(h.xPixelsPerMeter));
    written := written + I32ToLe(h.xPixelsPerMeter);
    writer.WriteAll(I32ToLe(h.yPixelsPerMeter));
    AppendAssoc(start, written, I32ToLe(h.yPixelsPerMeter));
    written := written + I32ToLe(h.yPixelsPerMeter);
    writer.WriteAll(U32ToLe(h.colorsUsed));
    AppendAssoc(start, written, U32ToLe(h.colorsUsed));
    written := written + U32ToLe(h.colorsUsed);
    writer.WriteAll(U32ToLe(h.colorsImportant));
    AppendAssoc(start, written, U32ToLe(h.colorsImportant));
    written := written + U32ToLe(h.colorsImportant);
    assert written == InfoHeaderBytes(h);
  }

  /** An info header of size 40 survives encoding and decoding, whatever follows it. */
  lemma InfoHeaderRoundTrip(h: InfoHeader, rest: seq<byte>)
    requires h.size == InfoHeaderSize
    ensures InfoHeaderStep(InfoHeaderBytes(h) + rest) == Step(Ok(h), 40)
  {
    var p1 := U32ToLe(h.size);
    var p2 := p1 + I32ToLe(h.width);
    var p3 := p2 + I32ToLe(h.height);
    var p4 := p3 + U16ToLe(h.planes);
    var p5 := p4 + U16ToLe(h.bitCount);
    var p6 := p5 + U32ToLe(h.compression);
    var p7 := p6 + U32ToLe(h.imageSize);
    var p8 := p7 + I32ToLe(h.xPixelsPerMeter);
    var p9 := p8 + I32ToLe(h.yPixelsPerMeter);
    var p10 := p9 + U32ToLe(h.colorsUsed);
    var bs := InfoHeaderBytes(h) + rest;
    assert bs[..40] == p10 + U32ToLe(h.colorsImportant);
    SplitPrefix(bs, p10, U32ToLe(h.colorsImportant));
    SplitPrefix(bs, p9, U32ToLe(h.colorsUsed));
    SplitPrefix(bs, p8, I32ToLe(h.yPixelsPerMeter));
    SplitPrefix(bs, p7, I32ToLe(h.xPixelsPerMeter));
    SplitPrefix(bs, p6, U32ToLe(h.imageSize));
    SplitPrefix(bs, p5, U32ToLe(h.compression));
    SplitPrefix(bs, p4, U16ToLe(h.bitCount));
    SplitPrefix(bs, p3, U16ToLe(h.planes));
    SplitPrefix(bs, p2, I32ToLe(h.height));
    SplitPrefix(bs, p1, I32ToLe(h.width));
  }

  /** A decoded info header encodes back to exactly the 40 bytes it was decoded from. */
  lemma InfoHeaderReencode(input: seq<byte>)
    requires InfoHeaderStep(input).result.Ok?
    ensures InfoHeaderStep(input).consumed == 40
    ensures InfoHeaderBytes(InfoHeaderStep(input).result.value) == input[..40]
  {
    InfoHeaderAtBytes(input);
  }

  /** The fields read at their offsets are written back as the same 40 bytes. */
  lemma InfoHeaderAtBytes(input: seq<byte>)
    requires |input| >= 40
    ensures InfoHeaderBytes(InfoHeaderAt(input)) == input[..40]
  {
    U32LeBytesRoundTrip(input[..4]);
    I32LeBytesRoundTrip(input[4..8]);
    I32LeBytesRoundTrip(input[8..12]);
    U16LeBytesRoundTrip(input[12..14]);
    U16LeBytesRoundTrip(input[14..16]);
    U32LeBytesRoundTrip(input[16..20]);
    U32LeBytesRoundTrip(input[20..24]);
    I32LeBytesRoundTrip(input[24..28]);
    I32LeBytesRoundTrip(input[28..32]);
    U32LeBytesRoundTrip(input[32..36]);
    U32LeBytesRoundTrip(input[36..40]);
    JoinSlices(input, 4, 8);
    JoinSlices(input, 8, 12);
    JoinSlices(input, 12, 14);
    JoinSlices(input, 14, 16);
    JoinSlices(input, 16, 20);
    JoinSlices(input, 20, 24);
    JoinSlices(input, 24, 28);
    JoinSlices(input, 28, 32);
    JoinSlices(input, 32, 36);
    JoinSlices(input, 36, 40);
  }

  // ---------------------------------------------------------------------------
  // Colour entries

  datatype RgbTriple = RgbTriple(r: byte, g: byte, b: byte)

  datatype RgbQuad = RgbQuad(r: byte, g: byte, b: byte, reserved: byte)

  /** A triple is stored blue, green, red. */
  function TripleOf(bs: seq<byte>): (t: RgbTriple)
    requires |bs| == 3
    ensures TripleBytes(t) == bs
  {
    RgbTriple(bs[2], bs[1], bs[0])
  }

  function TripleBytes(t: RgbTriple): (bs: seq<byte>)
    ensures |bs| == 3
  {
    [t.b, t.g, t.r]
  }

  /** A quad is stored blue, green, red, reserved. */
  function QuadOf(bs: seq<byte>): (q: RgbQuad)
    requires |bs| == 4
    ensures QuadBytes(q) == bs
  {
    RgbQuad(bs[2], bs[1], bs[0], bs[3])
  }

  function QuadBytes(q: RgbQuad): (bs: seq<byte>)
    ensures |bs| == 4
  {
    [q.b, q.g, q.r, q.reserved]
  }

  /** Encoding a triple and decoding its bytes gives the triple back. */
  lemma TripleRoundTrip(t: RgbTriple)
    ensures TripleOf(TripleBytes(t)) == t
  {
  }

  /** Encoding a quad and decoding its bytes gives the quad back. */
  lemma QuadRoundTrip(q: RgbQuad)
    ensures QuadOf(QuadBytes(q)) == q
  {
  }

  /** The triple's `handle`: one 3-byte read (the ghost parameters as for the field reads). */
  method DecodeRgbTriple(reader: Reader, ghost input: seq<byte>, ghost p0: nat, ghost k: nat) returns (r: Result<RgbTriple, IoError>)
    requires reader.Valid() && p0 <= |reader.source| && reader.source[p0..] == input && reader.pos == p0 + k
    modifies reader
    ensures reader.Valid()
    ensures r.Ok? <==> k + 3 <= |input|
    ensures r.Err? ==> r.error == UnexpectedEof
    ensures r.Ok? ==> r.value == TripleOf(input[k..k + 3])
    ensures r.Ok? ==> reader.pos == p0 + k + 3
  {
    var bytes := reader.ReadFixedLength(3);
    if bytes.Err? {
      return Err(bytes.error);
    }
    assert bytes.value == reader.source[p0 + k..p0 + k + 3] == input[k..k + 3];
    r := Ok(TripleOf(bytes.value));
  }

  /** The quad's `handle`: one 4-byte read (the ghost parameters as for the field reads). */
  method DecodeRgbQuad(reader: Reader, ghost input: seq<byte>, ghost p0: nat, ghost k: nat) returns (r: Result<RgbQuad, IoError>)
    requires reader.Valid() && p0 <= |reader.source| && reader.source[p0..] == input && reader.pos == p0 + k
    modifies reader
    ensures reader.Valid()
    ensures r.Ok? <==> k + 4 <= |input|
    ensures r.Err? ==> r.error == UnexpectedEof
    ensures r.Ok? ==> r.value == QuadOf(input[k..k + 4])
    ensures r.Ok? ==> reader.pos == p0 + k + 4
  {
    var bytes := reader.ReadFixedLength(4);
    if bytes.Err? {
      return Err(bytes.error);
    }
    assert bytes.value == reader.source[p0 + k..p0 + k + 4] == input[k..k + 4];
    r := Ok(QuadOf(bytes.value));
  }

  method EncodeRgbTriple(writer: Writer, t: RgbTriple)
    modifies writer
    ensures writer.buffer == old(writer.buffer) + TripleBytes(t)
  {
    writer.WriteAll([t.b, t.g, t.r]);
  }

  method EncodeRgbQuad(writer: Writer, q: RgbQuad)
    modifies writer
    ensures writer.buffer == old(writer.buffer) + QuadBytes(q)
  {
    writer.WriteAll([q.b, q.g, q.r, q.reserved]);
  }

  // ---------------------------------------------------------------------------
  // Colour table

  datatype ColorTable = RgbQuads(quads: seq<RgbQuad>) | RgbTriples(triples: seq<RgbTriple>)

  datatype ColorTableError = UnsupportedColorPalette(bitCount: U16) | InvalidDataLength(length: U32) | Io(io: IoError)

  /** What the colour-table decoder needs to know: how many bytes the table has, and the bit depth. */
  datatype ColorTableContext = ColorTableContext(length: U32, bitCount: U16)

  /** The triples stored, three bytes each, in `bs`. */
  function TriplesOf(bs: seq<byte>): (ts: seq<RgbTriple>)
    requires |bs| % 3 == 0
    ensures |ts| == |bs| / 3
    decreases |bs|
  {
    if bs == [] then [] else TriplesOf(bs[..|bs| - 3]) + [TripleOf(bs[|bs| - 3..])]
  }

  /** The quads stored, four bytes each, in `bs`. */
  function QuadsOf(bs: seq<byte>): (qs: seq<RgbQuad>)
    requires |bs| % 4 == 0
    ensures |qs| == |bs| / 4
    decreases |bs|
  {
    if bs == [] then [] else QuadsOf(bs[..|bs| - 4]) + [QuadOf(bs[|bs| - 4..])]
  }

  /** The bytes of a list of triples, in list order. */
  function TriplesBytes(ts: seq<RgbTriple>): (bs: seq<byte>)
    ensures |bs| == 3 * |ts|
  {
    if ts == [] then [] else TriplesBytes(ts[..|ts| - 1]) + TripleBytes(ts[|ts| - 1])
  }

  /** The bytes of a list of quads, in list order. */
  function QuadsBytes(qs: seq<RgbQuad>): (bs: seq<byte>)
    ensures |bs| == 4 * |qs|
  {
    if qs == [] then [] else QuadsBytes(qs[..|qs| - 1]) + QuadBytes(qs[|qs| - 1])
  }

  /** The bytes the colour-table encoder writes: its entries, in list order, three or four bytes each. */
  function ColorTableBytes(t: ColorTable): (bs: seq<byte>)
    ensures |bs| == if t.RgbTriples? then 3 * |t.triples| else 4 * |t.quads|
  {
    match t
    case RgbTriples(ts) => TriplesBytes(ts)
    case RgbQuads(qs) => QuadsBytes(qs)
  }

  /** Appending one triple's bytes to a whole number of triples appends that triple. */
  lemma TriplesOfSnoc(bs: seq<byte>, t: RgbTriple)
    requires |bs| % 3 == 0
    ensures |bs + TripleBytes(t)| % 3 == 0
    ensures TriplesOf(bs + TripleBytes(t)) == TriplesOf(bs) + [t]
  {
    TakeConcat(bs, TripleBytes(t));
    DropConcat(bs, TripleBytes(t));
    TripleRoundTrip(t);
  }

  lemma {:induction false} TriplesOfTriplesBytes(ts: seq<RgbTriple>)
    ensures TriplesOf(TriplesBytes(ts)) == ts
  {
    if ts != [] {
      var init, last := ts[..|ts| - 1], ts[|ts| - 1];
      TriplesOfTriplesBytes(init);
      var n := |init|;
      assert |TriplesBytes(init)| == 3 * n && (3 * n) % 3 == 0;
      TriplesOfSnoc(TriplesBytes(init), last);
      assert TriplesBytes(ts) == TriplesBytes(init) + TripleBytes(last);
      assert ts == init + [last];
    }
  }

  lemma {:induction false} TriplesBytesOfTriplesOf(bs: seq<byte>)
    requires |bs| % 3 == 0
    ensures TriplesBytes(TriplesOf(bs)) == bs
    decreases |bs|
  {
    if bs != [] {
      var ts := TriplesOf(bs);
      TriplesBytesOfTriplesOf(bs[..|bs| - 3]);
      assert ts[..|ts| - 1] == TriplesOf(bs[..|bs| - 3]);
      assert bs == bs[..|bs| - 3] + bs[|bs| - 3..];
    }
  }

  /** Appending one quad's bytes to a whole number of quads appends that quad. */
  lemma QuadsOfSnoc(bs: seq<byte>, q: RgbQuad)
    requires |bs| % 4 == 0
    ensures |bs + QuadBytes(q)| % 4 == 0
    ensures QuadsOf(bs + QuadBytes(q)) == QuadsOf(bs) + [q]
  {
    TakeConcat(bs, QuadBytes(q));
    DropConcat(bs, QuadBytes(q));
    QuadRoundTrip(q);
  }

  lemma {:induction false} QuadsOfQuadsBytes(qs: seq<RgbQuad>)
    ensures QuadsOf(QuadsBytes(qs)) == qs
  {
    if qs != [] {
      var init, last := qs[..|qs| - 1], qs[|qs| - 1];
      QuadsOfQuadsBytes(init);
      var n := |init|;
      assert |QuadsBytes(init)| == 4 * n && (4 * n) % 4 == 0;
      QuadsOfSnoc(QuadsBytes(init), last);
      assert QuadsBytes(qs) == QuadsBytes(init) + QuadBytes(last);
      assert qs == init + [last];
    }
  }

  lemma {:induction false} QuadsBytesOfQuadsOf(bs: seq<byte>)
    requires |bs| % 4 == 0
    ensures QuadsBytes(QuadsOf(bs)) == bs
    decreases |bs|
  {
    if bs != [] {
      var qs := QuadsOf(bs);
      QuadsBytesOfQuadsOf(bs[..|bs| - 4]);
      assert qs[..|qs| - 1] == QuadsOf(bs[..|bs| - 4]);
      assert bs == bs[..|bs| - 4] + bs[|bs| - 4..];
    }
  }

  /**
   The layout of the colour table, chosen by the context: at bit depth 24 the
   `length` bytes are triples, at 32 quads. A length that is not a whole number
   of entries, or any other bit depth, is reported before any byte is read.
   */
  function ColorTableStep(input: seq<byte>, ctx: ColorTableContext): (s: Step<ColorTable, ColorTableError>)
    ensures s.consumed <= |input|
  {
    if ctx.bitCount == 24 then
      if ctx.length % 3 != 0 then Step(Err(InvalidDataLength(ctx.length)), 0)
      else if |input| < ctx.length then Step(Err(ColorTableError.Io(UnexpectedEof)), |input|)
      else Step(Ok(RgbTriples(TriplesOf(input[..ctx.length]))), ctx.length)
    else if ctx.bitCount == 32 then
      if ctx.length % 4 != 0 then Step(Err(InvalidDataLength(ctx.length)), 0)
      else if |input| < ctx.length then Step(Err(ColorTableError.Io(UnexpectedEof)), |input|)
      else Step(Ok(RgbQuads(QuadsOf(input[..ctx.length]))), ctx.length)
    else
      Step(Err(ColorTableError.UnsupportedColorPalette(ctx.bitCount)), 0)
  }

  /**
   The colour-table decoder's outcomes. A length that is not a whole number of
   entries at bit depth 24 or 32 gives `InvalidDataLength`, and any other bit
   depth gives `UnsupportedColorPalette`, both with no byte consumed; otherwise
   it succeeds exactly when `length` bytes are present, after `length` bytes,
   and fails with an I/O error when they are not.
   */
  lemma ColorTableErrors(input: seq<byte>, ctx: ColorTableContext)
    ensures (ctx.bitCount == 24 && ctx.length % 3 != 0) || (ctx.bitCount == 32 && ctx.length % 4 != 0) ==>
      ColorTableStep(input, ctx) == Step(Err(InvalidDataLength(ctx.length)), 0)
    ensures ctx.bitCount != 24 && ctx.bitCount != 32 ==>
      ColorTableStep(input, ctx) == Step(Err(ColorTableError.UnsupportedColorPalette(ctx.bitCount)), 0)
    ensures ColorTableStep(input, ctx).result.Ok? <==>
      ((ctx.bitCount == 24 && ctx.length % 3 == 0) || (ctx.bitCount == 32 && ctx.length % 4 == 0)) && ctx.length <= |input|
    ensures ColorTableStep(input, ctx).result.Ok? ==> ColorTableStep(input, ctx).consumed == ctx.length
    ensures (ColorTableStep(input, ctx).result.Err? && ColorTableStep(input, ctx).result.error.Io?) <==>
      ((ctx.bitCount == 24 && ctx.length % 3 == 0) || (ctx.bitCount == 32 && ctx.length % 4 == 0)) && |input| < ctx.length
  {
  }

  /**
   The loop of the 24-bit arm: `count` triple reads, each pushed onto the list
   in order. It succeeds exactly when `3 * count` bytes remain and then yields
   the triples of those bytes.
   */
  method DecodeTriples(reader: Reader, count: nat) returns (r: Result<seq<RgbTriple>, IoError>)
    requires reader.Valid()
    modifies reader
    ensures reader.Valid()
    ensures r.Ok? <==> 3 * count <= |old(reader.Remaining())|
    ensures r.Err? ==> r.error == UnexpectedEof
    ensures r.Ok? ==> r.value == TriplesOf(old(reader.Remaining())[..3 * count])
    ensures r.Ok? ==> reader.pos == old(reader.pos) + 3 * count
  {
    ghost var input := reader.Remaining();
    ghost var p0 := reader.pos;
    var list: seq<RgbTriple> := [];
    for i := 0 to count
      invariant reader.Valid()
      invariant 3 * i <= |input| && reader.pos == p0 + 3 * i
      invariant list == TriplesOf(input[..3 * i])
    {
      var entry := DecodeRgbTriple(reader, input, p0, 3 * i);
      if entry.Err? {
        return Err(entry.error);
      }
      PrefixParts(input, 3 * i, 3 * i + 3);
      list := list + [entry.value];
    }
    r := Ok(list);
  }

  /** The loop of the 32-bit arm: `count` quad reads, as `DecodeTriples` does for triples. */
  method DecodeQuads(reader: Reader, count: nat) returns (r: Result<seq<RgbQuad>, IoError>)
    requires reader.Valid()
    modifies reader
    ensures reader.Valid()
    ensures r.Ok? <==> 4 * count <= |old(reader.Remaining())|
    ensures r.Err? ==> r.error == UnexpectedEof
    ensures r.Ok? ==> r.value == QuadsOf(old(reader.Remaining())[..4 * count])
    ensures r.Ok? ==> reader.pos == old(reader.pos) + 4 * count
  {
    ghost var input := reader.Remaining();
    ghost var p0 := reader.pos;
    var list: seq<RgbQuad> := [];
    for i := 0 to count
      invariant reader.Valid()
      invariant 4 * i <= |input| && reader.pos == p0 + 4 * i
      invariant list == QuadsOf(input[..4 * i])
    {
      var entry := DecodeRgbQuad(reader, input, p0, 4 * i);
      if entry.Err? {
        return Err(entry.error);
      }
      PrefixParts(input, 4 * i, 4 * i + 4);
      list := list + [entry.value];
    }
    r := Ok(list);
  }

  /**
   The colour table's `handle`: after the context checks, `length / 3` triple
   reads or `length / 4` quad reads, pushed onto the list in order.
   */
  method DecodeColorTable(reader: Reader, ctx: ColorTableContext) returns (r: Result<ColorTable, ColorTableError>)
    requires reader.Valid()
    modifies reader
    ensures reader.Valid()
    ensures r == ColorTableStep(old(reader.Remaining()), ctx).result
    ensures !(r.Err? && r.error.Io?) ==> reader.pos == old(reader.pos) + ColorTableStep(old(reader.Remaining()), ctx).consumed
  {
    if ctx.bitCount == 24 {
      if ctx.length % 3 != 0 {
        return Err(InvalidDataLength(ctx.length));
      }
      var count := ctx.length / 3;
      assert 3 * count == ctx.length;
      var list := DecodeTriples(reader, count);
      if list.Err? {
        return Err(ColorTableError.Io(list.error));
      }
      r := Ok(RgbTriples(list.value));
    } else if ctx.bitCount == 32 {
      if ctx.length % 4 != 0 {
        return Err(InvalidDataLength(ctx.length));
      }
      var count := ctx.length / 4;
      assert 4 * count == ctx.length;
      var list := DecodeQuads(reader, count);
      if list.Err? {
        return Err(ColorTableError.Io(list.error));
      }
      r := Ok(RgbQuads(list.value));
    } else {
      r := Err(ColorTableError.UnsupportedColorPalette(ctx.bitCount));
    }
  }

  /** The colour table's encoder: each entry in list order. */
  method EncodeColorTable(writer: Writer, t: ColorTable)
    modifies writer
    ensures writer.buffer == old(writer.buffer) + ColorTableBytes(t)
  {
    match t
    case RgbTriples(list) =>
      for i := 0 to |list|
        invariant writer.buffer == old(writer.buffer) + TriplesBytes(list[..i])
      {
        EncodeRgbTriple(writer, list[i]);
        assert list[..i + 1][..i] == list[..i];
      }
      assert list[..|list|] == list;
    case RgbQuads(list) =>
      for i := 0 to |list|
        invariant writer.buffer == old(writer.buffer) + QuadsBytes(list[..i])
      {
        EncodeRgbQuad(writer, list[i]);
        assert list[..i + 1][..i] == list[..i];
      }
      assert list[..|list|] == list;
  }

  /** A decoded colour table encodes back to exactly the `length` bytes it was decoded from. */
  lemma ColorTableReencode(input: seq<byte>, ctx: ColorTableContext)
    requires ColorTableStep(input, ctx).result.Ok?
    ensures ColorTableStep(input, ctx).consumed == ctx.length
    ensures ColorTableBytes(ColorTableStep(input, ctx).result.value) == input[..ctx.length]
  {
    if ctx.bitCount == 24 {
      TriplesBytesOfTriplesOf(input[..ctx.length]);
    } else {
      QuadsBytesOfQuadsOf(input[..ctx.length]);
    }
  }

  /** The context under which the bytes of table `t` decode back to `t`. */
  function ContextFor(t: ColorTable): ColorTableContext
    requires |ColorTableBytes(t)| < 0x1_0000_0000
  {
    ColorTableContext(|ColorTableBytes(t)|, if t.RgbTriples? then 24 else 32)
  }

  /** A colour table survives encoding and decoding under the context that describes it. */
  lemma ColorTableRoundTrip(t: ColorTable, rest: seq<byte>)
    requires |ColorTableBytes(t)| < 0x1_0000_0000
    ensures ColorTableStep(ColorTableBytes(t) + rest, ContextFor(t)) == Step(Ok(t), |ColorTableBytes(t)|)
  {
    var bs := ColorTableBytes(t);
    TakeConcat(bs, rest);
    match t
    case RgbTriples(ts) =>
      var n := |ts|;
      assert |bs| == 3 * n && (3 * n) % 3 == 0;
      TriplesOfTriplesBytes(ts);
    case RgbQuads(qs) =>
      var n := |qs|;
      assert |bs| == 4 * n && (4 * n) % 4 == 0;
      QuadsOfQuadsBytes(qs);
  }

  /**
   The context alone decides the shape: a length both palettes accept (a
   multiple of 3 and of 4) read at bit depth 24 gives `length / 3` triples,
   read at 32 gives `length / 4` quads, from the same bytes.
   */
  lemma ContextSelectsPalette(input: seq<byte>, length: U32)
    requires length % 3 == 0 && length % 4 == 0 && length <= |input|
    ensures ColorTableStep(input, ColorTableContext(length, 24)).result
         == Ok(RgbTriples(TriplesOf(input[..length])))
    ensures ColorTableStep(input, ColorTableContext(length, 32)).result
         == Ok(RgbQuads(QuadsOf(input[..length])))
    ensures ColorTableStep(input, ColorTableContext(length, 24)).result != ColorTableStep(input, ColorTableContext(length, 32)).result
    ensures |TriplesOf(input[..length])| == length / 3 && |QuadsOf(input[..length])| == length / 4
  {
  }

  // ---------------------------------------------------------------------------
  // The whole bitmap

  datatype ToyBitmap = ToyBitmap(fileHeader: FileHeader, infoHeader: InfoHeader, colorTable: ColorTable)

  datatype BitmapError =
    | NotBitmap(signature: Signature)
    | UnsupportedInfoHeaderSize(size: U32)
    | UnsupportedColorPalette(bitCount: U16)
    | InvalidColorTableDataLength(length: U32)
    | Io(io: IoError)

  /** `ColorTableContext::from_headers`: the table runs from the end of the headers to `file_size - offset` bytes. */
  function FromHeaders(fileHeader: FileHeader, infoHeader: InfoHeader): (ctx: ColorTableContext)
    requires fileHeader.offset <= fileHeader.fileSize
    ensures ctx.length + fileHeader.offset == fileHeader.fileSize && ctx.bitCount == infoHeader.bitCount
  {
    ColorTableContext(fileHeader.fileSize - fileHeader.offset, infoHeader.bitCount)
  }

  function FromFileHeaderError(e: FileHeaderError): (b: BitmapError)
    ensures b.Io? <==> e.Io?
  {
    match e
    case InvalidSignature(bytes) => NotBitmap(bytes)
    case Io(io) => BitmapError.Io(io)
  }

  function FromInfoHeaderError(e: InfoHeaderError): (b: BitmapError)
    ensures b.Io? <==> e.Io?
  {
    match e
    case UnsupportedInfoHeaderSize(n) => BitmapError.UnsupportedInfoHeaderSize(n)
    case Io(io) => BitmapError.Io(io)
  }

  function FromColorTableError(e: ColorTableError): (b: BitmapError)
    ensures b.Io? <==> e.Io?
  {
    match e
    case UnsupportedColorPalette(n) => BitmapError.UnsupportedColorPalette(n)
    case InvalidDataLength(n) => InvalidColorTableDataLength(n)
    case Io(io) => BitmapError.Io(io)
  }

  /** Each stage's errors map one-to-one into the bitmap's, and no two stages share a domain error. */
  lemma ErrorMappingsAreInjective(f1: FileHeaderError, f2: FileHeaderError, i1: InfoHeaderError, i2: InfoHeaderError,
                                  c1: ColorTableError, c2: ColorTableError)
    ensures FromFileHeaderError(f1) == FromFileHeaderError(f2) ==> f1 == f2
    ensures FromInfoHeaderError(i1) == FromInfoHeaderError(i2) ==> i1 == i2
    ensures FromColorTableError(c1) == FromColorTableError(c2) ==> c1 == c2
    ensures FromFileHeaderError(f1) == FromInfoHeaderError(i1) ==> f1.Io? && i1.Io?
    ensures FromInfoHeaderError(i1) == FromColorTableError(c1) ==> i1.Io? && c1.Io?
    ensures FromColorTableError(c1) == FromFileHeaderError(f1) ==> c1.Io? && f1.Io?
  {
  }

  /**
   What `from_headers` needs of its inputs: whenever both headers decode, the
   offset is at most the file size (otherwise the subtraction underflows).
   */
  predicate HeadersFit(input: seq<byte>)
  {
    var f := FileHeaderStep(input);
    f.result.Ok? ==>
      var i := InfoHeaderStep(input[f.consumed..]);
      i.result.Ok? ==> f.result.value.offset <= f.result.value.fileSize
  }

  /** The layout of the whole bitmap: the three stages in order, each on the bytes the previous one left. */
  function ToyBitmapStep(input: seq<byte>): (s: Step<ToyBitmap, BitmapError>)
    requires HeadersFit(input)
    ensures s.consumed <= |input|
  {
    var f := FileHeaderStep(input);
    if f.result.Err? then Step(Err(FromFileHeaderError(f.result.error)), f.consumed)
    else
      var afterFile := input[f.consumed..];
      var i := InfoHeaderStep(afterFile);
      if i.result.Err? then Step(Err(FromInfoHeaderError(i.result.error)), f.consumed + i.consumed)
      else
        var ctx := FromHeaders(f.result.value, i.result.value);
        var c := ColorTableStep(afterFile[i.consumed..], ctx);
        var consumed := f.consumed + i.consumed + c.consumed;
        if c.result.Err? then Step(Err(FromColorTableError(c.result.error)), consumed)
        else Step(Ok(ToyBitmap(f.result.value, i.result.value, c.result.value)), consumed)
  }

  /** The bytes the bitmap encoder writes: the 14-byte file header, the 40-byte info header, then the colour table. */
  function ToyBitmapBytes(b: ToyBitmap): (bs: seq<byte>)
    ensures |bs| == 54 + |ColorTableBytes(b.colorTable)|
  {
    FileHeaderBytes(b.fileHeader) + InfoHeaderBytes(b.infoHeader) + ColorTableBytes(b.colorTable)
  }

  /**
   The bitmap's `handle`: file header, info header, then the colour table
   under the context built from the two, each stage's error mapped into
   `BitmapError`.
   */
  method DecodeToyBitmap(reader: Reader) returns (r: Result<ToyBitmap, BitmapError>)
    requires reader.Valid() && HeadersFit(reader.Remaining())
    modifies reader
    ensures reader.Valid()
    ensures r == ToyBitmapStep(old(reader.Remaining())).result
    ensures !(r.Err? && r.error.Io?) ==> reader.pos == old(reader.pos) + ToyBitmapStep(old(reader.Remaining())).consumed
  {
    ghost var input := reader.Remaining();
    var fileHeader := DecodeFileHeader(reader);
    if fileHeader.Err? {
      return Err(FromFileHeaderError(fileHeader.error));
    }
    ghost var afterFile := reader.Remaining();
    assert afterFile == input[14..];
    var infoHeader := DecodeInfoHeader(reader);
    if infoHeader.Err? {
      return Err(FromInfoHeaderError(infoHeader.error));
    }
    assert reader.Remaining() == afterFile[40..];
    var colorTable := DecodeColorTable(reader, FromHeaders(fileHeader.value, infoHeader.value));
    if colorTable.Err? {
      return Err(FromColorTableError(colorTable.error));
    }
    r := Ok(ToyBitmap(fileHeader.value, infoHeader.value, colorTable.value));
  }

  /** The bitmap's encoder: the three parts in order, with no consistency check between them. */
  method EncodeToyBitmap(writer: Writer, b: ToyBitmap)
    modifies writer
    ensures writer.buffer == old(writer.buffer) + ToyBitmapBytes(b)
  {
    EncodeFileHeader(writer, b.fileHeader);
    EncodeInfoHeader(writer, b.infoHeader);
    EncodeColorTable(writer, b.colorTable);
  }

  /**
   A decoded bitmap encodes back to exactly the bytes it was decoded from:
   the 54 header bytes and the `file_size - offset` bytes of the table.
   */
  lemma ToyBitmapReencode(input: seq<byte>)
    requires HeadersFit(input) && ToyBitmapStep(input).result.Ok?
    ensures var b := ToyBitmapStep(input).result.value;
      ToyBitmapStep(input).consumed == 54 + b.fileHeader.fileSize - b.fileHeader.offset
    ensures ToyBitmapBytes(ToyBitmapStep(input).result.value) == input[..ToyBitmapStep(input).consumed]
  {
    var f := FileHeaderStep(input);
    var i := InfoHeaderStep(input[14..]);
    var ctx := FromHeaders(f.result.value, i.result.value);
    var c := ColorTableStep(input[14..][40..], ctx);
    assert ToyBitmapStep(input) == Step(Ok(ToyBitmap(f.result.value, i.result.value, c.result.value)), 54 + c.consumed);
    FileHeaderReencode(input);
    InfoHeaderReencode(input[14..]);
    ColorTableReencode(input[14..][40..], ctx);
    var n := ctx.length;
    assert c.consumed == n && n <= |input[14..][40..]|;
    SliceOfSuffix(input, 14, 40);
    SliceOfSuffix(input, 54, n);
    JoinSlices(input, 14, 54);
    JoinSlices(input, 54, 54 + n);
  }

  /** A bitmap whose parts agree with each other: what encoding must respect for decoding to give it back. */
  predicate Consistent(b: ToyBitmap)
  {
    && b.fileHeader.signature == BM
    && b.infoHeader.size == InfoHeaderSize
    && (if b.colorTable.RgbTriples? then b.infoHeader.bitCount == 24 else b.infoHeader.bitCount == 32)
    && b.fileHeader.offset <= b.fileHeader.fileSize
    && b.fileHeader.fileSize - b.fileHeader.offset == |ColorTableBytes(b.colorTable)|
  }

  /** A consistent bitmap survives encoding and decoding, whatever follows it. */
  lemma ToyBitmapRoundTrip(b: ToyBitmap, rest: seq<byte>)
    requires Consistent(b)
    ensures HeadersFit(ToyBitmapBytes(b) + rest)
    ensures ToyBitmapStep(ToyBitmapBytes(b) + rest) == Step(Ok(b), |ToyBitmapBytes(b)|)
  {
    var fileBytes := FileHeaderBytes(b.fileHeader);
    var infoBytes := InfoHeaderBytes(b.infoHeader);
    var tableBytes := ColorTableBytes(b.colorTable);
    var input := ToyBitmapBytes(b) + rest;
    AppendAssoc(fileBytes + infoBytes, tableBytes, rest);
    AppendAssoc(fileBytes, infoBytes, tableBytes + rest);
    FileHeaderRoundTrip(b.fileHeader, infoBytes + (tableBytes + rest));
    DropConcat(fileBytes, infoBytes + (tableBytes + rest));
    InfoHeaderRoundTrip(b.infoHeader, tableBytes + rest);
    DropConcat(infoBytes, tableBytes + rest);
    ContextOfConsistent(b);
    ColorTableRoundTrip(b.colorTable, rest);
    ToyBitmapStepOfStages(input, b, |tableBytes|);
  }

  /** When the three stages succeed in turn, the bitmap's layout succeeds with their parts. */
  lemma ToyBitmapStepOfStages(input: seq<byte>, b: ToyBitmap, n: nat)
    requires FileHeaderStep(input) == Step(Ok(b.fileHeader), 14)
    requires InfoHeaderStep(input[14..]) == Step(Ok(b.infoHeader), 40)
    requires b.fileHeader.offset <= b.fileHeader.fileSize
    requires ColorTableStep(input[14..][40..], FromHeaders(b.fileHeader, b.infoHeader)) == Step(Ok(b.colorTable), n)
    ensures HeadersFit(input)
    ensures ToyBitmapStep(input) == Step(Ok(b), 54 + n)
  {
  }

  /** In a consistent bitmap the headers describe the table: `from_headers` gives the table's own context. */
  lemma ContextOfConsistent(b: ToyBitmap)
    requires Consistent(b)
    ensures |ColorTableBytes(b.colorTable)| < 0x1_0000_0000
    ensures FromHeaders(b.fileHeader, b.infoHeader) == ContextFor(b.colorTable)
  {
  }

  /**
   Decode a whole file from a fresh cursor and encode the result into an
   empty buffer: the output is the input's prefix the decoder consumed, and
   the whole input when the decoder consumed all of it.
   */
  method ReencodeBitmap(bytes: seq<byte>) returns (r: Result<seq<byte>, BitmapError>)
    requires HeadersFit(bytes)
    ensures r.Ok? <==> ToyBitmapStep(bytes).result.Ok?
    ensures r.Err? ==> r.error == ToyBitmapStep(bytes).result.error
    ensures r.Ok? ==> r.value == bytes[..ToyBitmapStep(bytes).consumed]
    ensures r.Ok? && ToyBitmapStep(bytes).consumed == |bytes| ==> r.value == bytes
  {
    var reader := new Reader(bytes);
    assert reader.Remaining() == bytes;
    var bitmap := DecodeToyBitmap(reader);
    if bitmap.Err? {
      return Err(bitmap.error);
    }
    var writer := new Writer();
    EncodeToyBitmap(writer, bitmap.value);
    ToyBitmapReencode(bytes);
    r := Ok(writer.buffer);
  }
}
