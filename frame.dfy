/**
 A length-prefixed frame: a big-endian `u32` length, then exactly that many
 payload bytes. Decoding reads the prefix with `ReadFixedLength(4)` and the
 payload with `ReadVariableLength`; encoding writes the prefix bytes, then the
 payload bytes.
 */
module Frame {
  import opened Results
  import opened Bytes
  import opened Decode
  import opened Encode

  datatype LengthHeader = LengthHeader(value: U32)

  datatype Payload = Payload(bytes: seq<byte>)

  datatype Frame = Frame(lengthHeader: LengthHeader, payload: Payload)

  /**
   The library's error for a codec whose parts have their own error type `E`:
   a transport failure or the part's own error. The frame's parts cannot fail,
   so the frame uses `CodecError<()>`, `()` standing in for Rust's uninhabited
   `Infallible`.
   */
  datatype CodecError<E> = Io(io: IoError) | UserDefined(inner: E)

  /** The length prefix: four bytes read as a big-endian `u32`, the first byte highest. */
  function DecodeLengthHeader(bytes: seq<byte>): (h: LengthHeader)
    requires |bytes| == 4
    ensures h.value == 0x100_0000 * bytes[0] as int + 0x1_0000 * bytes[1] as int + 0x100 * bytes[2] as int + bytes[3] as int
  {
    LengthHeader(U32FromBe(bytes))
  }

  /** The length prefix written with `to_be_bytes`. */
  function EncodeLengthHeader(h: LengthHeader): (bytes: seq<byte>)
    ensures |bytes| == 4
  {
    U32ToBe(h.value)
  }

  /** The payload keeps the buffer it is given: encoding it gives that buffer back. */
  function DecodePayload(bytes: seq<byte>): (p: Payload)
    ensures EncodePayload(p) == bytes
  {
    Payload(bytes)
  }

  /** The payload is encoded as its own bytes, as many as it holds. */
  function EncodePayload(p: Payload): (bs: seq<byte>)
    ensures |bs| == |p.bytes|
  {
    p.bytes
  }

  /** Encoding a length header and decoding its four bytes gives the header back. */
  lemma LengthHeaderRoundTrip(h: LengthHeader)
    ensures DecodeLengthHeader(EncodeLengthHeader(h)) == h
  {
  }

  /** Decoding four bytes as a length header and encoding it gives the same four bytes. */
  lemma LengthHeaderReencode(bytes: seq<byte>)
    requires |bytes| == 4
    ensures EncodeLengthHeader(DecodeLengthHeader(bytes)) == bytes
  {
    U32BeBytesRoundTrip(bytes);
  }

  /** The payload conversions are inverse to each other in both directions. */
  lemma PayloadRoundTrip(bytes: seq<byte>, p: Payload)
    ensures EncodePayload(DecodePayload(bytes)) == bytes
    ensures DecodePayload(EncodePayload(p)) == p
  {
  }

  /**
   The layout of a frame: the prefix `k` in the first four bytes, then the
   payload in the next `k`. Every failure is a short read; on success exactly
   `4 + k` bytes are consumed.
   */
  function FrameStep(input: seq<byte>): (s: Step<Frame, CodecError<()>>)
    ensures s.consumed <= |input|
  {
    if |input| < 4 then Step(Err(Io(UnexpectedEof)), |input|)
    else
      var h := DecodeLengthHeader(input[..4]);
      if |input| - 4 < h.value then Step(Err(Io(UnexpectedEof)), |input|)
      else Step(Ok(Frame(h, DecodePayload(input[4..4 + h.value]))), 4 + h.value)
  }

  /** The bytes the frame encoder writes: the prefix, then the payload. */
  function FrameBytes(f: Frame): (bs: seq<byte>)
    ensures |bs| == 4 + |f.payload.bytes|
  {
    EncodeLengthHeader(f.lengthHeader) + EncodePayload(f.payload)
  }

  /**
   The frame's decoder: the prefix with a fixed-length read, then as many bytes
   as it says with a variable-length read. The result is the layout's; on
   success the cursor has moved past the whole frame.
   */
  method DecodeFrame(reader: Reader) returns (r: Result<Frame, CodecError<()>>)
    requires reader.Valid()
    modifies reader
    ensures reader.Valid()
    ensures r == FrameStep(old(reader.Remaining())).result
    ensures r.Ok? ==> reader.pos == old(reader.pos) + FrameStep(old(reader.Remaining())).consumed
  {
    ghost var input := reader.Remaining();
    var prefix := reader.ReadFixedLength(4);
    if prefix.Err? {
      return Err(Io(prefix.error));
    }
    var lengthHeader := DecodeLengthHeader(prefix.value);
    SliceOfSuffix(input, 4, 0);
    assert reader.Remaining() == input[4..];
    var payload := reader.ReadVariableLength(lengthHeader.value);
    if payload.Err? {
      return Err(Io(payload.error));
    }
    SliceOfSuffix(input, 4, lengthHeader.value);
    r := Ok(Frame(lengthHeader, DecodePayload(payload.value)));
  }

  /** The frame's encoder: the prefix as it stands, then the payload, with no check that the two agree. */
  method EncodeFrame(writer: Writer, f: Frame)
    modifies writer
    ensures writer.buffer == old(writer.buffer) + FrameBytes(f)
  {
    ghost var start := writer.buffer;
    writer.WriteAll(EncodeLengthHeader(f.lengthHeader));
    writer.WriteAll(EncodePayload(f.payload));
    AppendAssoc(start, EncodeLengthHeader(f.lengthHeader), EncodePayload(f.payload));
  }

  /** The frame decoder fails only on a short input, and never with a part's own error. */
  lemma FrameErrors(input: seq<byte>)
    ensures FrameStep(input).result.Ok? <==> |input| >= 4 && |input| >= 4 + U32FromBe(input[..4])
    ensures FrameStep(input).result.Err? ==> FrameStep(input).result.error == Io(UnexpectedEof)
  {
  }

  /** A frame whose prefix is the payload's length survives encoding and decoding, whatever follows it. */
  lemma FrameRoundTrip(f: Frame, rest: seq<byte>)
    requires f.lengthHeader.value == |f.payload.bytes|
    ensures FrameStep(FrameBytes(f) + rest) == Step(Ok(f), 4 + |f.payload.bytes|)
  {
    var prefix := EncodeLengthHeader(f.lengthHeader);
    var payload := EncodePayload(f.payload);
    var input := FrameBytes(f) + rest;
    AppendAssoc(prefix, payload, rest);
    TakeConcat(prefix, payload + rest);
    DropConcat(prefix, payload + rest);
    TakeConcat(payload, rest);
    SliceOfSuffix(input, 4, |payload|);
    LengthHeaderRoundTrip(f.lengthHeader);
  }

  /** A decoded frame encodes back to exactly the bytes it was decoded from. */
  lemma FrameReencode(input: seq<byte>)
    requires FrameStep(input).result.Ok?
    ensures FrameStep(input).consumed == 4 + FrameStep(input).result.value.lengthHeader.value
    ensures FrameBytes(FrameStep(input).result.value) == input[..FrameStep(input).consumed]
  {
    var k: nat := FrameStep(input).result.value.lengthHeader.value;
    LengthHeaderReencode(input[..4]);
    JoinSlices(input, 4, 4 + k);
  }

  /**
   Because the encoder does not check the prefix against the payload, the
   bytes it writes for a frame decode back to that frame exactly when the
   two agree.
   */
  lemma FrameBytesDecodeBack(f: Frame)
    ensures FrameStep(FrameBytes(f)).result == Ok(f) <==> f.lengthHeader.value == |f.payload.bytes|
  {
    var bs := FrameBytes(f);
    var k := f.lengthHeader.value;
    TakeConcat(EncodeLengthHeader(f.lengthHeader), EncodePayload(f.payload));
    LengthHeaderRoundTrip(f.lengthHeader);
    if k == |f.payload.bytes| {
      FrameRoundTrip(f, []);
      assert bs + [] == bs;
    } else if k < |f.payload.bytes| {
      assert |FrameStep(bs).result.value.payload.bytes| == k;
    }
  }

  /**
   Decode a frame from a fresh cursor and encode it into an empty buffer: the
   output is the prefix of the input the decoder consumed.
   */
  method ReencodeFrame(bytes: seq<byte>) returns (r: Result<seq<byte>, CodecError<()>>)
    ensures r.Ok? <==> FrameStep(bytes).result.Ok?
    ensures r.Err? ==> r.error == Io(UnexpectedEof)
    ensures r.Ok? ==> r.value == bytes[..FrameStep(bytes).consumed]
  {
    var reader := new Reader(bytes);
    assert reader.Remaining() == bytes;
    var frame := DecodeFrame(reader);
    if frame.Err? {
      FrameErrors(bytes);
      return Err(frame.error);
    }
    var writer := new Writer();
    EncodeFrame(writer, frame.value);
    FrameReencode(bytes);
    r := Ok(writer.buffer);
  }

  /**
   The library's own frame scenario: the bytes 00 00 00 04 11 22 33 44 decode
   to prefix 4 and payload 11 22 33 44, and encoding that frame gives the same
   eight bytes.
   */
  method EquivalentWhenDecodeAndEncode() returns (frame: Frame, buf: seq<byte>)
    ensures frame == Frame(LengthHeader(4), Payload([0x11, 0x22, 0x33, 0x44]))
    ensures buf == [0x00, 0x00, 0x00, 0x04, 0x11, 0x22, 0x33, 0x44]
  {
    var bytes: seq<byte> := [0x00, 0x00, 0x00, 0x04, 0x11, 0x22, 0x33, 0x44];
    var reader := new Reader(bytes);
    assert reader.Remaining() == bytes;
    assert bytes[..4] == [0x00, 0x00, 0x00, 0x04];
    assert bytes[4..8] == [0x11, 0x22, 0x33, 0x44];
    var decoded := DecodeFrame(reader);
    frame := decoded.value;
    var writer := new Writer();
    EncodeFrame(writer, frame);
    FrameReencode(bytes);
    buf := writer.buffer;
  }
}
