/**
 The encoding half of the library: a writer is an append-only byte sink, and
 two dispatchers hand the live writer (and a context) to a type's `handle`.
 */
module Encode {
  import opened Results
  import opened Bytes

  /**
   What an encoding handle does to the writer, as a value: the bytes it
   appends and the result it returns.
   */
  datatype Emission<E> = Emission(bytes: seq<byte>, result: Result<(), E>)

  /** An in-memory sink (a growable byte vector): writes only ever append, and never fail. */
  class Writer {
    var buffer: seq<byte>

    constructor ()
      ensures buffer == []
    {
      buffer := [];
    }

    /** `write_all`: the sink grows by exactly `bytes`; what was written before stays as it was. */
    method WriteAll(bytes: seq<byte>)
      modifies this
      ensures buffer == old(buffer) + bytes
    {
      buffer := buffer + bytes;
    }

    /** `try_encode`: exactly the handle's bytes are appended and its result, error included, returned as it is. */
    method TryEncode<T, E>(value: T, handle: T -> Emission<E>) returns (r: Result<(), E>)
      modifies this
      ensures buffer == old(buffer) + handle(value).bytes
      ensures r == handle(value).result
    {
      var emission := handle(value);
      WriteAll(emission.bytes);
      r := emission.result;
    }

    /** `try_encode_with`: as `TryEncode`, with `ctx` handed to the handle unchanged. */
    method TryEncodeWith<T, C, E>(value: T, handle: (T, C) -> Emission<E>, ctx: C) returns (r: Result<(), E>)
      modifies this
      ensures buffer == old(buffer) + handle(value, ctx).bytes
      ensures r == handle(value, ctx).result
    {
      var emission := handle(value, ctx);
      WriteAll(emission.bytes);
      r := emission.result;
    }
  }

  /** The handle for `u16` in the library's own examples: `write_all(to_be_bytes)`, which cannot fail on this sink. */
  function U16BeEmit(value: U16): (e: Emission<()>)
    ensures e.result == Ok(())
    ensures |e.bytes| == 2 && U16FromBe(e.bytes) == value
  {
    Emission(U16ToBe(value), Ok(()))
  }

  /** The same handle taking the unit context, which it ignores. */
  function U16BeEmitWith(value: U16, ctx: ()): (e: Emission<()>)
    ensures e.result == Ok(())
    ensures |e.bytes| == 2 && U16FromBe(e.bytes) == value
  {
    U16BeEmit(value)
  }

  /** `try_encode` of a `u16` into an empty writer leaves exactly its two bytes, high byte first. */
  method TryEncodeU16(value: U16) returns (bytes: seq<byte>)
    ensures |bytes| == 2 && bytes[0] as int == value / 0x100 && bytes[1] as int == value % 0x100
    ensures U16FromBe(bytes) == value
  {
    var writer := new Writer();
    var r := writer.TryEncode(value, U16BeEmit);
    bytes := writer.buffer;
    assert bytes == U16ToBe(value);
    DivMod256(bytes[1], bytes[0]);
  }

  /** `try_encode_with(value, ())` into an empty writer leaves exactly the same two bytes. */
  method TryEncodeWithU16(value: U16) returns (bytes: seq<byte>)
    ensures |bytes| == 2 && bytes[0] as int == value / 0x100 && bytes[1] as int == value % 0x100
    ensures U16FromBe(bytes) == value
  {
    var writer := new Writer();
    var r := writer.TryEncodeWith(value, U16BeEmitWith, ());
    bytes := writer.buffer;
    assert bytes == U16ToBe(value);
    DivMod256(bytes[1], bytes[0]);
  }
}
