/**
 The decoding half of the library: a reader is a cursor over a byte source,
 with two exact-length reads, and two dispatchers that hand the live reader
 (and a context) to a type's `handle`.
 */
module Decode {
  import opened Results
  import opened Bytes

  /** The transport failure of a reader. The only one a byte source can have is running out of bytes. */
  datatype IoError = UnexpectedEof

  /**
   What a handle does to the reader, as a value: the result it returns and how
   many bytes it took from the front of the remaining input.
   */
  datatype Step<T, E> = Step(result: Result<T, E>, consumed: nat)

  /** A handle given by what it does to the bytes after the cursor. */
  type Handle<T, E> = seq<byte> -> Step<T, E>

  /** A handle that also receives a context value. */
  type HandleWith<-C, T, E> = (seq<byte>, C) -> Step<T, E>

  /**
   A reader over an in-memory byte source: the bytes never change, the
   position only moves forward.
   */
  class Reader {
    const source: seq<byte>
    var pos: nat

    ghost predicate Valid()
      reads this
    {
      pos <= |source|
    }

    /** The bytes not yet read. */
    function Remaining(): seq<byte>
      reads this
      requires Valid()
    {
      source[pos..]
    }

    constructor (source: seq<byte>)
      ensures Valid() && this.source == source && pos == 0
    {
      this.source := source;
      pos := 0;
    }

    /**
     The transport's `read_exact`: fill a buffer of `n` bytes completely or fail.
     Like an in-memory cursor, a short read leaves the position at the end of
     the source, but callers are promised nothing about the position after a
     failure.
     */
    method ReadExact(n: nat) returns (r: Result<seq<byte>, IoError>)
      requires Valid()
      modifies this
      ensures Valid()
      ensures r.Ok? <==> n <= |old(Remaining())|
      ensures r.Err? ==> r.error == UnexpectedEof
      ensures r.Ok? ==> r.value == old(Remaining())[..n] && pos == old(pos) + n
    {
      if n <= |source| - pos {
        r := Ok(source[pos..pos + n]);
        pos := pos + n;
      } else {
        r := Err(UnexpectedEof);
        pos := |source|;
      }
    }

    /** `read_fixed_length::<N>`: exactly the next `n` bytes, or an I/O error and no bytes at all. */
    method ReadFixedLength(n: nat) returns (r: Result<seq<byte>, IoError>)
      requires Valid()
      modifies this
      ensures Valid()
      ensures r.Ok? <==> n <= |old(Remaining())|
      ensures r.Err? ==> r.error == UnexpectedEof
      ensures r.Ok? ==> |r.value| == n && r.value == old(Remaining())[..n] && pos == old(pos) + n
    {
      r := ReadExact(n);
    }

    /** `read_variable_length(length)`: a buffer of exactly `length` bytes, the next ones in the source. */
    method ReadVariableLength(length: nat) returns (r: Result<seq<byte>, IoError>)
      requires Valid()
      modifies this
      ensures Valid()
      ensures r.Ok? <==> length <= |old(Remaining())|
      ensures r.Err? ==> r.error == UnexpectedEof
      ensures r.Ok? ==> |r.value| == length && r.value == old(Remaining())[..length] && pos == old(pos) + length
      ensures length == 0 ==> r == Ok([]) && pos == old(pos)
    {
      r := ReadExact(length);
    }

    /**
     `try_decode`: whatever `handle` returns, with exactly the handle's effect
     on the cursor; the handle's own error is passed through as it is.
     */
    method TryDecode<T, E>(handle: Handle<T, E>) returns (r: Result<T, E>)
      requires Valid()
      requires handle(Remaining()).consumed <= |Remaining()|
      modifies this
      ensures Valid()
      ensures r == handle(old(Remaining())).result
      ensures pos == old(pos) + handle(old(Remaining())).consumed
    {
      var step := handle(Remaining());
      r := step.result;
      pos := pos + step.consumed;
    }

    /** `try_decode_with`: as `TryDecode`, with `ctx` handed to the handle unchanged. */
    method TryDecodeWith<C, T, E>(handle: HandleWith<C, T, E>, ctx: C) returns (r: Result<T, E>)
      requires Valid()
      requires handle(Remaining(), ctx).consumed <= |Remaining()|
      modifies this
      ensures Valid()
      ensures r == handle(old(Remaining()), ctx).result
      ensures pos == old(pos) + handle(old(Remaining()), ctx).consumed
    {
      var step := handle(Remaining(), ctx);
      r := step.result;
      pos := pos + step.consumed;
    }
  }

  /** The handle for `u16` in the library's own examples: read two bytes, big-endian. */
  function U16BeHandle(input: seq<byte>): (s: Step<U16, IoError>)
    ensures s.consumed <= |input|
    ensures s.result.Ok? <==> |input| >= 2
    ensures s.result.Ok? ==> s.consumed == 2 && U16ToBe(s.result.value) == input[..2]
  {
    if |input| < 2 then Step(Err(UnexpectedEof), |input|)
    else
      U16BeBytesRoundTrip(input[..2]);
      Step(Ok(U16FromBe(input[..2])), 2)
  }

  /** The same handle taking the unit context, which it ignores. */
  function U16BeHandleWith(input: seq<byte>, ctx: ()): (s: Step<U16, IoError>)
    ensures s.consumed <= |input|
    ensures s.result.Ok? <==> |input| >= 2
    ensures s.result.Ok? ==> s.consumed == 2 && U16ToBe(s.result.value) == input[..2]
  {
    U16BeHandle(input)
  }

  /** Reading two bytes with `ReadFixedLength` from a cursor over `to_be_bytes(value)` gives back `value`. */
  method ReadFixedLengthU16(value: U16) returns (actual: U16)
    ensures actual == value
  {
    var reader := new Reader(U16ToBe(value));
    assert reader.Remaining() == U16ToBe(value);
    var r := reader.ReadFixedLength(2);
    assert r.value == U16ToBe(value);
    actual := U16FromBe(r.value);
  }

  /** The same with `ReadVariableLength(2)`, the value rebuilt from the buffer's two entries. */
  method ReadVariableLengthU16(value: U16) returns (actual: U16)
    ensures actual == value
  {
    var reader := new Reader(U16ToBe(value));
    assert reader.Remaining() == U16ToBe(value);
    var r := reader.ReadVariableLength(2);
    assert [r.value[0], r.value[1]] == U16ToBe(value);
    actual := U16FromBe([r.value[0], r.value[1]]);
  }

  /** `try_decode` with the big-endian `u16` handle gives back the encoded value and consumes both bytes. */
  method TryDecodeU16(value: U16) returns (actual: U16, consumed: nat)
    ensures actual == value && consumed == 2
  {
    var reader := new Reader(U16ToBe(value));
    assert reader.Remaining() == U16ToBe(value) == U16ToBe(value)[..2];
    var r := reader.TryDecode(U16BeHandle);
    assert U16FromBe(U16ToBe(r.value)) == U16FromBe(U16ToBe(value));
    actual := r.value;
    consumed := reader.pos;
  }

  /** `try_decode_with(())` with the same handle gives back the encoded value. */
  method TryDecodeWithU16(value: U16) returns (actual: U16, consumed: nat)
    ensures actual == value && consumed == 2
  {
    var reader := new Reader(U16ToBe(value));
    assert reader.Remaining() == U16ToBe(value) == U16ToBe(value)[..2];
    var r := reader.TryDecodeWith(U16BeHandleWith, ());
    assert U16FromBe(U16ToBe(r.value)) == U16FromBe(U16ToBe(value));
    actual := r.value;
    consumed := reader.pos;
  }
}
