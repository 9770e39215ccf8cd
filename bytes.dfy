/**
 Fixed-width integers and the byte-order conversions the formats use
 (`from_le_bytes`, `to_le_bytes`, `from_be_bytes`, `to_be_bytes` of Rust's
 integer types). A byte is an integer from 0 to 255 (Rust's `u8`); the wider
 integers are mathematical integers restricted to the range of their Rust type,
 so no conversion ever wraps.
 */
module Bytes {

  type byte = x: int | 0 <= x < 0x100
  type U16 = x: int | 0 <= x < 0x1_0000
  type U32 = x: int | 0 <= x < 0x1_0000_0000
  type I32 = x: int | -0x8000_0000 <= x < 0x8000_0000

  /** 256 to the power `n`: one more than the largest value `n` bytes can hold. */
  function Pow256(n: nat): (p: nat)
    ensures p > 0
  {
    if n == 0 then 1 else 256 * Pow256(n - 1)
  }

  /** The unsigned value of `bs`, least significant byte first. */
  function LeValue(bs: seq<byte>): (v: nat)
    ensures v < Pow256(|bs|)
  {
    if bs == [] then 0 else bs[0] as int + 256 * LeValue(bs[1..])
  }

  /** The `n` bytes of `v`, least significant byte first (high bytes beyond `n` are dropped). */
  function LeBytes(v: nat, n: nat): (bs: seq<byte>)
    ensures |bs| == n
  {
    if n == 0 then [] else [v % 256] + LeBytes(v / 256, n - 1)
  }

  /** The unsigned value of `bs`, most significant byte first. */
  function BeValue(bs: seq<byte>): (v: nat)
    ensures v < Pow256(|bs|)
  {
    if bs == [] then 0 else 256 * BeValue(bs[..|bs| - 1]) + bs[|bs| - 1] as int
  }

  /** The `n` bytes of `v`, most significant byte first (high bytes beyond `n` are dropped). */
  function BeBytes(v: nat, n: nat): (bs: seq<byte>)
    ensures |bs| == n
  {
    if n == 0 then [] else BeBytes(v / 256, n - 1) + [v % 256]
  }

  /** Splitting `a + 256 * b` into its low byte and the rest. */
  lemma DivMod256(a: int, b: int)
    requires 0 <= a < 256 && 0 <= b
    ensures (a + 256 * b) % 256 == a && (a + 256 * b) / 256 == b
  {
  }

  /** Writing a value that fits in `n` bytes and reading it back gives the value (little-endian). */
  lemma {:induction false} LeValueOfLeBytes(v: nat, n: nat)
    requires v < Pow256(n)
    ensures LeValue(LeBytes(v, n)) == v
  {
    if n > 0 {
      LeValueOfLeBytes(v / 256, n - 1);
      assert LeBytes(v, n)[1..] == LeBytes(v / 256, n - 1);
    }
  }

  /** Reading `bs` and writing the value back in `|bs|` bytes gives `bs` again (little-endian). */
  lemma {:induction false} LeBytesOfLeValue(bs: seq<byte>)
    ensures LeBytes(LeValue(bs), |bs|) == bs
  {
    if bs != [] {
      var v := LeValue(bs);
      LeBytesOfLeValue(bs[1..]);
      DivMod256(bs[0] as int, LeValue(bs[1..]));
      assert LeBytes(v, |bs|) == [bs[0]] + bs[1..];
    }
  }

  /** Writing a value that fits in `n` bytes and reading it back gives the value (big-endian). */
  lemma {:induction false} BeValueOfBeBytes(v: nat, n: nat)
    requires v < Pow256(n)
    ensures BeValue(BeBytes(v, n)) == v
  {
    if n > 0 {
      BeValueOfBeBytes(v / 256, n - 1);
      var bs := BeBytes(v, n);
      assert bs[..n - 1] == BeBytes(v / 256, n - 1);
    }
  }

  /** Reading `bs` and writing the value back in `|bs|` bytes gives `bs` again (big-endian). */
  lemma {:induction false} BeBytesOfBeValue(bs: seq<byte>)
    ensures BeBytes(BeValue(bs), |bs|) == bs
  {
    if bs != [] {
      var n := |bs|;
      var v := BeValue(bs);
      BeBytesOfBeValue(bs[..n - 1]);
      DivMod256(bs[n - 1] as int, BeValue(bs[..n - 1]));
      assert BeBytes(v, n) == bs[..n - 1] + [bs[n - 1]];
    }
  }

  // The Rust conversions at the widths the formats use.

  /** `u16::from_le_bytes` puts the first byte lowest. */
  function U16FromLe(bs: seq<byte>): (v: U16)
    requires |bs| == 2
    ensures v == bs[0] as int + 0x100 * bs[1] as int
  {
    assert LeValue(bs[1..]) == bs[1] as int + 256 * LeValue(bs[1..][1..]);
    assert bs[1..][1..] == [];
    LeValue(bs)
  }

  function U16ToLe(v: U16): (bs: seq<byte>)
    ensures |bs| == 2 && U16FromLe(bs) == v
  {
    LeValueOfLeBytes(v, 2);
    LeBytes(v, 2)
  }

  /** `u16::from_be_bytes` puts the first byte highest. */
  function U16FromBe(bs: seq<byte>): (v: U16)
    requires |bs| == 2
    ensures v == 0x100 * bs[0] as int + bs[1] as int
  {
    assert BeValue(bs[..1]) == 256 * BeValue(bs[..1][..0]) + bs[0] as int;
    assert bs[..1][..0] == [];
    BeValue(bs)
  }

  function U16ToBe(v: U16): (bs: seq<byte>)
    ensures |bs| == 2 && U16FromBe(bs) == v
  {
    BeValueOfBeBytes(v, 2);
    BeBytes(v, 2)
  }

  /** `u32::from_le_bytes` weighs the four bytes 1, 2^8, 2^16, 2^24 in order. */
  function U32FromLe(bs: seq<byte>): (v: U32)
    requires |bs| == 4
    ensures v == bs[0] as int + 0x100 * bs[1] as int + 0x1_0000 * bs[2] as int + 0x100_0000 * bs[3] as int
  {
    var t1, t2, t3 := bs[1..], bs[2..], bs[3..];
    assert t1[1..] == t2 && t2[1..] == t3 && t3[1..] == [];
    assert LeValue(t3) == bs[3] as int;
    assert LeValue(t2) == bs[2] as int + 256 * LeValue(t3);
    assert LeValue(t1) == bs[1] as int + 256 * LeValue(t2);
    LeValue(bs)
  }

  function U32ToLe(v: U32): (bs: seq<byte>)
    ensures |bs| == 4 && U32FromLe(bs) == v
  {
    LeValueOfLeBytes(v, 4);
    LeBytes(v, 4)
  }

  /** `u32::from_be_bytes` weighs the four bytes 2^24, 2^16, 2^8, 1 in order. */
  function U32FromBe(bs: seq<byte>): (v: U32)
    requires |bs| == 4
    ensures v == 0x100_0000 * bs[0] as int + 0x1_0000 * bs[1] as int + 0x100 * bs[2] as int + bs[3] as int
  {
    var h1, h2, h3 := bs[..1], bs[..2], bs[..3];
    assert h3[..2] == h2 && h2[..1] == h1 && h1[..0] == [];
    assert BeValue(h1) == bs[0] as int;
    assert BeValue(h2) == 256 * BeValue(h1) + bs[1] as int;
    assert BeValue(h3) == 256 * BeValue(h2) + bs[2] as int;
    BeValue(bs)
  }

  function U32ToBe(v: U32): (bs: seq<byte>)
    ensures |bs| == 4 && U32FromBe(bs) == v
  {
    BeValueOfBeBytes(v, 4);
    BeBytes(v, 4)
  }

  /**
   `i32::from_le_bytes`, two's complement: the value is negative exactly when
   the top bit of the last byte is set, and is then the unsigned reading minus 2^32.
   */
  function I32FromLe(bs: seq<byte>): (v: I32)
    requires |bs| == 4
    ensures v < 0 <==> bs[3] >= 0x80
    ensures v == if bs[3] < 0x80 then U32FromLe(bs) else U32FromLe(bs) - 0x1_0000_0000
  {
    var u := U32FromLe(bs);
    if u < 0x8000_0000 then u else u - 0x1_0000_0000
  }

  function I32ToLe(v: I32): (bs: seq<byte>)
    ensures |bs| == 4 && I32FromLe(bs) == v
  {
    U32ToLe(if v < 0 then v + 0x1_0000_0000 else v)
  }

  /** `to_le_bytes` undoes `from_le_bytes` for u16. */
  lemma U16LeBytesRoundTrip(bs: seq<byte>)
    requires |bs| == 2
    ensures U16ToLe(U16FromLe(bs)) == bs
  {
    LeBytesOfLeValue(bs);
  }

  /** `to_be_bytes` undoes `from_be_bytes` for u16. */
  lemma U16BeBytesRoundTrip(bs: seq<byte>)
    requires |bs| == 2
    ensures U16ToBe(U16FromBe(bs)) == bs
  {
    BeBytesOfBeValue(bs);
  }

  /** `to_le_bytes` undoes `from_le_bytes` for u32. */
  lemma U32LeBytesRoundTrip(bs: seq<byte>)
    requires |bs| == 4
    ensures U32ToLe(U32FromLe(bs)) == bs
  {
    LeBytesOfLeValue(bs);
  }

  /** `to_be_bytes` undoes `from_be_bytes` for u32. */
  lemma U32BeBytesRoundTrip(bs: seq<byte>)
    requires |bs| == 4
    ensures U32ToBe(U32FromBe(bs)) == bs
  {
    BeBytesOfBeValue(bs);
  }

  /** `to_le_bytes` undoes `from_le_bytes` for i32. */
  lemma I32LeBytesRoundTrip(bs: seq<byte>)
    requires |bs| == 4
    ensures I32ToLe(I32FromLe(bs)) == bs
  {
    U32LeBytesRoundTrip(bs);
  }

  // ---------------------------------------------------------------------------
  // Sequence algebra used when a layout is assembled or taken apart field by field

  /** Appending in two steps is appending the concatenation. */
  lemma AppendAssoc(a: seq<byte>, b: seq<byte>, c: seq<byte>)
    ensures a + b + c == a + (b + c)
  {
  }

  /** A prefix known to be `p + f` splits into `p` and then `f`. */
  lemma SplitPrefix(s: seq<byte>, p: seq<byte>, f: seq<byte>)
    requires |p| + |f| <= |s| && s[..|p| + |f|] == p + f
    ensures s[..|p|] == p && s[|p|..|p| + |f|] == f
  {
    assert s[..|p|] == s[..|p| + |f|][..|p|];
    assert s[|p|..|p| + |f|] == s[..|p| + |f|][|p|..];
  }

  /** Two adjacent slices of a prefix join into the longer prefix. */
  lemma JoinSlices(s: seq<byte>, i: nat, j: nat)
    requires i <= j <= |s|
    ensures s[..i] + s[i..j] == s[..j]
  {
  }

  /** Slicing a suffix is slicing the whole at shifted offsets. */
  lemma SliceOfSuffix(s: seq<byte>, i: nat, j: nat)
    requires i + j <= |s|
    ensures s[i..][j..] == s[i + j..] && s[i..][..j] == s[i..i + j]
  {
  }

  /** Dropping a prefix leaves what followed it. */
  lemma DropConcat(p: seq<byte>, q: seq<byte>)
    ensures (p + q)[|p|..] == q
  {
  }

  /** Taking the length of the first part gives the first part. */
  lemma TakeConcat(p: seq<byte>, q: seq<byte>)
    ensures (p + q)[..|p|] == p
  {
  }

  /** A prefix of a prefix is a prefix, and what lies between two prefixes is a slice. */
  lemma PrefixParts(s: seq<byte>, i: nat, j: nat)
    requires i <= j <= |s|
    ensures s[..j][..i] == s[..i] && s[..j][i..] == s[i..j]
  {
  }
}
