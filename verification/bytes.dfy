/**
 * Fixed-width integers as Go's encoding/binary package lays them out:
 * unsigned values most significant byte first (big-endian), signed values
 * as their two's complement bit pattern of the same width.
 */
module Bytes {

  type byte = x: int | 0 <= x < 0x100
  type uint32 = x: int | 0 <= x < 0x1_0000_0000
  type uint64 = x: int | 0 <= x < 0x1_0000_0000_0000_0000
  type int16 = x: int | -0x8000 <= x < 0x8000
  type int64 = x: int | -0x8000_0000_0000_0000 <= x < 0x8000_0000_0000_0000

  /** 256 to the power n: how many distinct values n bytes can hold. */
  function Pow256(n: nat): (p: nat)
    ensures p >= 1
  {
    if n == 0 then 1 else 256 * Pow256(n - 1)
  }

  /** Half of Pow256(width): the bound of the signed values of that width. */
  function SignBound(width: nat): (h: int)
    requires width >= 1
    ensures h > 0 && 2 * h == Pow256(width)
  {
    128 * Pow256(width - 1)
  }

  /** The `width` bytes of v, most significant first (binary.BigEndian.PutUintN). */
  function BigEndian(v: nat, width: nat): (s: seq<byte>)
    requires v < Pow256(width)
    ensures |s| == width
  {
    if width == 0 then [] else BigEndian(v / 256, width - 1) + [v % 256]
  }

  /** The unsigned value of s read most significant byte first (binary.BigEndian.UintN). */
  function FromBigEndian(s: seq<byte>): (v: nat)
    ensures v < Pow256(|s|)
  {
    if s == [] then 0 else FromBigEndian(s[..|s| - 1]) * 256 + s[|s| - 1]
  }

  /** Reading back what BigEndian wrote gives the value that was written. */
  lemma {:induction false} FromBigEndianInverse(v: nat, width: nat)
    requires v < Pow256(width)
    ensures FromBigEndian(BigEndian(v, width)) == v
  {
    if width > 0 {
      var s := BigEndian(v, width);
      assert s[..width - 1] == BigEndian(v / 256, width - 1);
      FromBigEndianInverse(v / 256, width - 1);
    }
  }

  /** Every byte string is the big-endian image of the value read from it. */
  lemma {:induction false} BigEndianInverse(s: seq<byte>)
    ensures BigEndian(FromBigEndian(s), |s|) == s
  {
    if s != [] {
      var init := s[..|s| - 1];
      BigEndianInverse(init);
      var v := FromBigEndian(s);
      assert v / 256 == FromBigEndian(init);
      assert v % 256 == s[|s| - 1];
      assert s == init + [s[|s| - 1]];
    }
  }

  /** The unsigned bit pattern of a signed value (Go's uintN(v) conversion). */
  function ToTwosComplement(v: int, width: nat): (u: nat)
    requires width >= 1 && -SignBound(width) <= v < SignBound(width)
    ensures u < Pow256(width)
    ensures u == v || u == v + Pow256(width)
    ensures u < SignBound(width) <==> v >= 0
  {
    if v < 0 then v + Pow256(width) else v
  }

  /** The signed value of an unsigned bit pattern (Go's intN(u) conversion). */
  function FromTwosComplement(u: nat, width: nat): (v: int)
    requires width >= 1 && u < Pow256(width)
    ensures -SignBound(width) <= v < SignBound(width)
    ensures v == u || v == u - Pow256(width)
  {
    if u < SignBound(width) then u else u - Pow256(width)
  }

  /** The two conversions are inverse to each other, in both directions. */
  lemma TwosComplementInverse(v: int, u: nat, width: nat)
    requires width >= 1 && -SignBound(width) <= v < SignBound(width) && u < Pow256(width)
    ensures FromTwosComplement(ToTwosComplement(v, width), width) == v
    ensures ToTwosComplement(FromTwosComplement(u, width), width) == u
  {
  }

  /** The byte Go's encoder writes for a bool. */
  function BoolByte(b: bool): byte
  {
    if b then 1 else 0
  }
}
