/** Bytes, as numbers and as bits. */
module Bytes {
  type Octet = b: int | 0 <= b < 256

  datatype Byte = Byte(value: Octet) {
    function Bits(): bv8 { value as bv8 }
  }

  function OfBits(b: bv8): Byte {
    Byte(b as int)
  }

  /** The low eight bits. */
  function LowBits(b: bv32): Byte {
    OfBits((b & 0xff) as bv8)
  }

  lemma OfBitsBack(b: bv8)
    ensures OfBits(b).Bits() == b
  {
  }

  lemma LowBitsBack(b: bv32)
    ensures LowBits(b).Bits() as bv32 == b & 0xff
  {
    OfBitsBack((b & 0xff) as bv8);
    hide OfBits, Byte.Bits;
  }

  /** The low byte of a number. */
  function LowByte(n: nat): Byte {
    Byte(n % 256)
  }
}

/** Big-endian numbers. */
module BigEndianNumbers {
  import opened Bytes

  const TWO_64 := 0x1_0000_0000_0000_0000

  /** The `width` low-order base-256 digits of n, most significant first. */
  function BigEndian(n: nat, width: nat): (s: seq<Byte>)
    ensures |s| == width
  {
    if width == 0 then [] else BigEndian(n / 256, width - 1) + [LowByte(n)]
  }

  /** A 64-bit number as eight bytes; what does not fit in 64 bits is dropped. */
  function Be64(n: nat): (s: seq<Byte>)
    ensures |s| == 8
  {
    BigEndian(n % TWO_64, 8)
  }

  /** The number whose big-endian base-256 digits are given. */
  function FromBigEndian(s: seq<Byte>): nat {
    if |s| == 0 then 0 else FromBigEndian(s[..|s| - 1]) * 256 + s[|s| - 1].value
  }

  function Pow256(k: nat): (r: nat)
    ensures r >= 1
  {
    if k == 0 then 1 else 256 * Pow256(k - 1)
  }

  lemma {:induction false} BigEndianValue(n: nat, width: nat)
    requires n < Pow256(width)
    ensures FromBigEndian(BigEndian(n, width)) == n
  {
    if width > 0 {
      var p := Pow256(width - 1);
      assert n / 256 < p;
      BigEndianValue(n / 256, width - 1);
      var s := BigEndian(n, width);
      assert s[..|s| - 1] == BigEndian(n / 256, width - 1);
    }
  }

  lemma Pow256Of8()
    ensures Pow256(8) == TWO_64 == 256 * Pow256(7)
  {
    assert Pow256(4) == 0x1_0000_0000;
    assert Pow256(6) == 0x1_0000_0000_0000;
  }

  lemma Be64Value(n: nat)
    requires n < TWO_64
    ensures FromBigEndian(Be64(n)) == n
  {
    Pow256Of8();
    assert n % TWO_64 == n;
    BigEndianValue(n, 8);
  }
}
