/** Bytes, machine integers and their little- and big-endian encodings. */
module Bytes {
  type byte = b: int | 0 <= b < 256

  const U16_BOUND := 0x1_0000
  const U32_BOUND := 0x1_0000_0000
  const U64_BOUND := 0x1_0000_0000_0000_0000

  type U16 = n: int | 0 <= n < 0x1_0000
  type U32 = n: int | 0 <= n < 0x1_0000_0000
  type U64 = n: int | 0 <= n < 0x1_0000_0000_0000_0000

  /** 256 to the power `width`. */
  function Radix(width: nat): (r: nat)
    ensures r > 0
  {
    if width == 0 then 1 else 256 * Radix(width - 1)
  }

  /** The `width` low-order bytes of `n`, least significant first. */
  function LittleEndian(n: nat, width: nat): (s: seq<byte>)
    ensures |s| == width
  {
    if width == 0 then [] else [n % 256] + LittleEndian(n / 256, width - 1)
  }

  function FromLittleEndian(s: seq<byte>): (n: nat)
    ensures n < Radix(|s|)
  {
    if s == [] then 0 else s[0] + 256 * FromLittleEndian(s[1..])
  }

  /** The `width` low-order bytes of `n`, most significant first. */
  function BigEndian(n: nat, width: nat): (s: seq<byte>)
    ensures |s| == width
  {
    if width == 0 then [] else BigEndian(n / 256, width - 1) + [n % 256]
  }

  function FromBigEndian(s: seq<byte>): (n: nat)
    ensures n < Radix(|s|)
  {
    if s == [] then 0 else 256 * FromBigEndian(s[..|s| - 1]) + s[|s| - 1]
  }

  lemma RadixValues()
    ensures Radix(1) == 256 && Radix(2) == U16_BOUND && Radix(4) == U32_BOUND && Radix(8) == U64_BOUND
  {
    assert Radix(4) == 256 * (256 * Radix(2));
    assert Radix(6) == 256 * (256 * Radix(4));
    assert Radix(8) == 256 * (256 * Radix(6));
  }

  /** Decoding undoes encoding for every value that fits the width. */
  lemma {:induction false} LittleEndianRoundTrip(n: nat, width: nat)
    requires n < Radix(width)
    ensures FromLittleEndian(LittleEndian(n, width)) == n
  {
    if width > 0 {
      LittleEndianRoundTrip(n / 256, width - 1);
      assert LittleEndian(n, width)[1..] == LittleEndian(n / 256, width - 1);
    }
  }

  /** Encoding undoes decoding for every byte string. */
  lemma {:induction false} FromLittleEndianRoundTrip(s: seq<byte>)
    ensures LittleEndian(FromLittleEndian(s), |s|) == s
  {
    if s != [] {
      FromLittleEndianRoundTrip(s[1..]);
      var n := FromLittleEndian(s);
      assert n % 256 == s[0] && n / 256 == FromLittleEndian(s[1..]);
    }
  }

  /** A field holds a number exactly when it is the encoding of that number. */
  lemma FieldExact(s: seq<byte>, n: nat)
    requires n < Radix(|s|)
    ensures FromLittleEndian(s) == n <==> s == LittleEndian(n, |s|)
  {
    LittleEndianRoundTrip(n, |s|);
    FromLittleEndianRoundTrip(s);
  }

  lemma {:induction false} BigEndianRoundTrip(n: nat, width: nat)
    requires n < Radix(width)
    ensures FromBigEndian(BigEndian(n, width)) == n
  {
    if width > 0 {
      BigEndianRoundTrip(n / 256, width - 1);
      assert BigEndian(n, width)[..width - 1] == BigEndian(n / 256, width - 1);
    }
  }

  lemma {:induction false} FromBigEndianRoundTrip(s: seq<byte>)
    ensures BigEndian(FromBigEndian(s), |s|) == s
  {
    if s != [] {
      FromBigEndianRoundTrip(s[..|s| - 1]);
      var n := FromBigEndian(s);
      assert n % 256 == s[|s| - 1] && n / 256 == FromBigEndian(s[..|s| - 1]);
    }
  }

  /** The least significant byte comes first in one order and last in the other. */
  lemma ByteOrder(a: byte, b: byte, c: byte, d: byte)
    ensures FromLittleEndian([a, b]) == a + 0x100 * b && FromBigEndian([a, b]) == 0x100 * a + b
    ensures FromLittleEndian([a, b, c, d]) == a + 0x100 * b + 0x1_0000 * c + 0x100_0000 * d
    ensures FromBigEndian([a, b, c, d]) == 0x100_0000 * a + 0x1_0000 * b + 0x100 * c + d
  {
    assert [a, b, c, d][1..] == [b, c, d] && [b, c, d][1..] == [c, d] && [c, d][1..] == [d] && [d][1..] == [];
    assert [a, b, c, d][..3] == [a, b, c] && [a, b, c][..2] == [a, b] && [a, b][..1] == [a] && [a][..0] == [];
    assert [a, b][1..] == [b] && [b][1..] == [];
    assert FromLittleEndian([d]) == d && FromLittleEndian([c, d]) == c + 0x100 * d;
    assert FromLittleEndian([b, c, d]) == b + 0x100 * c + 0x1_0000 * d;
    assert FromBigEndian([a]) == a && FromBigEndian([a, b]) == 0x100 * a + b;
    assert FromBigEndian([a, b, c]) == 0x1_0000 * a + 0x100 * b + c;
    assert FromLittleEndian([b]) == b;
  }
}
