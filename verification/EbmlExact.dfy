/** EBML ids, sizes and numbers, told on their bytes, and the two lists of ids the walk goes by. */
module EbmlExact {
  import opened Bytes
  import opened Outcome
  import opened Ebml
  import opened WebmModel

  /** The lowest first byte that announces so many bytes. */
  function Least(width: nat): nat
    requires 1 <= width <= 8
  {
    [0x80, 0x40, 0x20, 0x10, 8, 4, 2, 1][width - 1]
  }

  /** What the marker bit adds to a number of so many bytes. */
  function Marked(width: nat): nat
    requires 1 <= width <= 8
  {
    [0x80, 0x4000, 0x20_0000, 0x1000_0000, 0x8_0000_0000, 0x400_0000_0000, 0x2_0000_0000_0000,
     0x100_0000_0000_0000][width - 1]
  }

  /** There is a number of so many bytes here, by its first byte. */
  predicate Announces(bytes: seq<byte>, width: nat)
    requires 1 <= width <= 8
  {
    width <= |bytes| && Least(width) <= bytes[0] < 2 * Least(width)
  }

  lemma WidthExact(first: byte, width: nat)
    requires 1 <= width <= 8
    ensures Width(first) == width <==> Least(width) <= first < 2 * Least(width)
    ensures Marker(width) == Least(width)
  {
  }

  lemma MarkedIs(width: nat)
    requires 1 <= width <= 8
    ensures Marker(width) * Radix(width - 1) == Marked(width)
    ensures UnknownSize(width) == Marked(width) - 1
  {
    assert Radix(3) == 256 * (256 * Radix(1));
    assert Radix(5) == 256 * (256 * Radix(3));
    assert Radix(7) == 256 * (256 * Radix(5));
    assert Radix(2) == 256 * Radix(1) && Radix(4) == 256 * Radix(3) && Radix(6) == 256 * Radix(5);
    assert Radix(1) == 256;
  }

  /** An id is one to four bytes, as many as its first byte announces, marker bit and all. */
  lemma IdExact(bytes: seq<byte>, id: nat, width: nat)
    ensures Vint(bytes, true) == Ok((id, width)) <==>
      1 <= width <= 4 && Announces(bytes, width) && FromBigEndian(bytes[..width]) == id
  {
    if bytes != [] {
      if 1 <= width <= 8 {
        WidthExact(bytes[0], width);
        if width <= |bytes| {
          assert [bytes[0]] + bytes[1..width] == bytes[..width];
        }
      }
      hide FromBigEndian, Width, Least;
    }
  }

  lemma MarkerOff(first: byte, width: nat)
    requires 1 <= width <= 8 && Least(width) <= first < 2 * Least(width)
    ensures first % Marker(width) + Marker(width) == first
  {
  }

  lemma Spread(first: nat, low: nat, marker: nat, radix: nat, tail: nat)
    requires first == low + marker
    ensures first * radix + tail == low * radix + tail + marker * radix
  {
  }

  lemma AnnouncedBytes(bytes: seq<byte>, width: nat)
    requires 1 <= width <= 8 && Announces(bytes, width)
    ensures width <= |bytes| && Least(width) <= bytes[0] < 2 * Least(width)
    ensures [bytes[0]] + bytes[1..width] == bytes[..width] && |bytes[1..width]| == width - 1
  {
  }

  lemma WithoutMarker(bytes: seq<byte>, width: nat)
    requires 1 <= width <= 8 && Announces(bytes, width)
    ensures width <= |bytes|
    ensures FromBigEndian([bytes[0] % Marker(width)] + bytes[1..width]) + Marked(width) == FromBigEndian(bytes[..width])
  {
    hide *;
    AnnouncedBytes(bytes, width);
    MarkerOff(bytes[0], width);
    var low: byte, tail := bytes[0] % Marker(width), bytes[1..width];
    FromBigEndianFirst(bytes[0], tail);
    FromBigEndianFirst(low, tail);
    MarkedIs(width);
    Spread(bytes[0], low, Marker(width), Radix(width - 1), FromBigEndian(tail));
  }

  /** A size is one to eight bytes, as many as its first byte announces, without the marker bit. */
  lemma SizeExact(bytes: seq<byte>, size: nat, width: nat)
    ensures Vint(bytes, false) == Ok((size, width)) <==>
      1 <= width <= 8 && Announces(bytes, width) && FromBigEndian(bytes[..width]) == size + Marked(width)
  {
    if bytes != [] && 1 <= width <= 8 {
      WidthExact(bytes[0], width);
      if Announces(bytes, width) {
        WithoutMarker(bytes, width);
      }
      hide FromBigEndian, Width, Least, Marked, Marker;
    }
  }

  /** Numbers in metadata are one to eight bytes, most significant first. */
  lemma UintExact(bytes: seq<byte>, n: nat)
    ensures Uint(bytes) == Ok(n) <==> 1 <= |bytes| <= 8 && FromBigEndian(bytes) == n
  {
    hide FromBigEndian;
  }

  /** The elements that hold elements. */
  const MASTERS: set<nat> :=
    {0x1A45_DFA3, 0x1853_8067, 0x1F43_B675, 0x1654_AE6B, 0xAE, 0xE1, 0xA0, 0x1549_A966, 0x114D_9B74, 0x4DBB,
     0x1C53_BB6B, 0xBB, 0xB7, 0x1254_C367, 0x7373, 0x63C0, 0x67C8, 0x1043_A770, 0x45B9, 0xB6, 0x80, 0x1941_A469,
     0x61A7, 0x4281, 0x6944, 0x6911, 0x8F, 0x4520, 0x75A1, 0xA6, 0xC8, 0x8E, 0xE8, 0x5854, 0xDB, 0x6924, 0x41E4,
     0x6624}

  /** The elements that end a Cluster of unknown size. */
  const ENDINGS: set<nat> :=
    {0x114D_9B74, 0x1549_A966, 0x1654_AE6B, 0x1F43_B675, 0x1C53_BB6B, 0x1941_A469, 0x1043_A770, 0x1254_C367}

  lemma ListsExact(id: nat)
    ensures Master(id) <==> id in MASTERS
    ensures SegmentLevel(id) <==> id in ENDINGS
  {
  }
}
