/** A rebuilt font, read back from its bytes: what a font parser finds, told by the bytes of the container alone. */
module WoffReadBack {
  import opened Bytes
  import opened Outcome
  import opened Woff
  import opened WoffLayout

  /** The big-endian number of four bytes. */
  function Field(s: seq<byte>, at: nat): nat
    requires at + 4 <= |s|
  {
    FromBigEndian(s[at..at + 4])
  }

  function Half(s: seq<byte>, at: nat): nat
    requires at + 2 <= |s|
  {
    FromBigEndian(s[at..at + 2])
  }

  /** The container has a header, and as many table records as it says, within what it says is its length. */
  predicate Headed(bytes: seq<byte>) {
    && |bytes| >= 44 && bytes[..4] == [0x77, 0x4F, 0x46, 0x46]
    && 0 < Half(bytes, 12) <= 256 && Field(bytes, 16) <= 33_554_432
    && 44 + 20 * Half(bytes, 12) <= Field(bytes, 8) <= |bytes|
  }

  function Tag(bytes: seq<byte>, i: nat): seq<byte>
    requires Headed(bytes) && i < Half(bytes, 12)
  {
    bytes[44 + 20 * i..48 + 20 * i]
  }

  /** One of the four numbers behind the tag of a record: stored offset, stored length, length, checksum. */
  function Number(bytes: seq<byte>, i: nat, k: nat): nat
    requires Headed(bytes) && i < Half(bytes, 12) && k < 4
  {
    Field(bytes, 48 + 20 * i + 4 * k)
  }

  function Stored(bytes: seq<byte>, i: nat): nat
    requires Headed(bytes) && i < Half(bytes, 12)
  {
    Number(bytes, i, 0)
  }

  function Packed(bytes: seq<byte>, i: nat): nat
    requires Headed(bytes) && i < Half(bytes, 12)
  {
    Number(bytes, i, 1)
  }

  function Length(bytes: seq<byte>, i: nat): nat
    requires Headed(bytes) && i < Half(bytes, 12)
  {
    Number(bytes, i, 2)
  }

  /** A table lies within the container's length, and is not longer packed than unpacked. */
  predicate Inside(bytes: seq<byte>, i: nat)
    requires Headed(bytes) && i < Half(bytes, 12)
  {
    Stored(bytes, i) + Packed(bytes, i) <= Field(bytes, 8) && Packed(bytes, i) <= Length(bytes, i)
  }

  /** The bytes of a table: as they are stored if the two lengths agree, else what inflating them gives. */
  function Unpacked(bytes: seq<byte>, inflate: Inflate, i: nat): Option<seq<byte>>
    requires Headed(bytes) && i < Half(bytes, 12) && Inside(bytes, i)
  {
    var source := bytes[Stored(bytes, i)..Stored(bytes, i) + Packed(bytes, i)];
    if Packed(bytes, i) == Length(bytes, i) then Some(source) else inflate(source, Length(bytes, i) + 1)
  }

  predicate Unpacks(bytes: seq<byte>, inflate: Inflate, i: nat)
    requires Headed(bytes) && i < Half(bytes, 12) && Inside(bytes, i)
  {
    var data := Unpacked(bytes, inflate, i);
    data.Some? && |data.value| == Length(bytes, i)
  }

  /** Where a table goes: the first behind the directory, each next one at the next multiple of four. */
  function Place(bytes: seq<byte>, i: nat): nat
    requires Headed(bytes) && i < Half(bytes, 12)
  {
    if i == 0 then 12 + 16 * Half(bytes, 12)
    else (Place(bytes, i - 1) + Length(bytes, i - 1) + 3) / 4 * 4
  }

  /** The table whose adjustment field is recomputed: the last one tagged `head` that has the field. */
  ghost predicate Adjusted(bytes: seq<byte>, i: nat)
    requires Headed(bytes) && i < Half(bytes, 12)
  {
    && HasField(bytes, i)
    && forall j :: i < j < Half(bytes, 12) ==> !HasField(bytes, j)
  }

  predicate HasField(bytes: seq<byte>, i: nat)
    requires Headed(bytes) && i < Half(bytes, 12)
  {
    Tag(bytes, i) == [0x68, 0x65, 0x61, 0x64] && Length(bytes, i) >= 12
  }

  // ---------- The container as it was read ----------

  lemma DirectoryOf(bytes: seq<byte>)
    ensures ReadDirectory(bytes).Ok? <==>
      && Headed(bytes) && 12 + 16 * Half(bytes, 12) <= Field(bytes, 16)
      && forall i :: 0 <= i < Half(bytes, 12) ==> Inside(bytes, i)
    ensures ReadDirectory(bytes).Ok? ==> var d := ReadDirectory(bytes).value;
      && d.flavor == bytes[4..8] && d.size == Field(bytes, 16) && |d.tables| == Half(bytes, 12)
      && forall i :: 0 <= i < Half(bytes, 12) ==> RecordIs(bytes, d.tables[i], i)
  {
    hide FromBigEndian;
    if Headed(bytes) {
      var tables := Records(bytes, Half(bytes, 12));
      forall i | 0 <= i < Half(bytes, 12)
        ensures RecordIs(bytes, tables[i], i) && (InBounds(tables[i], Field(bytes, 8)) <==> Inside(bytes, i))
      {
        assert tables[i] == RecordAt(bytes, i);
      }
    }
  }

  ghost predicate RecordIs(bytes: seq<byte>, t: Table, i: nat)
    requires Headed(bytes) && i < Half(bytes, 12)
  {
    && t.tag == Tag(bytes, i) && t.sourceOffset == Stored(bytes, i) && t.compressedLength == Packed(bytes, i)
    && t.originalLength == Length(bytes, i) && t.checksum == Number(bytes, i, 3)
  }

  ghost predicate Read(bytes: seq<byte>, d: Directory) {
    && Headed(bytes) && d.flavor == bytes[4..8] && d.size == Field(bytes, 16) && |d.tables| == Half(bytes, 12)
    && (forall i :: 0 <= i < Half(bytes, 12) ==> Inside(bytes, i) && RecordIs(bytes, d.tables[i], i))
    && Bounded(d.tables, |bytes|)
  }

  lemma Aligned(x: nat)
    ensures Align4(x) == (x + 3) / 4 * 4 && (x % 4 == 0 ==> Align4(x) == x)
  {
  }

  lemma RecordHead(bytes: seq<byte>, d: Directory, i: nat)
    requires Read(bytes, d) && i < |d.tables|
    ensures d.tables[i].originalLength == Length(bytes, i)
    ensures d.tables[i].tag == HEAD && d.tables[i].originalLength >= 12 <==> HasField(bytes, i)
  {
    assert RecordIs(bytes, d.tables[i], i);
    hide Tag, Number, Half, Read;
  }

  lemma Counted(bytes: seq<byte>, d: Directory)
    requires Read(bytes, d)
    ensures Headed(bytes) && |d.tables| == Half(bytes, 12)
  {
  }

  lemma AllInside(bytes: seq<byte>, d: Directory)
    requires Read(bytes, d)
    ensures Headed(bytes) && Bounded(d.tables, |bytes|) && d.flavor == bytes[4..8] && d.size == Field(bytes, 16)
    ensures forall i :: 0 <= i < Half(bytes, 12) ==> Inside(bytes, i)
  {
    hide Inside, Half, RecordIs, FromBigEndian;
  }

  lemma FirstPlace(bytes: seq<byte>, tables: seq<Table>)
    requires Headed(bytes) && |tables| == Half(bytes, 12)
    ensures Place(bytes, 0) == Offset(tables, 0)
  {
    hide Half, Headed;
    assert End(tables, 0) == 4 * (3 + 4 * |tables|);
    AlignedAlready(3 + 4 * |tables|);
    hide Align4;
  }

  lemma AlignedAlready(k: nat)
    ensures Align4(4 * k) == 4 * k
  {
    Aligned(4 * k);
  }

  lemma NextPlace(bytes: seq<byte>, tables: seq<Table>, i: nat)
    requires Headed(bytes) && |tables| == Half(bytes, 12) && 0 < i < |tables|
    requires End(tables, i) == Place(bytes, i - 1) + Length(bytes, i - 1)
    ensures Place(bytes, i) == Offset(tables, i)
  {
    hide Half, Headed, Align4, Length, End;
    Aligned(End(tables, i));
  }

  lemma NextEnd(tables: seq<Table>, i: nat)
    requires i < |tables|
    ensures End(tables, i + 1) == Offset(tables, i) + tables[i].originalLength
  {
    hide Align4;
  }

  lemma {:induction false} PlaceIsOffset(bytes: seq<byte>, d: Directory, i: nat)
    requires Read(bytes, d) && i < |d.tables|
    ensures Place(bytes, i) == Offset(d.tables, i)
    ensures End(d.tables, i + 1) == Place(bytes, i) + Length(bytes, i)
  {
    hide *;
    Counted(bytes, d);
    RecordHead(bytes, d, i);
    NextEnd(d.tables, i);
    if i == 0 {
      FirstPlace(bytes, d.tables);
    } else {
      PlaceIsOffset(bytes, d, i - 1);
      NextPlace(bytes, d.tables, i);
    }
  }

  lemma DecodeIsUnpacked(bytes: seq<byte>, d: Directory, inflate: Inflate, i: nat)
    requires Read(bytes, d) && i < |d.tables|
    ensures Decode(bytes, d.tables[i], inflate).Ok? <==> Unpacks(bytes, inflate, i)
    ensures Unpacks(bytes, inflate, i) ==>
      Decode(bytes, d.tables[i], inflate) == Ok(Unpacked(bytes, inflate, i).value)
  {
    assert RecordIs(bytes, d.tables[i], i);
    hide FromBigEndian;
  }

  /** The tables can all be placed and unpacked. */
  ghost predicate Fits(bytes: seq<byte>, inflate: Inflate, n: nat)
    requires Headed(bytes) && n <= Half(bytes, 12) && forall i :: 0 <= i < Half(bytes, 12) ==> Inside(bytes, i)
  {
    forall i :: 0 <= i < n ==> Place(bytes, i) + Length(bytes, i) <= Field(bytes, 16) && Unpacks(bytes, inflate, i)
  }

  lemma {:induction false} DecodedExactly(bytes: seq<byte>, d: Directory, inflate: Inflate, n: nat)
    requires Read(bytes, d) && n <= |d.tables|
    ensures Decoded(bytes, d, inflate, n).Ok? <==> Fits(bytes, inflate, n)
    ensures Decoded(bytes, d, inflate, n).Ok? ==>
      forall i :: 0 <= i < n ==> Decoded(bytes, d, inflate, n).value[i] == Unpacked(bytes, inflate, i).value
  {
    hide Place, Length, Unpacked, Unpacks, Inside, RecordIs, Decode, Read, Half, Headed, End;
    Counted(bytes, d);
    AllInside(bytes, d);
    if n > 0 {
      DecodedExactly(bytes, d, inflate, n - 1);
      PlaceIsOffset(bytes, d, n - 1);
      DecodeIsUnpacked(bytes, d, inflate, n - 1);
    }
  }

  /** The last usable `head` table among the first ones, by tags and lengths. */
  lemma {:induction false} HeadTableExact(tables: seq<Table>, n: nat)
    requires n <= |tables|
    ensures var h := HeadTable(tables, n);
      && (h.None? ==> forall i :: 0 <= i < n ==> !(tables[i].tag == HEAD && tables[i].originalLength >= 12))
      && (h.Some? ==> forall j :: h.value < j < n ==> !(tables[j].tag == HEAD && tables[j].originalLength >= 12))
  {
    if n > 0 {
      HeadTableExact(tables, n - 1);
    }
  }

  lemma HeadIs(bytes: seq<byte>, d: Directory, n: nat)
    requires Read(bytes, d) && n <= |d.tables|
    ensures HeadTable(d.tables, n).None? ==> forall i :: 0 <= i < n ==> !HasField(bytes, i)
    ensures HeadTable(d.tables, n).Some? ==>
      var h := HeadTable(d.tables, n).value;
      HasField(bytes, h) && forall j :: h < j < n ==> !HasField(bytes, j)
  {
    hide *;
    Counted(bytes, d);
    HeadTableExact(d.tables, n);
    forall i | 0 <= i < n
      ensures d.tables[i].tag == HEAD && d.tables[i].originalLength >= 12 <==> HasField(bytes, i)
    {
      RecordHead(bytes, d, i);
    }
  }

  // ---------- The file ----------

  /** The record of a table in the file: its tag, its checksum, its place and its length. */
  ghost predicate RecordReads(bytes: seq<byte>, s: seq<byte>, i: nat)
    requires Headed(bytes) && i < Half(bytes, 12)
  {
    var at := 12 + 16 * i;
    && at + 16 <= |s|
    && s[at..at + 4] == Tag(bytes, i)
    && Field(s, at + 4) == Number(bytes, i, 3)
    && Field(s, at + 8) == Place(bytes, i)
    && Field(s, at + 12) == Length(bytes, i)
  }

  /** The table itself, where its record says. */
  ghost predicate TableReads(bytes: seq<byte>, inflate: Inflate, s: seq<byte>, i: nat)
    requires Headed(bytes) && i < Half(bytes, 12)
  {
    && Inside(bytes, i) && Unpacks(bytes, inflate, i)
    && Place(bytes, i) + Length(bytes, i) <= |s|
    && forall k :: 0 <= k < Length(bytes, i) && !(Adjusted(bytes, i) && 8 <= k < 12) ==>
      s[Place(bytes, i) + k] == Unpacked(bytes, inflate, i).value[k]
  }

  lemma RecordFields(tag: seq<byte>, a: U32, b: U32, c: U32)
    requires |tag| == 4
    ensures var r := tag + BigEndian(a, 4) + BigEndian(b, 4) + BigEndian(c, 4);
      && |r| == 16 && r[0..4] == tag
      && FromBigEndian(r[4..8]) == a && FromBigEndian(r[8..12]) == b && FromBigEndian(r[12..16]) == c
  {
    RadixValues();
    BigEndianRoundTrip(a, 4);
    BigEndianRoundTrip(b, 4);
    BigEndianRoundTrip(c, 4);
    hide FromBigEndian, BigEndian, Radix;
    RecordParts(tag, BigEndian(a, 4), BigEndian(b, 4), BigEndian(c, 4));
  }

  lemma RecordParts(tag: seq<byte>, a: seq<byte>, b: seq<byte>, c: seq<byte>)
    requires |tag| == |a| == |b| == |c| == 4
    ensures var r := tag + a + b + c; r[0..4] == tag && r[4..8] == a && r[8..12] == b && r[12..16] == c
  {
  }

  lemma RecordSlices(s: seq<byte>, at: nat, r: seq<byte>)
    requires |r| == 16 && at + 16 <= |s| && s[at..at + 16] == r
    ensures s[at..at + 4] == r[0..4] && s[at + 4..at + 8] == r[4..8]
    ensures s[at + 8..at + 12] == r[8..12] && s[at + 12..at + 16] == r[12..16]
  {
    SliceOfSlice(s, at, at + 16, 0, 4);
    SliceOfSlice(s, at, at + 16, 4, 8);
    SliceOfSlice(s, at, at + 16, 8, 12);
    SliceOfSlice(s, at, at + 16, 12, 16);
  }

  lemma RecordChecked(bytes: seq<byte>, d: Directory, i: nat)
    requires Read(bytes, d) && i < |d.tables|
    ensures d.tables[i].tag == Tag(bytes, i) && d.tables[i].checksum == Number(bytes, i, 3)
  {
    assert RecordIs(bytes, d.tables[i], i);
    hide Tag, Number, Half, Read;
  }

  /** The slice at a record, field by field. */
  lemma SliceReads(bytes: seq<byte>, s: seq<byte>, i: nat, tag: seq<byte>, sum: U32, place: U32, length: U32)
    requires Headed(bytes) && i < Half(bytes, 12) && |tag| == 4 && 28 + 16 * i <= |s|
    requires s[12 + 16 * i..28 + 16 * i] == tag + BigEndian(sum, 4) + BigEndian(place, 4) + BigEndian(length, 4)
    requires tag == Tag(bytes, i) && sum == Number(bytes, i, 3) && place == Place(bytes, i)
      && length == Length(bytes, i)
    ensures RecordReads(bytes, s, i)
  {
    hide Headed, Half, Tag, Number, Place, Length, FromBigEndian, BigEndian;
    RecordFields(tag, sum, place, length);
    RecordSlices(s, 12 + 16 * i, tag + BigEndian(sum, 4) + BigEndian(place, 4) + BigEndian(length, 4));
  }

  lemma RecordRead(bytes: seq<byte>, d: Directory, s: seq<byte>, i: nat)
    requires Read(bytes, d) && i < |d.tables| && Tagged(d.tables) && RecordHolds(s, d.tables, i)
    requires Offset(d.tables, i) < U32_BOUND
    ensures RecordReads(bytes, s, i)
  {
    assert 28 + 16 * i <= |s| && s[12 + 16 * i..28 + 16 * i] == Record(d.tables, i);
    var t := d.tables[i];
    hide *;
    Counted(bytes, d);
    PlaceIsOffset(bytes, d, i);
    RecordHead(bytes, d, i);
    RecordChecked(bytes, d, i);
    RecordSpelled(d.tables, i);
    SliceReads(bytes, s, i, t.tag, t.checksum, Offset(d.tables, i), t.originalLength);
  }

  lemma RecordSpelled(tables: seq<Table>, i: nat)
    requires i < |tables| && Tagged(tables)
    ensures var t := tables[i];
      && |t.tag| == 4
      && Record(tables, i) ==
        t.tag + BigEndian(t.checksum, 4) + BigEndian(Offset(tables, i), 4) + BigEndian(t.originalLength, 4)
  {
    hide BigEndian, Offset;
  }

  lemma AdjustedIsHead(bytes: seq<byte>, d: Directory, i: nat)
    requires Read(bytes, d) && i < |d.tables|
    ensures Adjusted(bytes, i) <==> HeadTable(d.tables, |d.tables|) == Some(i)
  {
    hide HasField, Read, Half, Headed, HeadTable;
    Counted(bytes, d);
    HeadIs(bytes, d, |d.tables|);
  }

  lemma TableRead(bytes: seq<byte>, d: Directory, inflate: Inflate, s: seq<byte>, data: seq<seq<byte>>, i: nat)
    requires Read(bytes, d) && i < |d.tables| == |data| && Fits(bytes, inflate, |d.tables|)
    requires data[i] == Unpacked(bytes, inflate, i).value
    requires TableHolds(s, d.tables, data, i, HeadTable(d.tables, |d.tables|))
    ensures TableReads(bytes, inflate, s, i)
  {
    hide *;
    var head := HeadTable(d.tables, |d.tables|);
    HoldsAt(s, d.tables, data, i, head);
    FittingTable(bytes, d, inflate, i);
    PlaceIsOffset(bytes, d, i);
    AdjustedIsHead(bytes, d, i);
    TableMeans(bytes, inflate, s, i, Offset(d.tables, i), data[i], head == Some(i));
  }

  lemma HoldsAt(s: seq<byte>, tables: seq<Table>, data: seq<seq<byte>>, i: nat, patched: Option<nat>)
    requires i < |tables| == |data| && TableHolds(s, tables, data, i, patched)
    ensures Offset(tables, i) + |data[i]| <= |s|
    ensures forall k :: 0 <= k < |data[i]| && !(patched == Some(i) && 8 <= k < 12) ==>
      s[Offset(tables, i) + k] == data[i][k]
  {
    hide Offset;
  }

  lemma TableMeans(bytes: seq<byte>, inflate: Inflate, s: seq<byte>, i: nat, at: nat, part: seq<byte>, adjusted: bool)
    requires Headed(bytes) && i < Half(bytes, 12) && Inside(bytes, i) && Unpacks(bytes, inflate, i)
    requires at == Place(bytes, i) && part == Unpacked(bytes, inflate, i).value && (adjusted <==> Adjusted(bytes, i))
    requires at + |part| <= |s|
    requires forall k :: 0 <= k < |part| && !(adjusted && 8 <= k < 12) ==> s[at + k] == part[k]
    ensures TableReads(bytes, inflate, s, i)
  {
    hide Headed, Half, Inside, Place, Unpacked, Adjusted, Length;
  }

  lemma FittingTable(bytes: seq<byte>, d: Directory, inflate: Inflate, i: nat)
    requires Read(bytes, d) && i < |d.tables| && Fits(bytes, inflate, |d.tables|)
    ensures Headed(bytes) && |d.tables| == Half(bytes, 12) && Inside(bytes, i) && Unpacks(bytes, inflate, i)
  {
    hide Half, Headed, Inside, Unpacks, RecordIs;
  }

  /**
    * A rebuild succeeds exactly on a container whose tables lie within it, can be placed in the size
    * it declares, and unpack.
    */
  lemma RebuildsExactly(bytes: seq<byte>, inflate: Inflate)
    ensures Rebuild(bytes, inflate).Ok? <==>
      && Headed(bytes) && 12 + 16 * Half(bytes, 12) <= Field(bytes, 16)
      && (forall i :: 0 <= i < Half(bytes, 12) ==> Inside(bytes, i))
      && Fits(bytes, inflate, Half(bytes, 12))
  {
    DirectoryOf(bytes);
    if ReadDirectory(bytes).Ok? {
      DecodedExactly(bytes, ReadDirectory(bytes).value, inflate, Half(bytes, 12));
    }
    hide ReadDirectory, Decoded, Half, Field, Inside, Fits, Partial, Adjust, HeadTable;
  }

  /**
    * What a font parser finds in a rebuilt file: the flavor, the table count and its search fields, in
    * every record the tag, checksum, place and length of its table, and there the table itself; zeros
    * between the tables; and if a `head` table has the adjustment field, a file whose words sum to
    * 0xB1B0AFBA.
    */
  lemma FileReadsBack(bytes: seq<byte>, inflate: Inflate)
    requires Rebuild(bytes, inflate).Ok?
    ensures Headed(bytes)
    ensures var s, n := Rebuild(bytes, inflate).value, Half(bytes, 12);
      && |s| == Field(bytes, 16) && 12 + 16 * n <= |s|
      && s[..4] == bytes[4..8] && Half(s, 4) == n
      && Half(s, 6) == 16 * Power2(Half(s, 8)) && Half(s, 6) <= 16 * n < 2 * Half(s, 6)
        && Half(s, 10) == 16 * n - Half(s, 6)
      && (forall i :: 0 <= i < n ==> RecordReads(bytes, s, i) && TableReads(bytes, inflate, s, i))
      && (forall q :: 12 + 16 * n <= q < |s| && Between(bytes, q) ==> s[q] == 0)
      && ((exists i :: 0 <= i < n && HasField(bytes, i)) ==> WordSum(s) == 0xB1B0_AFBA)
  {
    var d, s := ReadDirectory(bytes).value, Rebuild(bytes, inflate).value;
    var data := RebuiltFrom(bytes, inflate);
    Counted(bytes, d);
    hide *;
    HeaderReads(bytes, d, s);
    forall i | 0 <= i < |d.tables| ensures RecordReads(bytes, s, i) && TableReads(bytes, inflate, s, i) {
      TableAt(bytes, d, inflate, s, data, i);
    }
    ZerosBetween(bytes, d, s, data);
    HeadIs(bytes, d, |d.tables|);
  }

  /** What is known of a rebuilt file from how it was made. */
  lemma RebuiltFrom(bytes: seq<byte>, inflate: Inflate) returns (data: seq<seq<byte>>)
    requires Rebuild(bytes, inflate).Ok?
    ensures ReadDirectory(bytes).Ok?
    ensures var d, s := ReadDirectory(bytes).value, Rebuild(bytes, inflate).value;
      var n := |d.tables|;
      && Read(bytes, d) && Tagged(d.tables) && 0 < n <= MAX_FONT_TABLES && |d.flavor| == 4 && |data| == n
      && Fits(bytes, inflate, n) && (forall i :: 0 <= i < n ==> data[i] == Unpacked(bytes, inflate, i).value)
      && WellLaidOut(s, d, data, HeadTable(d.tables, n)) && |s| == Field(bytes, 16) <= MAX_FONT_BYTES
      && 12 + 16 * n <= |s| && s[..12] == Header(d)
      && (HeadTable(d.tables, n).Some? ==> WordSum(s) == CHECKSUM_MAGIC)
  {
    DirectoryOf(bytes);
    RebuiltFile(bytes, inflate);
    var d, s := ReadDirectory(bytes).value, Rebuild(bytes, inflate).value;
    assert Read(bytes, d);
    data := Decoded(bytes, d, inflate, |d.tables|).value;
    DecodedExactly(bytes, d, inflate, |d.tables|);
    hide Rebuild, Decoded, Partial, Adjust, HeadTable, RecordHolds, TableHolds, PaddingZero, Header, Fits, Unpacked;
  }

  lemma ZerosBetween(bytes: seq<byte>, d: Directory, s: seq<byte>, data: seq<seq<byte>>)
    requires Read(bytes, d) && d.tables != [] && |d.flavor| == 4 && Tagged(d.tables) && |data| == |d.tables|
    requires WellLaidOut(s, d, data, HeadTable(d.tables, |d.tables|))
    ensures Headed(bytes)
    ensures forall q :: 12 + 16 * |d.tables| <= q < |s| && Between(bytes, q) ==> s[q] == 0
  {
    Counted(bytes, d);
    assert PaddingZero(s, d.tables);
    hide WellLaidOut, Read, Between, Uncovered, Headed, Half;
    forall q | 12 + 16 * |d.tables| <= q < |s| && Between(bytes, q) ensures s[q] == 0 {
      BetweenIsUncovered(bytes, d, q);
    }
  }

  /** No table covers this position. */
  ghost predicate Between(bytes: seq<byte>, q: nat)
    requires Headed(bytes)
  {
    forall i :: 0 <= i < Half(bytes, 12) ==> !(Place(bytes, i) <= q < Place(bytes, i) + Length(bytes, i))
  }

  lemma BetweenIsUncovered(bytes: seq<byte>, d: Directory, q: nat)
    requires Read(bytes, d) && Between(bytes, q)
    ensures Uncovered(d.tables, |d.tables|, q)
  {
    forall i | 0 <= i < |d.tables| ensures !Within(d.tables, i, q) {
      PlaceIsOffset(bytes, d, i);
      assert RecordIs(bytes, d.tables[i], i);
    }
  }

  lemma TableAt(bytes: seq<byte>, d: Directory, inflate: Inflate, s: seq<byte>, data: seq<seq<byte>>, i: nat)
    requires Read(bytes, d) && Tagged(d.tables) && i < |d.tables| == |data| && d.tables != [] && |d.flavor| == 4
    requires Fits(bytes, inflate, |d.tables|) && data[i] == Unpacked(bytes, inflate, i).value
    requires WellLaidOut(s, d, data, HeadTable(d.tables, |d.tables|)) && |s| <= MAX_FONT_BYTES
    ensures RecordReads(bytes, s, i) && TableReads(bytes, inflate, s, i)
  {
    assert RecordHolds(s, d.tables, i) && TableHolds(s, d.tables, data, i, HeadTable(d.tables, |d.tables|));
    assert Offset(d.tables, i) <= |s|;
    hide WellLaidOut, RecordHolds, Read, RecordReads, TableReads, Fits;
    assert Read(bytes, d);
    RecordRead(bytes, d, s, i);
    TableRead(bytes, d, inflate, s, data, i);
  }

  lemma HeaderReads(bytes: seq<byte>, d: Directory, s: seq<byte>)
    requires Read(bytes, d) && 0 < |d.tables| <= MAX_FONT_TABLES && |d.flavor| == 4 && |s| >= 12 && s[..12] == Header(d)
    ensures var n := |d.tables|;
      && s[..4] == bytes[4..8] && Half(s, 4) == n
      && Half(s, 6) == 16 * Power2(Half(s, 8)) && Half(s, 6) <= 16 * n < 2 * Half(s, 6)
        && Half(s, 10) == 16 * n - Half(s, 6)
  {
    hide *;
    AllInside(bytes, d);
    HeaderCut(s, Header(d));
    SearchFields(d);
    FlavorFirst(d);
    HalvesOf(s);
    HalvesOf(Header(d));
  }

  lemma HeaderCut(s: seq<byte>, h: seq<byte>)
    requires |h| == 12 <= |s| && s[..12] == h
    ensures s[..4] == h[0..4] && s[4..6] == h[4..6] && s[6..8] == h[6..8] && s[8..10] == h[8..10]
      && s[10..12] == h[10..12]
  {
  }

  lemma HalvesOf(s: seq<byte>)
    requires |s| >= 12
    ensures Half(s, 4) == FromBigEndian(s[4..6]) && Half(s, 6) == FromBigEndian(s[6..8])
    ensures Half(s, 8) == FromBigEndian(s[8..10]) && Half(s, 10) == FromBigEndian(s[10..12])
  {
    hide FromBigEndian;
  }

  lemma FlavorFirst(d: Directory)
    requires d.tables != [] && |d.flavor| == 4
    ensures Header(d)[0..4] == d.flavor
  {
    hide BigEndian, Log2, Power2;
  }

  // ---------- Sums of words ----------

  /** The sum is that of the big-endian words, the last one padded with zeros, modulo 2^32. */
  lemma WordSumExact(w: seq<byte>, rest: seq<byte>)
    requires |w| <= 4 && (|w| < 4 ==> rest == [])
    ensures w == [] ==> WordSum(w + rest) == 0
    ensures |w| == 4 ==> WordSum(w + rest) == (FromBigEndian(w) + WordSum(rest)) % 0x1_0000_0000
    ensures 0 < |w| < 4 ==> WordSum(w) == FromBigEndian(w + Zeros(4 - |w|))
  {
    var s := w + rest;
    if |w| == 4 {
      WordSumFirst(s);
      assert s[..4] == w && s[4..] == rest;
    } else {
      assert s == w;
      assert w != [] ==> w[..|w|] == w && w[|w|..] == [];
      RadixValues();
      hide FromBigEndian;
    }
  }
}
