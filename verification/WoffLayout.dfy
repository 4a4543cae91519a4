/** What a rebuilt SFNT file looks like. */
module WoffLayout {
  import opened Bytes
  import opened Outcome
  import opened Woff

  lemma {:induction false} BodyPrefix(tables: seq<Table>, data: seq<seq<byte>>, more: seq<byte>, n: nat)
    requires n <= |data| < |tables| && Sized(tables, data) && |more| == tables[|data|].originalLength
    ensures Sized(tables, data + [more]) && Body(tables, data + [more], n) == Body(tables, data, n)
  {
    if n > 0 {
      BodyPrefix(tables, data, more, n - 1);
    }
  }

  lemma TailSlice<T>(a: seq<T>, b: seq<T>, c: seq<T>)
    ensures (a + b + c)[|a| + |b|..|a| + |b| + |c|] == c
  {
  }

  /** Each table sits in the body at its offset. */
  lemma {:induction false} BodyTable(tables: seq<Table>, data: seq<seq<byte>>, n: nat, i: nat)
    requires i < n <= |data| && Sized(tables, data)
    ensures DirectoryEnd(tables) <= Offset(tables, i) && Offset(tables, i) + |data[i]| <= End(tables, n)
    ensures var at := Offset(tables, i) - DirectoryEnd(tables);
      Body(tables, data, n)[at..at + |data[i]|] == data[i]
    decreases n
  {
    OffsetFits(tables, n, i);
    OffsetFits(tables, n, n - 1);
    var before, gap := Body(tables, data, n - 1), Zeros(Offset(tables, n - 1) - End(tables, n - 1));
    assert Body(tables, data, n) == before + gap + data[n - 1];
    assert before + gap + data[n - 1] == before + (gap + data[n - 1]);
    hide Body, Zeros, Offset, End, DirectoryEnd;
    if i < n - 1 {
      BodyTable(tables, data, n - 1, i);
      var at := Offset(tables, i) - DirectoryEnd(tables);
      SliceLeft(before, gap + data[n - 1], at, at + |data[i]|);
    } else {
      TailSlice(before, gap, data[i]);
    }
  }

  lemma SliceLeft<T>(a: seq<T>, b: seq<T>, lo: nat, hi: nat)
    requires lo <= hi <= |a|
    ensures (a + b)[lo..hi] == a[lo..hi]
  {
  }

  predicate Within(tables: seq<Table>, i: nat, position: nat)
    requires i < |tables|
  {
    Offset(tables, i) <= position < Offset(tables, i) + tables[i].originalLength
  }

  /** No table among the first `n` covers this position. */
  ghost predicate Uncovered(tables: seq<Table>, n: nat, position: nat)
    requires n <= |tables|
  {
    forall i :: 0 <= i < n ==> !Within(tables, i, position)
  }

  /** Between the tables the body is zero. */
  lemma {:induction false} BodyPadding(tables: seq<Table>, data: seq<seq<byte>>, n: nat, position: nat)
    requires n <= |data| && Sized(tables, data)
    requires DirectoryEnd(tables) <= position < End(tables, n) && Uncovered(tables, n, position)
    ensures Body(tables, data, n)[position - DirectoryEnd(tables)] == 0
  {
    if n > 0 {
      var p := position - DirectoryEnd(tables);
      var before, gap := Body(tables, data, n - 1), Zeros(Offset(tables, n - 1) - End(tables, n - 1));
      assert Body(tables, data, n) == before + gap + data[n - 1];
      if p < |before| {
        BodyPadding(tables, data, n - 1, position);
      } else {
        assert !Within(tables, n - 1, position);
      }
    }
  }

  lemma {:induction false} RecordSlice(tables: seq<Table>, n: nat, i: nat)
    requires i < n <= |tables| && Tagged(tables)
    ensures RecordBytes(tables, n)[i * 16..i * 16 + 16] == Record(tables, i)
    decreases n
  {
    if i < n - 1 {
      RecordSlice(tables, n - 1, i);
      SliceLeft(RecordBytes(tables, n - 1), Record(tables, n - 1), i * 16, i * 16 + 16);
    }
  }

  lemma {:induction false} EndGrows(tables: seq<Table>, i: nat, j: nat)
    requires i <= j <= |tables|
    ensures End(tables, i) <= End(tables, j)
    decreases j
  {
    if i < j {
      EndGrows(tables, i, j - 1);
    }
  }

  /** Tables start at multiples of four behind the directory, in order and without overlap. */
  lemma Disjoint(tables: seq<Table>, i: nat, j: nat)
    requires i < j < |tables|
    ensures Offset(tables, i) % 4 == 0 && DirectoryEnd(tables) <= Offset(tables, i)
    ensures Offset(tables, i) + tables[i].originalLength <= Offset(tables, j)
  {
    EndGrows(tables, i + 1, j);
  }

  /** A file before its checksum is adjusted, taken apart. */
  lemma PartialParts(d: Directory, data: seq<seq<byte>>, n: nat)
    requires d.tables != [] && |d.flavor| == 4 && Tagged(d.tables)
    requires n == |data| == |d.tables| && Sized(d.tables, data) && End(d.tables, n) <= d.size
    ensures var s, e := Partial(d, data, n), DirectoryEnd(d.tables);
      && s[..12] == Header(d)
      && s[12..e] == RecordBytes(d.tables, n)
      && s[e..End(d.tables, n)] == Body(d.tables, data, n)
      && s[End(d.tables, n)..] == Zeros(d.size - End(d.tables, n))
  {
    var h, r, b, z := Header(d), RecordBytes(d.tables, n), Body(d.tables, data, n), Zeros(d.size - End(d.tables, n));
    assert Zeros(0) == [];
    assert Front(d, n) == h + r;
    assert (h + r) + (b + z) == h + r + b + z;
    Four(h, r, b, z);
  }

  lemma Four(h: seq<byte>, r: seq<byte>, b: seq<byte>, z: seq<byte>)
    ensures var s := h + r + b + z;
      && s[..|h|] == h
      && s[|h|..|h| + |r|] == r
      && s[|h| + |r|..|h| + |r| + |b|] == b
      && s[|h| + |r| + |b|..] == z
  {
  }

  lemma SliceOfSlice(s: seq<byte>, lo: nat, hi: nat, a: nat, b: nat)
    requires lo <= hi <= |s| && a <= b <= hi - lo
    ensures s[lo..hi][a..b] == s[lo + a..lo + b]
  {
    forall k | 0 <= k < b - a ensures s[lo..hi][a..b][k] == s[lo + a..lo + b][k] {
      assert s[lo..hi][a..b][k] == s[lo..hi][a + k] == s[lo + (a + k)];
      assert s[lo + a..lo + b][k] == s[(lo + a) + k];
    }
  }

  /** Everything a reader of the file relies on, apart from the checksum. */
  ghost predicate WellLaidOut(s: seq<byte>, d: Directory, data: seq<seq<byte>>, patched: Option<nat>)
    requires d.tables != [] && |d.flavor| == 4 && Tagged(d.tables) && |data| == |d.tables|
  {
    && |s| == d.size && DirectoryEnd(d.tables) <= d.size
    && s[..12] == Header(d)
    && (forall i :: 0 <= i < |d.tables| ==> RecordHolds(s, d.tables, i) && TableHolds(s, d.tables, data, i, patched))
    && PaddingZero(s, d.tables)
  }

  ghost predicate PaddingZero(s: seq<byte>, tables: seq<Table>) {
    forall p :: DirectoryEnd(tables) <= p < |s| && Uncovered(tables, |tables|, p) ==> s[p] == 0
  }

  ghost predicate RecordHolds(s: seq<byte>, tables: seq<Table>, i: nat)
    requires i < |tables| && Tagged(tables)
  {
    12 + i * 16 + 16 <= |s| && s[12 + i * 16..12 + i * 16 + 16] == Record(tables, i)
  }

  /** Table `i` holds its data; in the adjusted one, four bytes from the ninth on may differ. */
  ghost predicate TableHolds(s: seq<byte>, tables: seq<Table>, data: seq<seq<byte>>, i: nat, patched: Option<nat>)
    requires i < |tables| == |data|
  {
    && |data[i]| == tables[i].originalLength
    && Offset(tables, i) + |data[i]| <= |s|
    && forall k :: 0 <= k < |data[i]| && !(patched == Some(i) && 8 <= k < 12) ==> s[Offset(tables, i) + k] == data[i][k]
  }

  ghost predicate Complete(d: Directory, data: seq<seq<byte>>) {
    && d.tables != [] && |d.flavor| == 4 && Tagged(d.tables)
    && |data| == |d.tables| && Sized(d.tables, data) && End(d.tables, |data|) <= d.size
  }

  lemma PartialRecord(d: Directory, data: seq<seq<byte>>, i: nat)
    requires Complete(d, data) && i < |data|
    ensures RecordHolds(Partial(d, data, |data|), d.tables, i)
  {
    var s, e := Partial(d, data, |data|), DirectoryEnd(d.tables);
    PartialParts(d, data, |data|);
    RecordSlice(d.tables, |data|, i);
    SliceOfSlice(s, 12, e, i * 16, i * 16 + 16);
  }

  lemma Pointwise(s: seq<byte>, at: nat, part: seq<byte>)
    requires at + |part| <= |s| && s[at..at + |part|] == part
    ensures forall k :: 0 <= k < |part| ==> s[at + k] == part[k]
  {
    forall k | 0 <= k < |part| ensures s[at + k] == part[k] {
      assert s[at..at + |part|][k] == s[at + k];
    }
  }

  lemma PartSlice(s: seq<byte>, e: nat, end: nat, body: seq<byte>, at: nat, part: seq<byte>)
    requires e <= end <= |s| && s[e..end] == body
    requires e <= at && at - e + |part| <= |body| && body[at - e..at - e + |part|] == part
    ensures s[at..at + |part|] == part
  {
    SliceOfSlice(s, e, end, at - e, at - e + |part|);
  }

  lemma PartialTable(d: Directory, data: seq<seq<byte>>, i: nat)
    requires Complete(d, data) && i < |data|
    ensures TableHolds(Partial(d, data, |data|), d.tables, data, i, None)
  {
    var n := |data|;
    var body := Body(d.tables, data, n);
    PartialParts(d, data, n);
    BodyTable(d.tables, data, n, i);
    PartSlice(Partial(d, data, n), DirectoryEnd(d.tables), End(d.tables, n), body, Offset(d.tables, i), data[i]);
    Pointwise(Partial(d, data, n), Offset(d.tables, i), data[i]);
  }

  lemma PartialPadding(d: Directory, data: seq<seq<byte>>)
    requires Complete(d, data)
    ensures PaddingZero(Partial(d, data, |data|), d.tables)
  {
    var n, e := |data|, DirectoryEnd(d.tables);
    var s := Partial(d, data, n);
    PartialParts(d, data, n);
    forall p | e <= p < |s| && Uncovered(d.tables, n, p) ensures s[p] == 0 {
      if p < End(d.tables, n) {
        BodyPadding(d.tables, data, n, p);
        assert s[p] == s[e..End(d.tables, n)][p - e];
      } else {
        assert s[p] == s[End(d.tables, n)..][p - End(d.tables, n)];
      }
    }
  }

  lemma PartialWellLaidOut(d: Directory, data: seq<seq<byte>>)
    requires Complete(d, data)
    ensures WellLaidOut(Partial(d, data, |data|), d, data, None)
  {
    PartialParts(d, data, |data|);
    forall i | 0 <= i < |data|
      ensures RecordHolds(Partial(d, data, |data|), d.tables, i)
        && TableHolds(Partial(d, data, |data|), d.tables, data, i, None)
    {
      PartialRecord(d, data, i);
      PartialTable(d, data, i);
    }
    PartialPadding(d, data);
  }

  /** Adjusting changes four bytes. */
  lemma AdjustChanges(s: seq<byte>, head: nat, p: nat)
    requires head + 12 <= |s| && p < |s| && !(head + 8 <= p < head + 12)
    ensures Adjust(s, head)[p] == s[p]
  {
  }

  lemma AdjustSlice(s: seq<byte>, head: nat, lo: nat, hi: nat)
    requires lo <= hi <= head && head + 12 <= |s|
    ensures Adjust(s, head)[lo..hi] == s[lo..hi]
  {
    forall k | 0 <= k < hi - lo ensures Adjust(s, head)[lo..hi][k] == s[lo..hi][k] {
      AdjustChanges(s, head, lo + k);
    }
  }

  lemma AdjustTable(s: seq<byte>, tables: seq<Table>, data: seq<seq<byte>>, h: nat, i: nat)
    requires h < |tables| == |data| && i < |tables| && tables[h].originalLength >= 12
    requires TableHolds(s, tables, data, h, None) && TableHolds(s, tables, data, i, None)
    ensures TableHolds(Adjust(s, Offset(tables, h)), tables, data, i, Some(h))
  {
    var head := Offset(tables, h);
    if i < h { Disjoint(tables, i, h); }
    if h < i { Disjoint(tables, h, i); }
    forall k | 0 <= k < |data[i]| && !(i == h && 8 <= k < 12)
      ensures Adjust(s, head)[Offset(tables, i) + k] == data[i][k]
    {
      AdjustChanges(s, head, Offset(tables, i) + k);
    }
  }

  /** Adjusting touches only the checksum field of the head table. */
  lemma AdjustWellLaidOut(s: seq<byte>, d: Directory, data: seq<seq<byte>>, h: nat)
    requires d.tables != [] && |d.flavor| == 4 && Tagged(d.tables) && |data| == |d.tables|
    requires WellLaidOut(s, d, data, None) && h < |d.tables| && d.tables[h].originalLength >= 12
    ensures Offset(d.tables, h) + 12 <= |s|
    ensures WellLaidOut(Adjust(s, Offset(d.tables, h)), d, data, Some(h))
  {
    assert TableHolds(s, d.tables, data, h, None);
    var head, n := Offset(d.tables, h), |d.tables|;
    var r := Adjust(s, head);
    AdjustSlice(s, head, 0, 12);
    assert r[..12] == r[0..12] && s[..12] == s[0..12];
    forall i | 0 <= i < n ensures RecordHolds(r, d.tables, i) && TableHolds(r, d.tables, data, i, Some(h)) {
      assert RecordHolds(s, d.tables, i) && TableHolds(s, d.tables, data, i, None);
      AdjustSlice(s, head, 12 + i * 16, 12 + i * 16 + 16);
      AdjustTable(s, d.tables, data, h, i);
    }
    forall p | DirectoryEnd(d.tables) <= p < |r| && Uncovered(d.tables, n, p) ensures r[p] == 0 {
      assert !Within(d.tables, h, p);
      AdjustChanges(s, head, p);
    }
  }

  /** Each table was decoded from its own stretch of the container. */
  lemma {:induction false} DecodedTables(bytes: seq<byte>, d: Directory, inflate: Inflate, n: nat, i: nat)
    requires i < n <= |d.tables| && Bounded(d.tables, |bytes|) && Decoded(bytes, d, inflate, n).Ok?
    ensures Decode(bytes, d.tables[i], inflate) == Ok(Decoded(bytes, d, inflate, n).value[i])
    decreases n
  {
    if i < n - 1 {
      DecodedTables(bytes, d, inflate, n - 1, i);
    }
  }

  /**
    * A successful rebuild yields a well laid out file, and if it has a usable `head` table then
    * the words of the whole file sum to the constant the format prescribes.
    */
  lemma RebuiltFile(bytes: seq<byte>, inflate: Inflate)
    requires Rebuild(bytes, inflate).Ok?
    ensures ReadDirectory(bytes).Ok?
    ensures var d, s := ReadDirectory(bytes).value, Rebuild(bytes, inflate).value;
      var n := |d.tables|;
      && Decoded(bytes, d, inflate, n).Ok?
      && WellLaidOut(s, d, Decoded(bytes, d, inflate, n).value, HeadTable(d.tables, n))
      && (HeadTable(d.tables, n).Some? ==> WordSum(s) == CHECKSUM_MAGIC)
  {
    var d := ReadDirectory(bytes).value;
    var n := |d.tables|;
    var data := Decoded(bytes, d, inflate, n).value;
    PartialWellLaidOut(d, data);
    if HeadTable(d.tables, n).Some? {
      var h := HeadTable(d.tables, n).value;
      AdjustWellLaidOut(Partial(d, data, n), d, data, h);
      AdjustedSum(Partial(d, data, n), Offset(d.tables, h));
    }
  }

  lemma HeaderSlices(flavor: seq<byte>, a: seq<byte>, b: seq<byte>, c: seq<byte>, e: seq<byte>)
    requires |flavor| == 4 && |a| == |b| == |c| == |e| == 2
    ensures var h := flavor + a + b + c + e;
      h[4..6] == a && h[6..8] == b && h[8..10] == c && h[10..12] == e
  {
  }

  lemma SearchRange(count: nat)
    requires 0 < count <= MAX_FONT_TABLES
    ensures var power := Log2(count);
      Power2(power) * 16 <= count * 16 < 2 * (Power2(power) * 16) && power < U16_BOUND && Power2(power) * 16 < U16_BOUND
  {
    PowerGrows(Log2(count));
    hide Log2, Power2;
  }

  /** The search fields of the header: the largest power of two within the table count, in bytes. */
  lemma SearchFields(d: Directory)
    requires 0 < |d.tables| <= MAX_FONT_TABLES && |d.flavor| == 4
    ensures var range := FromBigEndian(Header(d)[6..8]);
      && FromBigEndian(Header(d)[4..6]) == |d.tables|
      && range == 16 * Power2(FromBigEndian(Header(d)[8..10]))
      && range <= |d.tables| * 16 < 2 * range
      && FromBigEndian(Header(d)[10..12]) == |d.tables| * 16 - range
  {
    RadixValues();
    hide BigEndian, FromBigEndian, Radix, Log2, Power2;
    var count, power := |d.tables|, Log2(|d.tables|);
    SearchRange(count);
    var range := Power2(power) * 16;
    HeaderSlices(d.flavor, BigEndian(count, 2), BigEndian(range, 2), BigEndian(power, 2),
      BigEndian(count * 16 - range, 2));
    BigEndianRoundTrip(count, 2);
    BigEndianRoundTrip(range, 2);
    BigEndianRoundTrip(power, 2);
    BigEndianRoundTrip(count * 16 - range, 2);
  }

  lemma {:induction false} PowerGrows(p: nat)
    ensures p < Power2(p)
  {
    if p > 0 { PowerGrows(p - 1); }
  }
}
