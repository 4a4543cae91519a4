/** The decoder itself: it reads the records, then fills a zeroed output buffer in place. */
module WoffDecoder {
  import opened Bytes
  import opened Outcome
  import opened Woff
  import L = WoffLayout

  /** Overwrites part of the buffer. */
  method CopyInto(output: array<byte>, offset: nat, data: seq<byte>)
    requires offset + |data| <= output.Length
    modifies output
    ensures output[..] == Patch(old(output[..]), offset, data)
  {
    for i := 0 to |data|
      invariant output[..] == Patch(old(output[..]), offset, data[..i])
    {
      output[offset + i] := data[i];
      assert data[..i + 1] == data[..i] + [data[i]];
    }
    assert data[..|data|] == data;
  }

  method ReadTables(bytes: seq<byte>, count: nat, declaredLength: nat) returns (r: Result<seq<Table>, Error>)
    requires 44 + count * 20 <= declaredLength <= |bytes|
    ensures r.Ok? <==> forall i :: 0 <= i < count ==> InBounds(Records(bytes, count)[i], declaredLength)
    ensures r.Ok? ==> r.value == Records(bytes, count)
    ensures r.Err? ==> r.error == InvalidTableBounds
  {
    var tables: seq<Table> := [];
    for index := 0 to count
      invariant tables == Records(bytes, index)
      invariant forall i :: 0 <= i < index ==> InBounds(tables[i], declaredLength)
    {
      var t := RecordAt(bytes, index);
      if t.sourceOffset + t.compressedLength > declaredLength || t.compressedLength > t.originalLength {
        assert Records(bytes, count)[index] == t;
        return Err(InvalidTableBounds);
      }
      tables := tables + [t];
    }
    return Ok(tables);
  }

  method Checksum(output: array<byte>) returns (sum: U32)
    ensures sum == WordSum(output[..])
  {
    sum := 0;
    var at := 0;
    while at < output.Length
      invariant at <= output.Length
      invariant Plus(sum, WordSum(output[at..])) == WordSum(output[..])
    {
      var chunk := FirstChunk(output[at..]);
      ghost var rest := output[at..];
      assert rest[..chunk] == output[at..at + chunk] && rest[chunk..] == output[at + chunk..];
      SumSwap(sum, Word(output[at..at + chunk]), WordSum(output[at + chunk..]));
      sum := Plus(sum, Word(output[at..at + chunk]));
      at := at + chunk;
    }
    assert output[output.Length..] == [];
    PlusZero(sum);
  }

  lemma PlusZero(sum: U32)
    ensures Plus(sum, 0) == sum && Plus(0, sum) == sum
  {
  }

  // ---------- Joining patches ----------

  lemma PatchNext(s: seq<byte>, at: nat, a: seq<byte>, b: seq<byte>)
    requires at + |a| + |b| <= |s|
    ensures Patch(Patch(s, at, a), at + |a|, b) == Patch(s, at, a + b)
  {
  }

  lemma PatchMiddle(a: seq<byte>, b: seq<byte>, c: seq<byte>, data: seq<byte>)
    requires |data| == |b|
    ensures Patch(a + b + c, |a|, data) == a + data + c
  {
  }

  lemma PatchLeft(a: seq<byte>, b: seq<byte>, at: nat, data: seq<byte>)
    requires at + |data| <= |a|
    ensures Patch(a + b, at, data) == Patch(a, at, data) + b
  {
  }

  lemma PatchRight(a: seq<byte>, b: seq<byte>, at: nat, data: seq<byte>)
    requires |a| <= at && at + |data| <= |a| + |b|
    ensures Patch(a + b, at, data) == a + Patch(b, at - |a|, data)
  {
  }

  lemma ZerosSplit(n: nat, m: nat)
    ensures Zeros(n + m) == Zeros(n) + Zeros(m)
  {
  }

  /** A header written over zeros starts the file. */
  lemma HeaderWritten(d: Directory)
    requires d.tables != [] && |d.flavor| == 4 && Tagged(d.tables) && DirectoryEnd(d.tables) <= d.size
    ensures Patch(Zeros(d.size), 0, Header(d)) == Partial(d, [], 0)
  {
    var records, rest := |d.tables| * 16, d.size - DirectoryEnd(d.tables);
    ZerosSplit(12 + records, rest);
    ZerosSplit(12, records);
    PatchLeft(Zeros(12 + records), Zeros(rest), 0, Header(d));
    assert Zeros(12 + records) == [] + Zeros(12) + Zeros(records);
    PatchMiddle([], Zeros(12), Zeros(records), Header(d));
    assert [] + Header(d) + Zeros(records) == Front(d, 0);
    assert Zeros(rest) == Back(d, [], 0);
  }

  ghost predicate Placeable(d: Directory, data: seq<seq<byte>>, more: seq<byte>) {
    && d.tables != [] && |d.flavor| == 4 && Tagged(d.tables)
    && |data| < |d.tables| && Sized(d.tables, data) && |more| == d.tables[|data|].originalLength
    && End(d.tables, |data| + 1) <= d.size
  }

  lemma BackWritten(d: Directory, data: seq<seq<byte>>, more: seq<byte>)
    requires Placeable(d, data, more)
    ensures Sized(d.tables, data + [more])
    ensures var at := Offset(d.tables, |data|) - DirectoryEnd(d.tables);
      at + |more| <= |Back(d, data, |data|)|
        && Patch(Back(d, data, |data|), at, more) == Back(d, data + [more], |data| + 1)
  {
    var n := |data|;
    var gap, rest := Offset(d.tables, n) - End(d.tables, n), d.size - End(d.tables, n + 1);
    var body := Body(d.tables, data, n);
    ZerosSplit(gap + |more|, rest);
    ZerosSplit(gap, |more|);
    assert Back(d, data, n) == (body + Zeros(gap)) + Zeros(|more|) + Zeros(rest);
    PatchMiddle(body + Zeros(gap), Zeros(|more|), Zeros(rest), more);
    L.BodyPrefix(d.tables, data, more, n);
  }

  lemma FrontWritten(d: Directory, n: nat)
    requires d.tables != [] && |d.flavor| == 4 && Tagged(d.tables) && n < |d.tables|
    ensures Patch(Front(d, n), 12 + n * 16, Record(d.tables, n)) == Front(d, n + 1)
  {
    hide Header, Record, Zeros;
    var left := (|d.tables| - n - 1) * 16;
    var before := Header(d) + RecordBytes(d.tables, n);
    ZerosSplit(16, left);
    assert Front(d, n) == before + Zeros(16) + Zeros(left) by {
      assert before + (Zeros(16) + Zeros(left)) == before + Zeros(16) + Zeros(left);
    }
    PatchMiddle(before, Zeros(16), Zeros(left), Record(d.tables, n));
    assert before + Record(d.tables, n) == Header(d) + RecordBytes(d.tables, n + 1);
  }

  lemma PatchBoth(a: seq<byte>, b: seq<byte>, at: nat, x: seq<byte>, place: nat, record: seq<byte>)
    requires |a| <= at && at + |x| <= |a| + |b| && place + |record| <= |a|
    ensures Patch(Patch(a + b, at, x), place, record) == Patch(a, place, record) + Patch(b, at - |a|, x)
  {
    PatchRight(a, b, at, x);
    PatchLeft(a, Patch(b, at - |a|, x), place, record);
    hide Patch;
  }

  lemma PlaceBounds(d: Directory, data: seq<seq<byte>>, more: seq<byte>)
    requires Placeable(d, data, more)
    ensures d.tables != [] && |d.flavor| == 4 && Tagged(d.tables) && Sized(d.tables, data)
    ensures |data| < |d.tables| && |d.tables[|data|].tag| == 4
    ensures DirectoryEnd(d.tables) <= End(d.tables, |data|) <= Offset(d.tables, |data|)
    ensures Offset(d.tables, |data|) + |more| == End(d.tables, |data| + 1) <= d.size
    ensures 12 + |data| * 16 + 16 <= DirectoryEnd(d.tables)
  {
    OffsetFits(d.tables, |data| + 1, |data|);
  }

  /** Writing the next table's data, then its record, extends the finished part of the file by one table. */
  lemma TableWritten(d: Directory, data: seq<seq<byte>>, more: seq<byte>)
    requires Placeable(d, data, more)
    ensures Sized(d.tables, data + [more]) && End(d.tables, |data|) <= d.size
    ensures Offset(d.tables, |data|) + |more| <= d.size && 12 + |data| * 16 + 16 <= d.size
    ensures Patch(Patch(Partial(d, data, |data|), Offset(d.tables, |data|), more), 12 + |data| * 16,
      Record(d.tables, |data|))
      == Partial(d, data + [more], |data| + 1)
  {
    hide *;
    var n := |data|;
    PlaceBounds(d, data, more);
    BackWritten(d, data, more);
    FrontWritten(d, n);
    PatchBoth(Front(d, n), Back(d, data, n), Offset(d.tables, n), more, 12 + n * 16, Record(d.tables, n));
    PartialIs(d, data, n);
    PartialIs(d, data + [more], n + 1);
  }

  lemma PartialIs(d: Directory, data: seq<seq<byte>>, n: nat)
    requires d.tables != [] && |d.flavor| == 4 && Tagged(d.tables)
    requires n <= |data| && Sized(d.tables, data) && End(d.tables, n) <= d.size
    ensures n <= |d.tables| && Partial(d, data, n) == Front(d, n) + Back(d, data, n)
  {
  }

  /** A directory record is written field by field. */
  method WriteRecord(output: array<byte>, tables: seq<Table>, index: nat, destination: nat)
    requires index < |tables| && |tables[index].tag| == 4 && destination == Offset(tables, index)
    requires 12 + index * 16 + 16 <= output.Length
    modifies output
    ensures output[..] == Patch(old(output[..]), 12 + index * 16, Record(tables, index))
  {
    var record := 12 + index * 16;
    var t := tables[index];
    ghost var start := output[..];
    var sum, at, length := BigEndian(t.checksum, 4), BigEndian(destination, 4), BigEndian(t.originalLength, 4);
    CopyInto(output, record, t.tag);
    CopyInto(output, record + 4, sum);
    PatchNext(start, record, t.tag, sum);
    CopyInto(output, record + 8, at);
    PatchNext(start, record, t.tag + sum, at);
    CopyInto(output, record + 12, length);
    PatchNext(start, record, t.tag + sum + at, length);
  }

  method WriteHeader(output: array<byte>, d: Directory)
    requires d.tables != [] && |d.flavor| == 4 && 12 <= output.Length
    modifies output
    ensures output[..] == Patch(old(output[..]), 0, Header(d))
  {
    var count := |d.tables|;
    var maximumPower := Log2(count);
    var searchRange := Power2(maximumPower) * 16;
    ghost var start := output[..];
    var a, b, c, e := BigEndian(count, 2), BigEndian(searchRange, 2), BigEndian(maximumPower, 2),
      BigEndian(count * 16 - searchRange, 2);
    CopyInto(output, 0, d.flavor);
    CopyInto(output, 4, a);
    PatchNext(start, 0, d.flavor, a);
    CopyInto(output, 6, b);
    PatchNext(start, 0, d.flavor + a, b);
    CopyInto(output, 8, c);
    PatchNext(start, 0, d.flavor + a + b, c);
    CopyInto(output, 10, e);
    PatchNext(start, 0, d.flavor + a + b + c, e);
  }

  ghost predicate Admitted(bytes: seq<byte>, d: Directory) {
    && d.tables != [] && |d.flavor| == 4 && Tagged(d.tables) && DirectoryEnd(d.tables) <= d.size
    && Bounded(d.tables, |bytes|)
  }

  /** The buffer holds the first `n` tables, and `data` is what they decode to. */
  ghost predicate Written(s: seq<byte>, bytes: seq<byte>, d: Directory, inflate: Inflate, data: seq<seq<byte>>, n: nat)
    requires Admitted(bytes, d) && n <= |d.tables|
  {
    && |data| == n && Sized(d.tables, data) && End(d.tables, n) <= d.size
    && Decoded(bytes, d, inflate, n) == Ok(data)
    && s == Partial(d, data, n)
  }

  lemma WrittenNext(s: seq<byte>, bytes: seq<byte>, d: Directory, inflate: Inflate, data: seq<seq<byte>>,
      more: seq<byte>)
    requires Admitted(bytes, d) && |data| < |d.tables| && Written(s, bytes, d, inflate, data, |data|)
    requires End(d.tables, |data| + 1) <= d.size && Decode(bytes, d.tables[|data|], inflate) == Ok(more)
    ensures Offset(d.tables, |data|) + |more| <= |s| && 12 + |data| * 16 + 16 <= |s|
    ensures Written(Patch(Patch(s, Offset(d.tables, |data|), more), 12 + |data| * 16, Record(d.tables, |data|)),
                    bytes, d, inflate, data + [more], |data| + 1)
  {
    TableWritten(d, data, more);
    AdmittedPlaces(d, data, more);
    hide Partial, Patch, Record, Offset, End, Tagged, Sized;
  }

  lemma AdmittedPlaces(d: Directory, data: seq<seq<byte>>, more: seq<byte>)
    requires d.tables != [] && |d.flavor| == 4 && Tagged(d.tables) && |data| < |d.tables| && Sized(d.tables, data)
    requires End(d.tables, |data| + 1) <= d.size && |more| == d.tables[|data|].originalLength
    ensures Placeable(d, data, more)
  {
  }

  lemma DecodedNext(s: seq<byte>, bytes: seq<byte>, d: Directory, inflate: Inflate, data: seq<seq<byte>>, index: nat)
    requires Admitted(bytes, d) && index < |d.tables| && Written(s, bytes, d, inflate, data, index)
    ensures |data| == index && |s| == d.size
    ensures End(d.tables, index + 1) == Align4(End(d.tables, index)) + d.tables[index].originalLength
    ensures End(d.tables, index + 1) > d.size ==> Decoded(bytes, d, inflate, index + 1) == Err(TablesExceedSize)
    ensures End(d.tables, index + 1) <= d.size && Decode(bytes, d.tables[index], inflate).Err? ==>
      Decoded(bytes, d, inflate, index + 1) == Err(Decode(bytes, d.tables[index], inflate).error)
  {
  }

  method Place(output: array<byte>, tables: seq<Table>, index: nat, destination: nat, data: seq<byte>)
    requires index < |tables| && |tables[index].tag| == 4 && destination == Offset(tables, index)
    requires destination + |data| <= output.Length && 12 + index * 16 + 16 <= output.Length
    modifies output
    ensures output[..] == Patch(Patch(old(output[..]), destination, data), 12 + index * 16, Record(tables, index))
  {
    CopyInto(output, destination, data);
    WriteRecord(output, tables, index, destination);
  }

  /** Places and decodes one table behind those already written. */
  method WriteTable(bytes: seq<byte>, d: Directory, inflate: Inflate, output: array<byte>, index: nat, previousEnd: nat,
                    ghost data: seq<seq<byte>>)
    returns (r: Result<nat, Error>, ghost more: seq<byte>)
    requires Admitted(bytes, d) && index < |d.tables| && Written(output[..], bytes, d, inflate, data, index)
    requires previousEnd == End(d.tables, index)
    modifies output
    ensures r.Err? ==> Decoded(bytes, d, inflate, index + 1) == Err(r.error)
    ensures r.Ok? ==>
      r.value == Offset(d.tables, index)
      && Written(output[..], bytes, d, inflate, data + [more], index + 1)
  {
    hide Partial;
    DecodedNext(output[..], bytes, d, inflate, data, index);
    var destination := Align4(previousEnd);
    if destination + d.tables[index].originalLength > d.size {
      return Err(TablesExceedSize), [];
    }
    var decoded := Decode(bytes, d.tables[index], inflate);
    if decoded.Err? {
      return Err(decoded.error), [];
    }
    more := decoded.value;
    WrittenNext(output[..], bytes, d, inflate, data, more);
    Place(output, d.tables, index, destination, decoded.value);
    r := Ok(destination);
  }

  ghost predicate HeadFound(tables: seq<Table>, n: nat, headOffset: Option<nat>)
    requires n <= |tables|
  {
    match HeadTable(tables, n)
    case None => headOffset.None?
    case Some(h) => headOffset == Some(Offset(tables, h))
  }

  /** Places and decodes every table, or stops at the first that fails. */
  method WriteTables(bytes: seq<byte>, d: Directory, inflate: Inflate, output: array<byte>)
    returns (failure: Option<Error>, headOffset: Option<nat>, ghost data: seq<seq<byte>>)
    requires Admitted(bytes, d) && output[..] == Partial(d, [], 0)
    modifies output
    ensures failure.Some? ==> Decoded(bytes, d, inflate, |d.tables|) == Err(failure.value)
    ensures failure.None? ==>
      Written(output[..], bytes, d, inflate, data, |d.tables|) && HeadFound(d.tables, |d.tables|, headOffset)
  {
    hide Partial, Decoded, Sized, Tagged, Bounded;
    assert Written(output[..], bytes, d, inflate, [], 0) by { NoneWritten(output[..], bytes, d, inflate); }
    var destination := DirectoryEnd(d.tables);
    headOffset := None;
    data := [];
    for index := 0 to |d.tables|
      invariant destination == End(d.tables, index)
      invariant Written(output[..], bytes, d, inflate, data, index)
      invariant HeadFound(d.tables, index, headOffset)
    {
      ghost var more;
      var r;
      r, more := WriteTable(bytes, d, inflate, output, index, destination, data);
      if r.Err? {
        StopsAt(bytes, d, inflate, index + 1, |d.tables|);
        return Some(r.error), None, [];
      }
      if d.tables[index].tag == HEAD && d.tables[index].originalLength >= 12 {
        headOffset := Some(r.value);
      }
      HeadStep(d.tables, index);
      data := data + [more];
      destination := r.value + d.tables[index].originalLength;
    }
    return None, headOffset, data;
  }

  lemma NoneWritten(s: seq<byte>, bytes: seq<byte>, d: Directory, inflate: Inflate)
    requires Admitted(bytes, d) && s == Partial(d, [], 0)
    ensures Written(s, bytes, d, inflate, [], 0)
  {
  }

  lemma HeadStep(tables: seq<Table>, index: nat)
    requires index < |tables|
    ensures End(tables, index + 1) == Offset(tables, index) + tables[index].originalLength
    ensures HeadTable(tables, index + 1) ==
      if tables[index].tag == HEAD && tables[index].originalLength >= 12 then Some(index) else HeadTable(tables, index)
  {
  }

  /** A failure among the first tables is the outcome of the whole. */
  lemma {:induction false} StopsAt(bytes: seq<byte>, d: Directory, inflate: Inflate, n: nat, m: nat)
    requires n <= m <= |d.tables|
    requires Bounded(d.tables, |bytes|)
    requires Decoded(bytes, d, inflate, n).Err?
    ensures Decoded(bytes, d, inflate, m) == Decoded(bytes, d, inflate, n)
    decreases m
  {
    if n < m {
      StopsAt(bytes, d, inflate, n, m - 1);
    }
  }

  method ReadContainer(bytes: seq<byte>) returns (r: Result<Directory, Error>)
    ensures r == ReadDirectory(bytes)
  {
    if |bytes| < 44 || bytes[..4] != SIGNATURE {
      return Err(InvalidHeader);
    }
    var declaredLength := U32At(bytes, 8);
    var tableCount := U16At(bytes, 12);
    var totalSfntSize := U32At(bytes, 16);
    if declaredLength > |bytes| || tableCount == 0 || tableCount > MAX_FONT_TABLES
    || totalSfntSize > MAX_FONT_BYTES || 44 + tableCount * 20 > declaredLength {
      return Err(ResourceLimits);
    }
    var tables := ReadTables(bytes, tableCount, declaredLength);
    if tables.Err? {
      return Err(tables.error);
    }
    if totalSfntSize < 12 + tableCount * 16 {
      return Err(InvalidSfntSize);
    }
    return Ok(Directory(bytes[4..8], totalSfntSize, tables.value));
  }

  /** A zeroed buffer with the header in place. */
  method NewOutput(d: Directory) returns (output: array<byte>)
    requires d.tables != [] && |d.flavor| == 4 && Tagged(d.tables) && DirectoryEnd(d.tables) <= d.size
    ensures fresh(output) && output[..] == Partial(d, [], 0)
  {
    output := new byte[d.size](_ => 0);
    assert output[..] == Zeros(d.size);
    WriteHeader(output, d);
    HeaderWritten(d);
  }

  method DecodeWoff(bytes: seq<byte>, inflate: Inflate) returns (r: Result<seq<byte>, Error>)
    ensures r == Rebuild(bytes, inflate)
  {
    var container := ReadContainer(bytes);
    if container.Err? {
      return Err(container.error);
    }
    var d := container.value;
    var output := NewOutput(d);
    ghost var data;
    var failure, headOffset;
    failure, headOffset, data := WriteTables(bytes, d, inflate, output);
    if failure.Some? {
      return Err(failure.value);
    }
    if headOffset.Some? {
      OffsetFits(d.tables, |d.tables|, HeadTable(d.tables, |d.tables|).value);
      AdjustInPlace(output, headOffset.value);
    }
    return Ok(output[..]);
  }

  method AdjustInPlace(output: array<byte>, head: nat)
    requires head + 12 <= output.Length
    modifies output
    ensures output[..] == Adjust(old(output[..]), head)
  {
    CopyInto(output, head + 8, Zeros(4));
    var checksum := Checksum(output);
    CopyInto(output, head + 8, BigEndian(Adjustment(checksum), 4));
  }
}
