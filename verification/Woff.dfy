/** Rebuilding an SFNT font file from a WOFF container. */
module Woff {
  import opened Bytes
  import opened Outcome

  const MAX_FONT_BYTES := 32 * 1024 * 1024
  const MAX_FONT_TABLES := 256
  const SIGNATURE: seq<byte> := [0x77, 0x4F, 0x46, 0x46]      // "wOFF"
  const HEAD: seq<byte> := [0x68, 0x65, 0x61, 0x64]           // "head"
  const CHECKSUM_MAGIC := 0xB1B0_AFBA

  datatype Error =
    | InvalidHeader
    | ResourceLimits
    | InvalidTableBounds
    | InvalidSfntSize
    | TablesExceedSize
    | InflateFailed
    | WrongLength

  datatype Table = Table(tag: seq<byte>, sourceOffset: nat, compressedLength: nat, originalLength: U32, checksum: U32)

  /** The container's header and its table records. */
  datatype Directory = Directory(flavor: seq<byte>, size: nat, tables: seq<Table>)

  /** An inflate call on compressed bytes that stops after `limit` bytes of output. */
  type Inflate = (seq<byte>, nat) -> Option<seq<byte>>

  function U16At(bytes: seq<byte>, offset: nat): U16
    requires offset + 2 <= |bytes|
  {
    RadixValues();
    FromBigEndian(bytes[offset..offset + 2])
  }

  function U32At(bytes: seq<byte>, offset: nat): U32
    requires offset + 4 <= |bytes|
  {
    RadixValues();
    FromBigEndian(bytes[offset..offset + 4])
  }

  function Align4(n: nat): (r: nat)
    ensures r % 4 == 0 && n <= r < n + 4
  {
    (n + 3) - (n + 3) % 4
  }

  // ---------- Reading the container ----------

  function RecordAt(bytes: seq<byte>, index: nat): Table
    requires 44 + index * 20 + 20 <= |bytes|
  {
    var record := 44 + index * 20;
    Table(bytes[record..record + 4], U32At(bytes, record + 4), U32At(bytes, record + 8), U32At(bytes, record + 12),
          U32At(bytes, record + 16))
  }

  predicate InBounds(t: Table, declaredLength: nat) {
    t.sourceOffset + t.compressedLength <= declaredLength && t.compressedLength <= t.originalLength
  }

  ghost predicate Bounded(tables: seq<Table>, limit: nat) {
    forall i :: 0 <= i < |tables| ==> InBounds(tables[i], limit)
  }

  function Records(bytes: seq<byte>, count: nat): (r: seq<Table>)
    requires 44 + count * 20 <= |bytes|
    ensures |r| == count
    ensures forall i :: 0 <= i < count ==> r[i] == RecordAt(bytes, i)
  {
    seq(count, i requires 0 <= i < count => RecordAt(bytes, i))
  }

  function ReadDirectory(bytes: seq<byte>): (r: Result<Directory, Error>)
    ensures r.Ok? ==>
      && 0 < |r.value.tables| <= MAX_FONT_TABLES && |r.value.flavor| == 4
      && 12 + |r.value.tables| * 16 <= r.value.size <= MAX_FONT_BYTES
      && Bounded(r.value.tables, |bytes|) && Tagged(r.value.tables)
  {
    if |bytes| < 44 || bytes[..4] != SIGNATURE then Err(InvalidHeader)
    else
      var declaredLength, count, size := U32At(bytes, 8), U16At(bytes, 12), U32At(bytes, 16);
      if declaredLength > |bytes| || count == 0 || count > MAX_FONT_TABLES || size > MAX_FONT_BYTES
        || 44 + count * 20 > declaredLength then Err(ResourceLimits)
      else
        var tables := Records(bytes, count);
        if exists i :: 0 <= i < count && !InBounds(tables[i], declaredLength) then Err(InvalidTableBounds)
        else if size < 12 + count * 16 then Err(InvalidSfntSize)
        else Ok(Directory(bytes[4..8], size, tables))
  }

  /** The bytes of one table: stored as they are, or inflated to exactly the declared length. */
  function Decode(bytes: seq<byte>, t: Table, inflate: Inflate): (r: Result<seq<byte>, Error>)
    requires InBounds(t, |bytes|)
    ensures r.Ok? ==> |r.value| == t.originalLength
  {
    var source := bytes[t.sourceOffset..t.sourceOffset + t.compressedLength];
    if t.compressedLength == t.originalLength then Ok(source)
    else
      match inflate(source, t.originalLength + 1)
      case None => Err(InflateFailed)
      case Some(decoded) => if |decoded| != t.originalLength then Err(WrongLength) else Ok(decoded)
  }

  // ---------- The layout of the SFNT file ----------

  function DirectoryEnd(tables: seq<Table>): nat {
    12 + |tables| * 16
  }

  /** Where the first `n` tables end. */
  function End(tables: seq<Table>, n: nat): (r: nat)
    requires n <= |tables|
    ensures r >= DirectoryEnd(tables)
  {
    if n == 0 then DirectoryEnd(tables) else Align4(End(tables, n - 1)) + tables[n - 1].originalLength
  }

  function Offset(tables: seq<Table>, i: nat): nat
    requires i < |tables|
  {
    Align4(End(tables, i))
  }

  /** The decoded tables, or the error that stops the first one that cannot be placed. */
  function Decoded(bytes: seq<byte>, d: Directory, inflate: Inflate, n: nat): (r: Result<seq<seq<byte>>, Error>)
    requires n <= |d.tables|
    requires Bounded(d.tables, |bytes|)
    ensures r.Ok? ==> |r.value| == n && Sized(d.tables, r.value)
    ensures r.Ok? ==> End(d.tables, n) <= d.size || n == 0
  {
    if n == 0 then Ok([])
    else
      match Decoded(bytes, d, inflate, n - 1)
      case Err(e) => Err(e)
      case Ok(previous) =>
        if End(d.tables, n) > d.size then Err(TablesExceedSize)
        else
          match Decode(bytes, d.tables[n - 1], inflate)
          case Err(e) => Err(e)
          case Ok(data) => Ok(previous + [data])
  }

  function Zeros(n: nat): (r: seq<byte>)
    ensures |r| == n && forall i :: 0 <= i < n ==> r[i] == 0
  {
    seq(n, _ => 0)
  }

  /** The exponent of the largest power of two that is at most `n`. */
  function Log2(n: nat): (p: nat)
    requires n > 0
    ensures Power2(p) <= n < 2 * Power2(p)
  {
    if n == 1 then 0 else 1 + Log2(n / 2)
  }

  function Power2(p: nat): (r: nat)
    ensures r > 0
  {
    if p == 0 then 1 else 2 * Power2(p - 1)
  }

  function Header(d: Directory): (r: seq<byte>)
    requires d.tables != [] && |d.flavor| == 4
    ensures |r| == 12
  {
    var count, power := |d.tables|, Log2(|d.tables|);
    d.flavor + BigEndian(count, 2) + BigEndian(Power2(power) * 16, 2) + BigEndian(power, 2)
    + BigEndian(count * 16 - Power2(power) * 16, 2)
  }

  function Record(tables: seq<Table>, i: nat): (r: seq<byte>)
    requires i < |tables| && |tables[i].tag| == 4
    ensures |r| == 16
  {
    tables[i].tag + BigEndian(tables[i].checksum, 4) + BigEndian(Offset(tables, i), 4)
      + BigEndian(tables[i].originalLength, 4)
  }

  ghost predicate Tagged(tables: seq<Table>) {
    forall i :: 0 <= i < |tables| ==> |tables[i].tag| == 4
  }

  function RecordBytes(tables: seq<Table>, n: nat): (r: seq<byte>)
    requires n <= |tables| && Tagged(tables)
    ensures |r| == n * 16
  {
    if n == 0 then [] else RecordBytes(tables, n - 1) + Record(tables, n - 1)
  }

  ghost predicate Sized(tables: seq<Table>, data: seq<seq<byte>>) {
    |data| <= |tables| && forall i :: 0 <= i < |data| ==> |data[i]| == tables[i].originalLength
  }

  /** The first tables one after the other, each moved up to a multiple of four. */
  function Body(tables: seq<Table>, data: seq<seq<byte>>, n: nat): (r: seq<byte>)
    requires n <= |data| && Sized(tables, data)
    ensures |r| == End(tables, n) - DirectoryEnd(tables)
  {
    if n == 0 then []
    else Body(tables, data, n - 1) + Zeros(Offset(tables, n - 1) - End(tables, n - 1)) + data[n - 1]
  }

  /** Header and directory while the first `n` records are written and the rest is still zero. */
  function Front(d: Directory, n: nat): (r: seq<byte>)
    requires d.tables != [] && |d.flavor| == 4 && Tagged(d.tables) && n <= |d.tables|
    ensures |r| == DirectoryEnd(d.tables)
  {
    Header(d) + RecordBytes(d.tables, n) + Zeros((|d.tables| - n) * 16)
  }

  /** What follows the directory while the first `n` tables are written and the rest is still zero. */
  function Back(d: Directory, data: seq<seq<byte>>, n: nat): (r: seq<byte>)
    requires n <= |data| && Sized(d.tables, data) && End(d.tables, n) <= d.size
    ensures |r| == d.size - DirectoryEnd(d.tables)
  {
    Body(d.tables, data, n) + Zeros(d.size - End(d.tables, n))
  }

  function Partial(d: Directory, data: seq<seq<byte>>, n: nat): (r: seq<byte>)
    requires d.tables != [] && |d.flavor| == 4 && Tagged(d.tables)
    requires n <= |data| && Sized(d.tables, data) && End(d.tables, n) <= d.size
    ensures |r| == d.size
  {
    Front(d, n) + Back(d, data, n)
  }

  /** The table whose checksum field is adjusted: the last usable one tagged `head`. */
  function HeadTable(tables: seq<Table>, n: nat): (r: Option<nat>)
    requires n <= |tables|
    ensures r.Some? ==> r.value < n && tables[r.value].tag == HEAD && tables[r.value].originalLength >= 12
  {
    if n == 0 then None
    else if tables[n - 1].tag == HEAD && tables[n - 1].originalLength >= 12 then Some(n - 1)
    else HeadTable(tables, n - 1)
  }

  // ---------- The checksum of the whole file ----------

  /** A big-endian word, padded with zeros on the right when the file ends early. */
  function Word(chunk: seq<byte>): U32
    requires |chunk| <= 4
  {
    RadixValues();
    FromBigEndian(chunk + Zeros(4 - |chunk|))
  }

  function FirstChunk(s: seq<byte>): nat {
    if |s| < 4 then |s| else 4
  }

  function Plus(a: nat, b: nat): U32 {
    (a + b) % U32_BOUND
  }

  /** The sum of a file's big-endian words modulo 2^32. */
  function WordSum(s: seq<byte>): U32 {
    if s == [] then 0
    else Plus(Word(s[..FirstChunk(s)]), WordSum(s[FirstChunk(s)..]))
  }

  function Patch(s: seq<byte>, offset: nat, data: seq<byte>): (r: seq<byte>)
    requires offset + |data| <= |s|
    ensures |r| == |s|
  {
    s[..offset] + data + s[offset + |data|..]
  }

  function Adjustment(sum: U32): U32 {
    (CHECKSUM_MAGIC + U32_BOUND - sum) % U32_BOUND
  }

  function Adjust(s: seq<byte>, head: nat): (r: seq<byte>)
    requires head + 12 <= |s|
    ensures |r| == |s|
  {
    var zeroed := Patch(s, head + 8, Zeros(4));
    Patch(zeroed, head + 8, BigEndian(Adjustment(WordSum(zeroed)), 4))
  }

  lemma {:induction false} OffsetFits(tables: seq<Table>, n: nat, i: nat)
    requires i < n <= |tables|
    ensures End(tables, i) <= Offset(tables, i) && Offset(tables, i) + tables[i].originalLength <= End(tables, n)
    decreases n
  {
    var e := End(tables, n - 1);
    assert End(tables, n) == Align4(e) + tables[n - 1].originalLength;
    if i < n - 1 {
      OffsetFits(tables, n - 1, i);
    } else {
      assert Offset(tables, i) == Align4(e);
    }
  }

  function Rebuild(bytes: seq<byte>, inflate: Inflate): Result<seq<byte>, Error> {
    match ReadDirectory(bytes)
    case Err(e) => Err(e)
    case Ok(d) =>
      match Decoded(bytes, d, inflate, |d.tables|)
      case Err(e) => Err(e)
      case Ok(data) =>
        var n := |d.tables|;
        var plain := Partial(d, data, n);
        match HeadTable(d.tables, n)
        case None => Ok(plain)
        case Some(h) =>
          OffsetFits(d.tables, n, h);
          Ok(Adjust(plain, Offset(d.tables, h)))
  }

  lemma WordSumFirst(s: seq<byte>)
    requires |s| >= 4
    ensures WordSum(s) == Plus(FromBigEndian(s[..4]), WordSum(s[4..]))
  {
    assert s[..4] + Zeros(0) == s[..4];
  }

  lemma {:induction false} ZerosValue(n: nat)
    ensures FromBigEndian(Zeros(n)) == 0
  {
    if n > 0 {
      ZerosValue(n - 1);
      assert Zeros(n)[..n - 1] == Zeros(n - 1);
    }
  }

  lemma PatchFirst(s: seq<byte>, data: seq<byte>)
    requires |data| == 4 <= |s|
    ensures Patch(s, 0, data)[..4] == data && Patch(s, 0, data)[4..] == s[4..]
  {
  }

  lemma PatchLater(s: seq<byte>, offset: nat, data: seq<byte>)
    requires 4 <= offset && offset + |data| <= |s|
    ensures Patch(s, offset, data)[..4] == s[..4]
    ensures Patch(s, offset, data)[4..] == Patch(s[4..], offset - 4, data)
  {
  }

  /** Writing a word where there were zeros adds it to the sum. */
  lemma {:induction false} WordSumPatch(s: seq<byte>, offset: nat, word: seq<byte>)
    requires offset % 4 == 0 && offset + 4 <= |s| && |word| == 4 && FromBigEndian(word) < U32_BOUND
    ensures WordSum(Patch(s, offset, word)) == Plus(WordSum(Patch(s, offset, Zeros(4))), FromBigEndian(word))
    decreases offset
  {
    hide WordSum, FromBigEndian, Plus, Patch, Zeros;
    var w := FromBigEndian(word);
    WordSumFirst(Patch(s, offset, word));
    WordSumFirst(Patch(s, offset, Zeros(4)));
    if offset == 0 {
      PatchFirst(s, word);
      PatchFirst(s, Zeros(4));
      ZerosValue(4);
      SumSwap(w, WordSum(s[4..]), 0);
      SumSwap(0, WordSum(s[4..]), w);
      SumZero(w, WordSum(s[4..]));
    } else {
      PatchLater(s, offset, word);
      PatchLater(s, offset, Zeros(4));
      var first, rest := FromBigEndian(s[..4]), WordSum(Patch(s[4..], offset - 4, Zeros(4)));
      WordSumPatch(s[4..], offset - 4, word);
      SumSwap(first, rest, w);
    }
  }

  lemma SumZero(a: nat, b: nat)
    ensures Plus(a, b) == Plus(Plus(0, b), a)
  {
  }

  lemma SumSwap(a: nat, b: nat, c: nat)
    ensures Plus(a, Plus(b, c)) == Plus(Plus(a, b), c)
    ensures Plus(a, b) == Plus(b, a)
  {
  }

  lemma PatchTwice(s: seq<byte>, offset: nat, a: seq<byte>, b: seq<byte>)
    requires |a| == |b| && offset + |a| <= |s|
    ensures Patch(Patch(s, offset, a), offset, b) == Patch(s, offset, b)
  {
  }

  lemma AdjustmentCompletes(sum: U32)
    ensures Plus(sum, Adjustment(sum)) == CHECKSUM_MAGIC
  {
  }

  /** After adjustment the words of the whole file sum to the constant of the OpenType format. */
  lemma AdjustedSum(s: seq<byte>, head: nat)
    requires head % 4 == 0 && head + 12 <= |s|
    ensures WordSum(Adjust(s, head)) == CHECKSUM_MAGIC
  {
    var zeroed := Patch(s, head + 8, Zeros(4));
    var adjustment := Adjustment(WordSum(zeroed));
    var word := BigEndian(adjustment, 4);
    assert FromBigEndian(word) == adjustment by {
      RadixValues();
      BigEndianRoundTrip(adjustment, 4);
    }
    PatchTwice(s, head + 8, Zeros(4), word);
    WordSumPatch(s, head + 8, word);
    AdjustmentCompletes(WordSum(zeroed));
  }
}
