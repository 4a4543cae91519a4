/** EBML variable-length integers, and the extent of a Cluster whose size is unknown. */
module Ebml {
  import opened Bytes
  import opened Outcome

  const HEADER: nat := 0x1A45_DFA3
  const SEGMENT: nat := 0x1853_8067
  const CLUSTER: nat := 0x1F43_B675
  const TRACKS: nat := 0x1654_AE6B
  const TRACK: nat := 0xAE
  const INFO: nat := 0x1549_A966
  const TIMESTAMP: nat := 0xE7
  const BLOCK_GROUP: nat := 0xA0
  const BLOCK: nat := 0xA1
  const SIMPLE_BLOCK: nat := 0xA3

  const MAX_BUDGET := 65_536

  datatype Error =
    | Cancelled
    | TooComplex
    | TooDeep
    | Truncated
    | InvalidWidth
    | InvalidUnsigned
    | UnknownSizeForbidden
    | UnboundedChild
    | LeafTooLarge
    | Misplaced(id: nat)
    | Repeated(id: nat)
    | Unsupported(id: nat)
    | Incomplete
    | InvalidTiming
    | Rejected(id: nat)

  /** Counts units of work; cancellation may strike at any step. */
  class Budget {
    var units: nat

    constructor ()
      ensures units == 0
    {
      units := 0;
    }

    method Step() returns (r: Result<(), Error>)
      modifies this
      ensures units == old(units) + 1
      ensures r.Ok? ==> units <= MAX_BUDGET
      ensures r.Err? ==> r.error.Cancelled? || (r.error.TooComplex? && units > MAX_BUDGET)
    {
      units := units + 1;
      var cancelled: bool := *;
      if cancelled {
        return Err(Cancelled);
      }
      if units > MAX_BUDGET {
        return Err(TooComplex);
      }
      return Ok(());
    }
  }

  // ---------- Variable-length integers ----------

  /** One more than the number of leading zero bits. */
  function Width(first: byte): (w: nat)
    ensures 1 <= w <= 9
  {
    if first >= 128 then 1 else if first >= 64 then 2 else if first >= 32 then 3 else if first >= 16 then 4
    else if first >= 8 then 5 else if first >= 4 then 6 else if first >= 2 then 7 else if first >= 1 then 8 else 9
  }

  /** The marker bit of a first byte announcing this width; the bits below it carry the value. */
  function Marker(width: nat): (m: byte)
    requires 1 <= width <= 8
    ensures m > 0 && Width(m) == width
  {
    match width
    case 1 => 128
    case 2 => 64
    case 3 => 32
    case 4 => 16
    case 5 => 8
    case 6 => 4
    case 7 => 2
    case 8 => 1
  }

  function Vint(bytes: seq<byte>, id: bool): (r: Result<(nat, nat), Error>)
    ensures r.Ok? ==> 1 <= r.value.1 <= (if id then 4 else 8) && r.value.1 <= |bytes|
  {
    if bytes == [] then Err(Truncated)
    else
      var width := Width(bytes[0]);
      if width > (if id then 4 else 8) then Err(InvalidWidth)
      else if |bytes| < width then Err(Truncated)
      else
        var first: byte := if id then bytes[0] else bytes[0] % Marker(width);
        Ok((FromBigEndian([first] + bytes[1..width]), width))
  }

  /** The value is accumulated byte by byte, most significant first. */
  method ReadVint(bytes: seq<byte>, id: bool) returns (r: Result<(nat, nat), Error>)
    ensures r == Vint(bytes, id)
  {
    if bytes == [] {
      return Err(Truncated);
    }
    var width := Width(bytes[0]);
    if width > (if id then 4 else 8) {
      return Err(InvalidWidth);
    }
    if |bytes| < width {
      return Err(Truncated);
    }
    var first: byte := if id then bytes[0] else bytes[0] % Marker(width);
    var value: nat := first;
    assert [first] + bytes[1..1] == [first] && [first][..0] == [];
    for i := 1 to width
      invariant value == FromBigEndian([first] + bytes[1..i])
    {
      var s := [first] + bytes[1..i + 1];
      assert s[..|s| - 1] == [first] + bytes[1..i];
      value := value * 256 + bytes[i];
    }
    return Ok((value, width));
  }

  function Uint(bytes: seq<byte>): (r: Result<nat, Error>)
    ensures r.Ok? ==> r.value < U64_BOUND
  {
    if bytes == [] || |bytes| > 8 then Err(InvalidUnsigned)
    else
      RadixGrows(|bytes|, 8);
      RadixValues();
      Ok(FromBigEndian(bytes))
  }

  lemma {:induction false} RadixGrows(a: nat, b: nat)
    requires a <= b
    ensures Radix(a) <= Radix(b)
    decreases b
  {
    if a < b {
      RadixGrows(a, b - 1);
    }
  }

  /** The size value whose bits are all ones, which stands for "unknown". */
  function UnknownSize(width: nat): (n: nat)
    requires 1 <= width <= 8
  {
    Marker(width) * Radix(width - 1) - 1
  }

  /** A size field of the given width. */
  function EncodeSize(size: nat, width: nat): (r: seq<byte>)
    requires 1 <= width <= 8 && size <= UnknownSize(width)
    ensures |r| == width
  {
    var tail := BigEndian(size, width - 1);
    TopByte(size, width);
    [Marker(width) + size / Radix(width - 1)] + tail
  }

  lemma TopByte(size: nat, width: nat)
    requires 1 <= width <= 8 && size <= UnknownSize(width)
    ensures 0 <= size / Radix(width - 1) < Marker(width)
  {
    DivBelow(size, Radix(width - 1), Marker(width));
  }

  lemma DivBelow(n: nat, d: nat, q: nat)
    requires d > 0 && n < q * d
    ensures n / d < q
  {
  }

  lemma MulGrows(a: nat, b: nat, c: nat)
    requires b <= c
    ensures a * b <= a * c
  {
  }

  /** What a big-endian number is made of: its first byte and the rest. */
  lemma {:induction false} FromBigEndianFirst(first: byte, rest: seq<byte>)
    ensures FromBigEndian([first] + rest) == first * Radix(|rest|) + FromBigEndian(rest)
  {
    var s := [first] + rest;
    if rest == [] {
      assert s[..0] == [];
    } else {
      var n := |rest| - 1;
      assert s[..|s| - 1] == [first] + rest[..n];
      FromBigEndianFirst(first, rest[..n]);
      assert 256 * (first * Radix(n)) == first * (256 * Radix(n));
    }
  }

  lemma {:induction false} BigEndianModulo(n: nat, width: nat)
    ensures FromBigEndian(BigEndian(n, width)) == n % Radix(width)
  {
    if width > 0 {
      BigEndianModulo(n / 256, width - 1);
      assert BigEndian(n, width)[..width - 1] == BigEndian(n / 256, width - 1);
      DivModulo(n, Radix(width - 1));
    }
  }

  lemma DivModulo(n: nat, r: nat)
    requires r > 0
    ensures 256 * ((n / 256) % r) + n % 256 == n % (256 * r)
  {
    var q, d := (n / 256) / r, (n / 256) % r;
    assert n / 256 == q * r + d;
    assert n == 256 * (q * r + d) + n % 256 == (256 * r) * q + (256 * d + n % 256);
    assert 256 * d + n % 256 < 256 * r;
    ModUnique(n, 256 * r, q, 256 * d + n % 256);
  }

  lemma ModUnique(n: nat, m: nat, q: nat, r: nat)
    requires m > 0 && n == m * q + r && r < m
    ensures n % m == r && n / m == q
  {
    var q', r' := n / m, n % m;
    assert n == m * q' + r';
    if q' < q {
      MulGrows(m, q' + 1, q);
      assert false;
    }
    if q < q' {
      MulGrows(m, q + 1, q');
      assert false;
    }
  }

  lemma MarkedByte(width: nat, top: nat)
    requires 1 <= width <= 8 && top < Marker(width)
    ensures Marker(width) + top < 256
    ensures Width(Marker(width) + top) == width && (Marker(width) + top) % Marker(width) == top
  {
    ModUnique(Marker(width) + top, Marker(width), 1, top);
  }

  /** The number that a marked first byte and a tail spell. */
  lemma FieldValue(bytes: seq<byte>, width: nat, top: nat, tail: seq<byte>)
    requires 1 <= width <= 8 && top < Marker(width) && |tail| == width - 1 && |bytes| >= width
    requires Marker(width) + top < 256 && bytes[0] == Marker(width) + top && bytes[1..width] == tail
    ensures Vint(bytes, false) == Ok((top * Radix(width - 1) + FromBigEndian(tail), width))
  {
    hide Width, Marker, FromBigEndian, Radix;
    MarkedByte(width, top);
    FromBigEndianFirst(top, tail);
  }

  lemma TopAndTail(size: nat, width: nat)
    requires 1 <= width <= 8
    ensures size / Radix(width - 1) * Radix(width - 1) + FromBigEndian(BigEndian(size, width - 1)) == size
  {
    BigEndianModulo(size, width - 1);
    hide BigEndian, FromBigEndian, Radix;
    DivMod(size, Radix(width - 1));
  }

  lemma DivMod(n: nat, d: nat)
    requires d > 0
    ensures n / d * d + n % d == n
  {
  }

  /** A size field reads back as the size it was made from, whatever follows it. */
  lemma SizeRoundTrip(size: nat, width: nat, rest: seq<byte>)
    requires 1 <= width <= 8 && size <= UnknownSize(width)
    ensures Vint(EncodeSize(size, width) + rest, false) == Ok((size, width))
  {
    hide Width, Marker, BigEndian, FromBigEndian, UnknownSize, Vint, Radix;
    TopByte(size, width);
    var top, tail := size / Radix(width - 1), BigEndian(size, width - 1);
    MarkedByte(width, top);
    var bytes := EncodeSize(size, width) + rest;
    assert bytes[0] == Marker(width) + top && bytes[1..width] == tail;
    FieldValue(bytes, width, top, tail);
    TopAndTail(size, width);
  }

  /** Reading depends only on the bytes of the field itself. */
  lemma VintPrefix(bytes: seq<byte>, rest: seq<byte>, id: bool)
    requires Vint(bytes, id).Ok?
    ensures Vint(bytes + rest, id) == Vint(bytes, id)
  {
    var width := Width(bytes[0]);
    assert (bytes + rest)[1..width] == bytes[1..width];
  }

  // ---------- Clusters of unknown size ----------

  /** Elements that only occur directly inside a Segment, and so end an unknown-sized Cluster. */
  predicate SegmentLevel(id: nat) {
    id == 0x114D_9B74 || id == INFO || id == TRACKS || id == CLUSTER
    || id == 0x1C53_BB6B || id == 0x1941_A469 || id == 0x1043_A770 || id == 0x1254_C367
  }

  /** Id and finite size of the element at the start, as a child of an unknown-sized Cluster. */
  function ChildLength(bytes: seq<byte>): (r: Result<nat, Error>)
    requires Vint(bytes, true).Ok?
    ensures r.Ok? ==> 0 < r.value <= |bytes|
  {
    var width := Vint(bytes, true).value.1;
    match Vint(bytes[width..], false)
    case Err(e) => Err(e)
    case Ok((size, sizeWidth)) =>
      if size == UnknownSize(sizeWidth) then Err(UnboundedChild)
      else if width + sizeWidth + size > |bytes| then Err(Truncated)
      else Ok(width + sizeWidth + size)
  }

  /** How far an unknown-sized Cluster that starts here extends. */
  function ClusterLength(bytes: seq<byte>): (r: Result<nat, Error>)
    ensures r.Ok? ==> r.value <= |bytes|
    decreases |bytes|
  {
    if bytes == [] then Ok(0)
    else
      match Vint(bytes, true)
      case Err(e) => Err(e)
      case Ok((id, _)) =>
        if SegmentLevel(id) then Ok(0)
        else
          match ChildLength(bytes)
          case Err(e) => Err(e)
          case Ok(length) =>
            match ClusterLength(bytes[length..])
            case Err(e) => Err(e)
            case Ok(n) => Ok(length + n)
  }

  lemma NoCluster()
    ensures ClusterLength([]) == Ok(0)
  {
  }

  /** One child on: what the rest of the scan reports. */
  lemma ClusterStep(here: seq<byte>, id: nat, idBytes: nat, size: nat, sizeBytes: nat)
    requires here != [] && Vint(here, true) == Ok((id, idBytes)) && !SegmentLevel(id)
    requires idBytes <= |here| && Vint(here[idBytes..], false) == Ok((size, sizeBytes))
    ensures size == UnknownSize(sizeBytes) ==> ClusterLength(here) == Err(UnboundedChild)
    ensures size != UnknownSize(sizeBytes) && idBytes + sizeBytes + size > |here| ==>
      ClusterLength(here) == Err(Truncated)
    ensures size != UnknownSize(sizeBytes) && idBytes + sizeBytes + size <= |here| ==>
      0 < idBytes + sizeBytes + size && ClusterLength(here) == Onward(here, idBytes + sizeBytes + size)
  {
    hide Vint, UnknownSize, SegmentLevel;
  }

  function Onward(here: seq<byte>, length: nat): Result<nat, Error>
    requires length <= |here|
  {
    match ClusterLength(here[length..])
    case Ok(n) => Ok(length + n)
    case Err(e) => Err(e)
  }

  lemma OnwardTwice(bytes: seq<byte>, offset: nat, length: nat)
    requires offset + length <= |bytes|
    requires ClusterLength(bytes[offset..]) == Onward(bytes[offset..], length)
    ensures Onward(bytes, offset) == Onward(bytes, offset + length)
  {
    hide ClusterLength;
    assert bytes[offset..][length..] == bytes[offset + length..];
  }

  lemma ClusterStops(here: seq<byte>)
    requires here != []
    ensures Vint(here, true).Err? ==> ClusterLength(here) == Err(Vint(here, true).error)
    ensures Vint(here, true).Ok? && SegmentLevel(Vint(here, true).value.0) ==> ClusterLength(here) == Ok(0)
    ensures Vint(here, true).Ok? && !SegmentLevel(Vint(here, true).value.0) ==>
      var size := Vint(here[Vint(here, true).value.1..], false);
      size.Err? ==> ClusterLength(here) == Err(size.error)
  {
    hide Vint, SegmentLevel;
  }

  method UnknownClusterLength(bytes: seq<byte>, budget: Budget) returns (r: Result<nat, Error>)
    modifies budget
    ensures budget.units >= old(budget.units)
    ensures r.Ok? ==> budget.units <= MAX_BUDGET || budget.units == old(budget.units)
    ensures r == ClusterLength(bytes) || (r.Err? && r.error.Cancelled?)
      || (r.Err? && r.error.TooComplex? && budget.units > MAX_BUDGET)
  {
    hide Vint, ClusterLength, SegmentLevel, UnknownSize;
    var offset := 0;
    assert bytes[0..] == bytes;
    assert Onward(bytes, 0) == ClusterLength(bytes);
    while offset < |bytes|
      invariant offset <= |bytes|
      invariant budget.units >= old(budget.units)
      invariant budget.units <= MAX_BUDGET || budget.units == old(budget.units)
      invariant ClusterLength(bytes) == Onward(bytes, offset)
    {
      var step := budget.Step();
      if step.Err? {
        return Err(step.error);
      }
      ghost var here := bytes[offset..];
      ClusterStops(here);
      var id := ReadVint(bytes[offset..], true);
      if id.Err? {
        return Err(id.error);
      }
      if SegmentLevel(id.value.0) {
        return Ok(offset);
      }
      assert here[id.value.1..] == bytes[offset + id.value.1..];
      var size := ReadVint(bytes[offset + id.value.1..], false);
      if size.Err? {
        return Err(size.error);
      }
      ClusterStep(here, id.value.0, id.value.1, size.value.0, size.value.1);
      if size.value.0 == UnknownSize(size.value.1) {
        return Err(UnboundedChild);
      }
      var end := offset + id.value.1 + size.value.1 + size.value.0;
      if end > |bytes| {
        return Err(Truncated);
      }
      OnwardTwice(bytes, offset, end - offset);
      offset := end;
    }
    assert ClusterLength([]) == Ok(0) by { NoCluster(); }
    assert bytes[offset..] == [];
    return Ok(offset);
  }

  /** A run of elements of finite size, none of which belongs directly inside a Segment. */
  predicate ClusterChildren(c: seq<byte>)
    decreases |c|
  {
    c == []
    || (&& Vint(c, true).Ok? && !SegmentLevel(Vint(c, true).value.0)
        && ChildLength(c).Ok? && ClusterChildren(c[ChildLength(c).value..]))
  }

  predicate EndsCluster(rest: seq<byte>) {
    rest == [] || (Vint(rest, true).Ok? && SegmentLevel(Vint(rest, true).value.0))
  }

  lemma ChildPrefix(c: seq<byte>, rest: seq<byte>)
    requires Vint(c, true).Ok? && ChildLength(c).Ok?
    ensures Vint(c + rest, true) == Vint(c, true) && ChildLength(c + rest) == ChildLength(c)
  {
    VintPrefix(c, rest, true);
    var width := Vint(c, true).value.1;
    assert (c + rest)[width..] == c[width..] + rest;
    VintPrefix(c[width..], rest, false);
  }

  /** What the scan reports, exactly: the run of finite children up to the end or a Segment-level element. */
  lemma {:induction false} ClusterLengthExact(bytes: seq<byte>, n: nat)
    requires n <= |bytes|
    ensures ClusterLength(bytes) == Ok(n) <==> ClusterChildren(bytes[..n]) && EndsCluster(bytes[n..])
    decreases |bytes|
  {
    if ClusterLength(bytes) == Ok(n) {
      ClusterLengthSound(bytes);
    }
    if ClusterChildren(bytes[..n]) && EndsCluster(bytes[n..]) {
      ClusterLengthComplete(bytes[..n], bytes[n..]);
      assert bytes == bytes[..n] + bytes[n..];
    }
  }

  lemma {:induction false} ClusterLengthComplete(c: seq<byte>, rest: seq<byte>)
    requires ClusterChildren(c) && EndsCluster(rest)
    ensures ClusterLength(c + rest) == Ok(|c|)
    decreases |c|
  {
    hide Vint, ChildLength;
    if c == [] {
      assert c + rest == rest;
    } else {
      var length := ChildLength(c).value;
      ChildPrefix(c, rest);
      ClusterLengthComplete(c[length..], rest);
      assert (c + rest)[length..] == c[length..] + rest;
    }
  }

  lemma {:induction false} ClusterLengthSound(bytes: seq<byte>)
    requires ClusterLength(bytes).Ok?
    ensures var n := ClusterLength(bytes).value;
      ClusterChildren(bytes[..n]) && EndsCluster(bytes[n..])
    decreases |bytes|
  {
    var n := ClusterLength(bytes).value;
    if n == 0 {
      assert bytes[..0] == [] && bytes[0..] == bytes;
    } else {
      var length := ChildLength(bytes).value;
      ClusterLengthSound(bytes[length..]);
      assert bytes[..n][length..] == bytes[length..][..n - length];
      assert bytes[n..] == bytes[length..][n - length..];
      ChildOfPrefix(bytes, n);
    }
  }

  lemma VintOfPrefix(bytes: seq<byte>, n: nat, id: bool)
    requires Vint(bytes, id).Ok? && Vint(bytes, id).value.1 <= n <= |bytes|
    ensures Vint(bytes[..n], id) == Vint(bytes, id)
  {
    var width := Vint(bytes, id).value.1;
    assert bytes[..n][1..width] == bytes[1..width];
  }

  /** Cutting off bytes behind an element does not change it. */
  lemma ChildOfPrefix(bytes: seq<byte>, n: nat)
    requires Vint(bytes, true).Ok? && ChildLength(bytes).Ok? && ChildLength(bytes).value <= n <= |bytes|
    ensures Vint(bytes[..n], true) == Vint(bytes, true) && ChildLength(bytes[..n]) == ChildLength(bytes)
  {
    hide Vint, UnknownSize;
    var width := Vint(bytes, true).value.1;
    VintOfPrefix(bytes, n, true);
    VintOfPrefix(bytes[width..], n - width, false);
    assert bytes[..n][width..] == bytes[width..][..n - width];
  }
}
