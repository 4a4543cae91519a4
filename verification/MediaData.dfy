/**
  * Encoded media on its own pipe: each source is cut into framed chunks at contiguous offsets and put
  * together again.
  */
module MediaData {
  import opened Bytes
  import opened Outcome

  const MAGIC: seq<byte> := [0x42, 0x52, 0x44, 0x31]    // "BRD1"
  const HEADER_LENGTH: nat := 72
  const MAJOR: nat := 1
  const MINOR: nat := 0
  const FLAG_END: nat := 1
  const MAX_CHUNK_BYTES: nat := 256 * 1024
  const MAX_ENCODED_BYTES: nat := 64 * 1024 * 1024

  datatype Error =
    | Io
    | InvalidMagic
    | IncompatibleVersion
    | InvalidFlags
    | WrongSession
    | WrongNonce
    | WrongSource
    | WrongOffset
    | InvalidLength
    | ChunkTooLarge
    | MissingPayload
    | PrematureEnd

  type Nonce = s: seq<byte> | |s| == 32 witness seq(32, _ => 0)

  /** A source identity is never zero. */
  type SourceId = n: int | 0 < n < 0x1_0000_0000_0000_0000 witness 1

  /** Whose bytes a frame carries. */
  datatype Origin = Origin(session: U64, nonce: Nonce, source: SourceId)

  predicate ValidLength(length: nat) {
    0 < length <= MAX_ENCODED_BYTES
  }

  // ---------- Frames ----------

  /** A header; the writer leaves the two reserved bytes zero and the reader does not look at them. */
  function Header(o: Origin, offset: U64, flags: U16, reserved: seq<byte>, length: U32): (h: seq<byte>)
    requires |reserved| == 2
    ensures |h| == HEADER_LENGTH
  {
    MAGIC + LittleEndian(MAJOR, 2) + LittleEndian(MINOR, 2) + LittleEndian(flags, 2) + reserved
      + LittleEndian(length, 4)
    + LittleEndian(o.session, 8) + LittleEndian(o.source, 8) + LittleEndian(offset, 8) + o.nonce
  }

  /** The flags and length of a header this reader expects, or why it refuses it. */
  function CheckHeader(h: seq<byte>, o: Origin, offset: U64): Result<(nat, nat), Error>
    requires |h| == HEADER_LENGTH
  {
    if h[..4] != MAGIC then Err(InvalidMagic)
    else if FromLittleEndian(h[4..6]) != MAJOR || FromLittleEndian(h[6..8]) > MINOR then Err(IncompatibleVersion)
    else if FromLittleEndian(h[8..10]) != 0 && FromLittleEndian(h[8..10]) != FLAG_END then Err(InvalidFlags)
    else if FromLittleEndian(h[16..24]) != o.session then Err(WrongSession)
    else if h[40..72] != o.nonce then Err(WrongNonce)
    else if FromLittleEndian(h[24..32]) != o.source then Err(WrongSource)
    else if FromLittleEndian(h[32..40]) != offset then Err(WrongOffset)
    else Ok((FromLittleEndian(h[8..10]), FromLittleEndian(h[12..16])))
  }

  lemma HeaderParts(h: seq<byte>, a: seq<byte>, b: seq<byte>, c: seq<byte>, d: seq<byte>, e: seq<byte>,
                    f: seq<byte>, g: seq<byte>, i: seq<byte>, n: seq<byte>)
    requires |h| == HEADER_LENGTH && |a| == |b| == |c| == |d| == 2 && |e| == 4 && |f| == |g| == |i| == 8 && |n| == 32
    ensures h == MAGIC + a + b + c + d + e + f + g + i + n <==>
      h[..4] == MAGIC && h[4..6] == a && h[6..8] == b && h[8..10] == c && h[10..12] == d && h[12..16] == e
      && h[16..24] == f && h[24..32] == g && h[32..40] == i && h[40..72] == n
  {
    var whole := MAGIC + a + b + c + d + e + f + g + i + n;
    if h == whole {
      assert h[4..6] == a && h[6..8] == b && h[8..10] == c && h[10..12] == d && h[12..16] == e;
      assert h[16..24] == f && h[24..32] == g && h[32..40] == i && h[40..72] == n;
    }
    assert h == h[..4] + h[4..6] + h[6..8] + h[8..10] + h[10..12] + h[12..16] + h[16..24] + h[24..32] + h[32..40]
      + h[40..72];
  }

  /** A header passes exactly when it is the writer's header for that place, whatever its reserved bytes are. */
  lemma HeaderExact(h: seq<byte>, o: Origin, offset: U64, flags: U16, length: U32)
    requires |h| == HEADER_LENGTH
    ensures CheckHeader(h, o, offset) == Ok((flags, length)) <==>
      (flags == 0 || flags == FLAG_END) && h == Header(o, offset, flags, h[10..12], length)
  {
    RadixValues();
    FieldExact(h[4..6], MAJOR);
    FieldExact(h[6..8], MINOR);
    FieldExact(h[8..10], flags);
    FieldExact(h[12..16], length);
    FieldExact(h[16..24], o.session);
    FieldExact(h[24..32], o.source);
    FieldExact(h[32..40], offset);
    hide LittleEndian, FromLittleEndian, Radix;
    HeaderParts(h, LittleEndian(MAJOR, 2), LittleEndian(MINOR, 2), LittleEndian(flags, 2), h[10..12],
                LittleEndian(length, 4),
                LittleEndian(o.session, 8), LittleEndian(o.source, 8), LittleEndian(offset, 8), o.nonce);
  }

  /** A header is 72 bytes, field by field; the reserved ones stand behind the flags. */
  lemma HeaderLayout(h: seq<byte>, o: Origin, offset: U64, flags: U16, reserved: seq<byte>, length: U32)
    requires |reserved| == 2
    ensures h == Header(o, offset, flags, reserved, length) <==>
      && |h| == 72 && h[..4] == [0x42, 0x52, 0x44, 0x31]
      && FromLittleEndian(h[4..6]) == 1 && FromLittleEndian(h[6..8]) == 0
      && FromLittleEndian(h[8..10]) == flags && h[10..12] == reserved
      && FromLittleEndian(h[12..16]) == length && FromLittleEndian(h[16..24]) == o.session
      && FromLittleEndian(h[24..32]) == o.source && FromLittleEndian(h[32..40]) == offset && h[40..72] == o.nonce
  {
    if |h| == 72 {
      RadixValues();
      FieldExact(h[4..6], 1);
      FieldExact(h[6..8], 0);
      FieldExact(h[8..10], flags);
      FieldExact(h[12..16], length);
      FieldExact(h[16..24], o.session);
      FieldExact(h[24..32], o.source);
      FieldExact(h[32..40], offset);
      hide LittleEndian, FromLittleEndian, Radix;
      HeaderParts(h, LittleEndian(1, 2), LittleEndian(0, 2), LittleEndian(flags, 2), reserved,
                  LittleEndian(length, 4),
                  LittleEndian(o.session, 8), LittleEndian(o.source, 8), LittleEndian(offset, 8), o.nonce);
    }
  }

  lemma CheckedNumbers(h: seq<byte>, o: Origin, offset: U64)
    requires |h| == HEADER_LENGTH && CheckHeader(h, o, offset).Ok?
    ensures CheckHeader(h, o, offset).value.0 <= FLAG_END && CheckHeader(h, o, offset).value.1 < U32_BOUND
  {
    RadixValues();
  }

  // ---------- One source on the pipe ----------

  /** A chunk as it travels: its payload under a header with two reserved bytes. */
  datatype Chunk = Chunk(reserved: seq<byte>, payload: seq<byte>)

  predicate ValidChunk(c: Chunk) {
    |c.reserved| == 2 && 0 < |c.payload| <= MAX_CHUNK_BYTES
  }

  predicate ValidChunks(chunks: seq<Chunk>) {
    forall i :: 0 <= i < |chunks| ==> ValidChunk(chunks[i])
  }

  function Payload(chunks: seq<Chunk>): seq<byte> {
    if chunks == [] then [] else chunks[0].payload + Payload(chunks[1..])
  }

  /** The bytes of these chunks and of the end frame after them, from `offset` on. */
  function Spelled(chunks: seq<Chunk>, tail: seq<byte>, o: Origin, offset: nat): seq<byte>
    requires ValidChunks(chunks) && |tail| == 2 && offset + |Payload(chunks)| < U64_BOUND
  {
    if chunks == [] then Header(o, offset, FLAG_END, tail, 0)
    else
      Header(o, offset, 0, chunks[0].reserved, |chunks[0].payload|) + chunks[0].payload
      + Spelled(chunks[1..], tail, o, offset + |chunks[0].payload|)
  }

  const ZEROS: seq<byte> := [0, 0]

  /** What the writer cuts a source into: full chunks, and one shorter one at the end. */
  function Chunks(bytes: seq<byte>): (chunks: seq<Chunk>)
    ensures ValidChunks(chunks) && Payload(chunks) == bytes
    decreases |bytes|
  {
    if bytes == [] then []
    else
      var n := if |bytes| < MAX_CHUNK_BYTES then |bytes| else MAX_CHUNK_BYTES;
      assert bytes == bytes[..n] + bytes[n..];
      var chunks := [Chunk(ZEROS, bytes[..n])] + Chunks(bytes[n..]);
      assert chunks[1..] == Chunks(bytes[n..]);
      chunks
  }

  /** The wire form of one source. */
  function Wire(o: Origin, bytes: seq<byte>): seq<byte>
    requires |bytes| < U64_BOUND
  {
    Spelled(Chunks(bytes), ZEROS, o, 0)
  }

  /** The reader's loop: what is left to read, and what it has so far of a source of `length` bytes. */
  function ReadFrom(stream: seq<byte>, o: Origin, length: nat, sofar: seq<byte>): Result<(seq<byte>, seq<byte>), Error>
    requires |sofar| <= length <= MAX_ENCODED_BYTES
    decreases |stream|
  {
    if |stream| < HEADER_LENGTH then Err(Io)
    else
      var body := stream[HEADER_LENGTH..];
      match CheckHeader(stream[..HEADER_LENGTH], o, |sofar|)
      case Err(e) => Err(e)
      case Ok((flags, n)) =>
        if flags == FLAG_END then
          if n != 0 || |sofar| != length then Err(PrematureEnd) else Ok((sofar, body))
        else if n == 0 then Err(MissingPayload)
        else if n > MAX_CHUNK_BYTES then Err(ChunkTooLarge)
        else if n > length - |sofar| then Err(InvalidLength)
        else if n > |body| then Err(Io)
        else ReadFrom(body[n..], o, length, sofar + body[..n])
  }

  function ReadSource(stream: seq<byte>, o: Origin, length: nat): Result<(seq<byte>, seq<byte>), Error> {
    if !ValidLength(length) then Err(InvalidLength) else ReadFrom(stream, o, length, [])
  }

  // ---------- What is accepted ----------

  lemma FrameFront(h: seq<byte>, p: seq<byte>, later: seq<byte>)
    requires |h| == HEADER_LENGTH
    ensures var s := h + p + later;
      s[..HEADER_LENGTH] == h && s[HEADER_LENGTH..][..|p|] == p && s[HEADER_LENGTH..][|p|..] == later
  {
  }

  /** Every spelling of the declared number of bytes is read, and read as those bytes. */
  lemma {:induction false} SpelledReads(chunks: seq<Chunk>, tail: seq<byte>, o: Origin, length: nat, sofar: seq<byte>,
      rest: seq<byte>)
    requires ValidChunks(chunks) && |tail| == 2 && |sofar| + |Payload(chunks)| == length <= MAX_ENCODED_BYTES
    ensures ReadFrom(Spelled(chunks, tail, o, |sofar|) + rest, o, length, sofar) == Ok((sofar + Payload(chunks), rest))
    decreases |chunks|
  {
    hide Header, CheckHeader;
    var stream := Spelled(chunks, tail, o, |sofar|) + rest;
    if chunks == [] {
      var h := Header(o, |sofar|, FLAG_END, tail, 0);
      ReservedAt(o, |sofar|, FLAG_END, tail, 0);
      HeaderExact(h, o, |sofar|, FLAG_END, 0);
      assert stream[..HEADER_LENGTH] == h && stream[HEADER_LENGTH..] == rest;
      assert sofar + [] == sofar;
    } else {
      var c := chunks[0];
      var h := Header(o, |sofar|, 0, c.reserved, |c.payload|);
      var later := Spelled(chunks[1..], tail, o, |sofar| + |c.payload|) + rest;
      assert stream == h + c.payload + later;
      FrameFront(h, c.payload, later);
      ReservedAt(o, |sofar|, 0, c.reserved, |c.payload|);
      HeaderExact(h, o, |sofar|, 0, |c.payload|);
      SpelledReads(chunks[1..], tail, o, length, sofar + c.payload, rest);
      assert sofar + c.payload + Payload(chunks[1..]) == sofar + Payload(chunks);
    }
  }

  lemma ReservedAt(o: Origin, offset: U64, flags: U16, reserved: seq<byte>, length: U32)
    requires |reserved| == 2
    ensures Header(o, offset, flags, reserved, length)[10..12] == reserved
  {
    hide LittleEndian;
  }

  ghost predicate IsSpelling(stream: seq<byte>, o: Origin, offset: nat, bytes: seq<byte>, rest: seq<byte>,
      chunks: seq<Chunk>, tail: seq<byte>)
  {
    && ValidChunks(chunks) && |tail| == 2 && Payload(chunks) == bytes && offset + |bytes| < U64_BOUND
    && stream == Spelled(chunks, tail, o, offset) + rest
  }

  lemma SpellingEnd(h: seq<byte>, body: seq<byte>, o: Origin, offset: U64)
    requires |h| == HEADER_LENGTH && h == Header(o, offset, FLAG_END, h[10..12], 0)
    ensures IsSpelling(h + body, o, offset, [], body, [], h[10..12])
  {
    hide Header;
  }

  lemma SpellingCons(h: seq<byte>, p: seq<byte>, later: seq<byte>, o: Origin, offset: nat, bytes: seq<byte>,
                     rest: seq<byte>,
                     more: seq<Chunk>, tail: seq<byte>)
    requires |h| == HEADER_LENGTH && 0 < |p| <= MAX_CHUNK_BYTES && offset + |p| + |bytes| < U64_BOUND
    requires h == Header(o, offset, 0, h[10..12], |p|) && IsSpelling(later, o, offset + |p|, bytes, rest, more, tail)
    ensures IsSpelling(h + p + later, o, offset, p + bytes, rest, [Chunk(h[10..12], p)] + more, tail)
  {
    hide Header;
    var chunks := [Chunk(h[10..12], p)] + more;
    assert chunks[1..] == more;
    assert Spelled(chunks, tail, o, offset) == h + p + Spelled(more, tail, o, offset + |p|);
    assert h + p + (Spelled(more, tail, o, offset + |p|) + rest) == h + p + Spelled(more, tail, o, offset + |p|) + rest;
  }

  /** Whatever is read was spelled: contiguous chunks of the declared total length and one end frame. */
  lemma {:induction false} ReadWasSpelled(stream: seq<byte>, o: Origin, length: nat, sofar: seq<byte>)
      returns (chunks: seq<Chunk>, tail: seq<byte>)
    requires |sofar| <= length <= MAX_ENCODED_BYTES && ReadFrom(stream, o, length, sofar).Ok?
    ensures var (bytes, rest) := ReadFrom(stream, o, length, sofar).value;
      |bytes| == length && sofar <= bytes && IsSpelling(stream, o, |sofar|, bytes[|sofar|..], rest, chunks, tail)
    decreases |stream|
  {
    hide Header, CheckHeader, IsSpelling;
    var (bytes, rest) := ReadFrom(stream, o, length, sofar).value;
    var h, body := stream[..HEADER_LENGTH], stream[HEADER_LENGTH..];
    var (flags, n) := CheckHeader(h, o, |sofar|).value;
    CheckedNumbers(h, o, |sofar|);
    HeaderExact(h, o, |sofar|, flags, n);
    assert stream == h + body;
    if flags == FLAG_END {
      chunks, tail := [], h[10..12];
      SpellingEnd(h, body, o, |sofar|);
      assert bytes[|sofar|..] == [];
    } else {
      var p := body[..n];
      var more;
      more, tail := ReadWasSpelled(body[n..], o, length, sofar + p);
      chunks := [Chunk(h[10..12], p)] + more;
      SpellingCons(h, p, body[n..], o, |sofar|, bytes[|sofar + p|..], rest, more, tail);
      assert bytes[|sofar|..] == p + bytes[|sofar + p|..];
      assert stream == h + p + body[n..];
    }
  }

  /** The reader accepts exactly the spellings of a source of the declared, permitted length. */
  lemma ReadSourceExact(stream: seq<byte>, o: Origin, length: nat, bytes: seq<byte>, rest: seq<byte>)
    ensures ReadSource(stream, o, length) == Ok((bytes, rest)) <==>
      ValidLength(length) && |bytes| == length
        && exists chunks, tail :: IsSpelling(stream, o, 0, bytes, rest, chunks, tail)
  {
    hide ReadFrom, Spelled;
    if ReadSource(stream, o, length) == Ok((bytes, rest)) {
      var chunks, tail := ReadWasSpelled(stream, o, length, []);
      assert bytes[0..] == bytes;
    }
    if ValidLength(length) && |bytes| == length
      && exists chunks, tail :: IsSpelling(stream, o, 0, bytes, rest, chunks, tail)
    {
      var chunks, tail :| IsSpelling(stream, o, 0, bytes, rest, chunks, tail);
      SpelledReads(chunks, tail, o, length, [], rest);
      assert [] + bytes == bytes;
    }
  }

  // ---------- Truncation ----------

  /** Bytes after a source never change how it is read. */
  lemma {:induction false} ReadIgnoresRest(stream: seq<byte>, extra: seq<byte>, o: Origin, length: nat,
      sofar: seq<byte>)
    requires |sofar| <= length <= MAX_ENCODED_BYTES && ReadFrom(stream, o, length, sofar).Ok?
    ensures ReadFrom(stream + extra, o, length, sofar)
      == Ok((ReadFrom(stream, o, length, sofar).value.0, ReadFrom(stream, o, length, sofar).value.1 + extra))
    decreases |stream|
  {
    hide CheckHeader;
    var h, body := stream[..HEADER_LENGTH], stream[HEADER_LENGTH..];
    assert (stream + extra)[..HEADER_LENGTH] == h && (stream + extra)[HEADER_LENGTH..] == body + extra;
    var (flags, n) := CheckHeader(h, o, |sofar|).value;
    CheckedNumbers(h, o, |sofar|);
    if flags != FLAG_END {
      assert (body + extra)[..n] == body[..n] && (body + extra)[n..] == body[n..] + extra;
      ReadIgnoresRest(body[n..], extra, o, length, sofar + body[..n]);
    }
  }

  /** Cutting off any part of a source's frames makes the read fail. */
  lemma TruncationRejected(stream: seq<byte>, missing: seq<byte>, o: Origin, length: nat)
    requires ReadSource(stream + missing, o, length).Ok?
      && |ReadSource(stream + missing, o, length).value.1| < |missing|
    ensures ReadSource(stream, o, length).Err?
  {
    if ReadSource(stream, o, length).Ok? {
      ReadIgnoresRest(stream, missing, o, length, []);
    }
  }

  /** No strict prefix of a source's wire form is accepted as that source or as any other. */
  lemma PrefixRejected(o: Origin, bytes: seq<byte>, cut: nat, length: nat)
    requires ValidLength(|bytes|) && cut < |Wire(o, bytes)|
    ensures ReadSource(Wire(o, bytes)[..cut], o, length).Err?
  {
    hide ReadFrom, Wire;
    var wire := Wire(o, bytes);
    assert wire == wire[..cut] + wire[cut..];
    if ReadSource(wire[..cut], o, length).Ok? {
      ReadIgnoresRest(wire[..cut], wire[cut..], o, length, []);
      SourceRoundTrip(o, bytes, []);
      assert wire + [] == wire;
      LengthFixed(wire, o, length, |bytes|);
    }
  }

  /** The bytes of a pipe fix the length of the source at its head. */
  lemma LengthFixed(stream: seq<byte>, o: Origin, a: nat, b: nat)
    requires ReadSource(stream, o, a).Ok? && ReadSource(stream, o, b).Ok?
    ensures ReadSource(stream, o, a) == ReadSource(stream, o, b)
  {
    LongerFixed(stream, o, a, b, []);
  }

  lemma {:induction false} LongerFixed(stream: seq<byte>, o: Origin, a: nat, b: nat, sofar: seq<byte>)
    requires |sofar| <= a <= MAX_ENCODED_BYTES && |sofar| <= b <= MAX_ENCODED_BYTES
    requires ReadFrom(stream, o, a, sofar).Ok? && ReadFrom(stream, o, b, sofar).Ok?
    ensures ReadFrom(stream, o, a, sofar) == ReadFrom(stream, o, b, sofar)
    decreases |stream|
  {
    hide CheckHeader;
    var h, body := stream[..HEADER_LENGTH], stream[HEADER_LENGTH..];
    var (flags, n) := CheckHeader(h, o, |sofar|).value;
    CheckedNumbers(h, o, |sofar|);
    if flags != FLAG_END {
      LongerFixed(body[n..], o, a, b, sofar + body[..n]);
    }
  }

  // ---------- Round trips ----------

  /** What the writer writes of a source is read back as that source, and nothing after it is touched. */
  lemma SourceRoundTrip(o: Origin, bytes: seq<byte>, rest: seq<byte>)
    requires ValidLength(|bytes|)
    ensures ReadSource(Wire(o, bytes) + rest, o, |bytes|) == Ok((bytes, rest))
  {
    hide ReadFrom, Spelled;
    SpelledReads(Chunks(bytes), ZEROS, o, |bytes|, [], rest);
    assert [] + bytes == bytes;
  }

  datatype Source = Source(id: SourceId, bytes: seq<byte>)

  predicate ValidSources(sources: seq<Source>) {
    forall i :: 0 <= i < |sources| ==> ValidLength(|sources[i].bytes|)
  }

  /** Several sources one after the other on one pipe. */
  function WireAll(session: U64, nonce: Nonce, sources: seq<Source>): seq<byte>
    requires ValidSources(sources)
  {
    if sources == [] then []
    else Wire(Origin(session, nonce, sources[0].id), sources[0].bytes) + WireAll(session, nonce, sources[1..])
  }

  /** Reads as many sources as are announced, each with its identity and length. */
  function ReadAll(stream: seq<byte>, session: U64, nonce: Nonce,
      announced: seq<(SourceId, nat)>): Result<(seq<seq<byte>>, seq<byte>), Error>
    decreases |announced|
  {
    if announced == [] then Ok(([], stream))
    else
      match ReadSource(stream, Origin(session, nonce, announced[0].0), announced[0].1)
      case Err(e) => Err(e)
      case Ok((bytes, rest)) =>
        match ReadAll(rest, session, nonce, announced[1..])
        case Err(e) => Err(e)
        case Ok((more, left)) => Ok(([bytes] + more, left))
  }

  function Announced(sources: seq<Source>): seq<(SourceId, nat)> {
    seq(|sources|, i requires 0 <= i < |sources| => (sources[i].id, |sources[i].bytes|))
  }

  function Contents(sources: seq<Source>): seq<seq<byte>> {
    seq(|sources|, i requires 0 <= i < |sources| => sources[i].bytes)
  }

  /** Every list of sources is read back unchanged from one pipe, and exactly its frames are consumed. */
  lemma {:induction false} SourcesRoundTrip(session: U64, nonce: Nonce, sources: seq<Source>, rest: seq<byte>)
    requires ValidSources(sources)
    ensures ReadAll(WireAll(session, nonce, sources) + rest, session, nonce, Announced(sources)) ==
      Ok((Contents(sources), rest))
    decreases |sources|
  {
    hide ReadSource, Wire;
    var stream := WireAll(session, nonce, sources) + rest;
    if sources == [] {
      assert stream == rest && Announced(sources) == [] && Contents(sources) == [];
    } else {
      var o := Origin(session, nonce, sources[0].id);
      var later := WireAll(session, nonce, sources[1..]) + rest;
      assert stream == Wire(o, sources[0].bytes) + later;
      SourceRoundTrip(o, sources[0].bytes, later);
      SourcesRoundTrip(session, nonce, sources[1..], rest);
      assert Announced(sources)[1..] == Announced(sources[1..]);
      assert Contents(sources) == [sources[0].bytes] + Contents(sources[1..]);
    }
  }
}
