/** The writer and the reader of the media data pipe. */
module MediaDataPipe {
  import opened Bytes
  import opened Outcome
  import opened MediaData

  class MediaDataWriter {
    const session: U64
    const nonce: Nonce
    var output: seq<byte>

    constructor (session: U64, nonce: Nonce)
      ensures this.session == session && this.nonce == nonce && output == []
    {
      this.session, this.nonce := session, nonce;
      output := [];
    }

    method WriteHeader(source: SourceId, offset: U64, flags: U16, length: U32)
      modifies this`output
      ensures output == old(output) + Header(Origin(session, nonce, source), offset, flags, ZEROS, length)
    {
      hide LittleEndian;
      var header := MAGIC + LittleEndian(MAJOR, 2) + LittleEndian(MINOR, 2) + LittleEndian(flags, 2) + [0, 0]
        + LittleEndian(length, 4);
      header := header + LittleEndian(session, 8) + LittleEndian(source, 8) + LittleEndian(offset, 8) + nonce;
      output := output + header;
    }

    method WriteFrame(source: SourceId, offset: U64, flags: U16, payload: seq<byte>) returns (r: Result<(), Error>)
      modifies this`output
      ensures r == if |payload| > MAX_CHUNK_BYTES then Err(ChunkTooLarge) else Ok(())
      ensures r.Err? ==> output == old(output)
      ensures r.Ok? ==>
        output ==
        old(output) + (Header(Origin(session, nonce, source), offset, flags, ZEROS, |payload|) + payload)
    {
      if |payload| > MAX_CHUNK_BYTES {
        return Err(ChunkTooLarge);
      }
      WriteHeader(source, offset, flags, |payload|);
      output := output + payload;
      return Ok(());
    }

    /**
      * A source whose length is permitted goes out whole, and can be read back from where it starts;
      * no other is begun.
      */
    method SendSource(source: SourceId, bytes: seq<byte>) returns (r: Result<(), Error>)
      modifies this`output
      ensures r == if 0 < |bytes| <= 67_108_864 then Ok(()) else Err(InvalidLength)
      ensures r.Err? ==> output == old(output)
      ensures r.Ok? ==> output == old(output) + Wire(Origin(session, nonce, source), bytes)
    {
      hide Header, Remaining, Wire, Spelled, Chunks, LittleEndian;
      if !ValidLength(|bytes|) {
        return Err(InvalidLength);
      }
      ghost var o := Origin(session, nonce, source);
      var offset := 0;
      FromStart(o, bytes);
      while offset < |bytes|
        invariant 0 <= offset <= |bytes|
        invariant output + Remaining(o, bytes, offset) == old(output) + Wire(o, bytes)
      {
        var n := if |bytes| - offset < MAX_CHUNK_BYTES then |bytes| - offset else MAX_CHUNK_BYTES;
        ghost var before := output;
        r := WriteFrame(source, offset, 0, bytes[offset..offset + n]);
        ChunkSent(before, output, o, bytes, offset);
        offset := offset + n;
      }
      ghost var before := output;
      r := WriteFrame(source, offset, FLAG_END, []);
      EndSent(before, output, o, bytes);
    }
  }

  lemma Shift(a: seq<byte>, b: seq<byte>, c: seq<byte>)
    ensures (a + b) + c == a + (b + c)
  {
  }

  /** What is still to be written of a source from `offset` on. */
  ghost function Remaining(o: Origin, bytes: seq<byte>, offset: nat): seq<byte>
    requires offset <= |bytes| < U64_BOUND
  {
    Spelled(Chunks(bytes[offset..]), ZEROS, o, offset)
  }

  lemma FromStart(o: Origin, bytes: seq<byte>)
    requires |bytes| < U64_BOUND
    ensures Remaining(o, bytes, 0) == Wire(o, bytes)
  {
    hide Spelled, Chunks;
    assert bytes[0..] == bytes;
  }

  lemma NextChunk(o: Origin, bytes: seq<byte>, offset: nat)
    requires offset <= |bytes| < U64_BOUND
    ensures var n := if |bytes| - offset < MAX_CHUNK_BYTES then |bytes| - offset else MAX_CHUNK_BYTES;
      Remaining(o, bytes, offset) ==
        if offset == |bytes| then Header(o, offset, FLAG_END, ZEROS, 0) + []
        else Header(o, offset, 0, ZEROS, n) + bytes[offset..offset + n] + Remaining(o, bytes, offset + n)
  {
    hide Header;
    var n := if |bytes| - offset < MAX_CHUNK_BYTES then |bytes| - offset else MAX_CHUNK_BYTES;
    var left := bytes[offset..];
    assert left[..n] == bytes[offset..offset + n] && left[n..] == bytes[offset + n..];
    if offset < |bytes| {
      assert Chunks(left) == [Chunk(ZEROS, left[..n])] + Chunks(left[n..]);
      assert Chunks(left)[1..] == Chunks(left[n..]);
    }
  }

  /** One more chunk is out. */
  lemma ChunkSent(before: seq<byte>, after: seq<byte>, o: Origin, bytes: seq<byte>, offset: nat)
    requires offset < |bytes| < U64_BOUND
    requires var n := if |bytes| - offset < MAX_CHUNK_BYTES then |bytes| - offset else MAX_CHUNK_BYTES;
      after == before + (Header(o, offset, 0, ZEROS, n) + bytes[offset..offset + n])
    ensures var n := if |bytes| - offset < MAX_CHUNK_BYTES then |bytes| - offset else MAX_CHUNK_BYTES;
      after + Remaining(o, bytes, offset + n) == before + Remaining(o, bytes, offset)
  {
    var n := if |bytes| - offset < MAX_CHUNK_BYTES then |bytes| - offset else MAX_CHUNK_BYTES;
    hide Header, Remaining;
    NextChunk(o, bytes, offset);
    Shift(before, Header(o, offset, 0, ZEROS, n) + bytes[offset..offset + n], Remaining(o, bytes, offset + n));
  }

  lemma EndSent(before: seq<byte>, after: seq<byte>, o: Origin, bytes: seq<byte>)
    requires |bytes| < U64_BOUND && after == before + (Header(o, |bytes|, FLAG_END, ZEROS, 0) + [])
    ensures after == before + Remaining(o, bytes, |bytes|)
  {
    hide Header, Remaining;
    NextChunk(o, bytes, |bytes|);
  }

  class MediaDataReader {
    const session: U64
    const nonce: Nonce
    var input: seq<byte>

    constructor (session: U64, nonce: Nonce, input: seq<byte>)
      ensures this.session == session && this.nonce == nonce && this.input == input
    {
      this.session, this.nonce, this.input := session, nonce, input;
    }

    /** Takes exactly `n` bytes; a failure leaves the pipe at an unspecified place. */
    method ReadExact(n: nat) returns (r: Result<seq<byte>, Error>)
      modifies this`input
      ensures r.Ok? <==> n <= |old(input)|
      ensures r.Ok? ==> r.value == old(input)[..n] && input == old(input)[n..]
      ensures r.Err? ==> r.error == Io
    {
      if n > |input| {
        input := [];
        return Err(Io);
      }
      r := Ok(input[..n]);
      input := input[n..];
    }

    /** Reads one announced source; a failed read is final for its callers. */
    method ReadOne(source: SourceId, length: nat) returns (r: Result<seq<byte>, Error>)
      modifies this`input
      ensures match ReadSource(old(input), Origin(session, nonce, source), length)
        case Ok((bytes, rest)) => r == Ok(bytes) && input == rest
        case Err(e) => r == Err(e)
    {
      hide CheckHeader;
      if !ValidLength(length) {
        return Err(InvalidLength);
      }
      var o := Origin(session, nonce, source);
      var bytes: seq<byte> := [];
      while true
        invariant |bytes| <= length
        invariant ReadFrom(input, o, length, bytes) == ReadFrom(old(input), o, length, [])
        decreases |input|
      {
        var header := ReadExact(HEADER_LENGTH);
        if header.Err? {
          return Err(header.error);
        }
        var checked := CheckHeader(header.value, o, |bytes|);
        if checked.Err? {
          return Err(checked.error);
        }
        var flags, n := checked.value.0, checked.value.1;
        if flags == FLAG_END {
          if n != 0 || |bytes| != length {
            return Err(PrematureEnd);
          }
          return Ok(bytes);
        }
        if n == 0 {
          return Err(MissingPayload);
        }
        if n > MAX_CHUNK_BYTES {
          return Err(ChunkTooLarge);
        }
        if n > length - |bytes| {
          return Err(InvalidLength);
        }
        var payload := ReadExact(n);
        if payload.Err? {
          return Err(payload.error);
        }
        bytes := bytes + payload.value;
      }
    }
  }
}
