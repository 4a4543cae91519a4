/** The writer and reader of capture frames, each counting sequence numbers as it goes. */
module CaptureFrames {
  import opened Bytes
  import opened Outcome
  import opened CaptureCodec

  class FrameWriter {
    const session: U64
    var output: seq<byte>
    var nextSequence: U64

    constructor (session: U64)
      ensures this.session == session && output == [] && nextSequence == 1
    {
      this.session := session;
      output, nextSequence := [], 1;
    }

    method WriteFrame(kind: nat, payload: seq<byte>) returns (r: Result<(), Error>)
      modifies this
      ensures |payload| > Maximum(kind == SAMPLE) ==> r == Err(PayloadTooLarge)
      ensures |payload| <= Maximum(kind == SAMPLE) && old(nextSequence) == U64_BOUND - 1 ==> r == Err(SequenceExhausted)
      ensures |payload| <= Maximum(kind == SAMPLE) && old(nextSequence) < U64_BOUND - 1 ==> r.Ok?
      ensures r.Err? ==> output == old(output) && nextSequence == old(nextSequence)
      ensures r.Ok? ==> nextSequence == old(nextSequence) + 1
      ensures r.Ok? ==> output == old(output) + Frame(session, old(nextSequence), kind, payload)
    {
      if |payload| > Maximum(kind == SAMPLE) {
        return Err(PayloadTooLarge);
      }
      var sequence := nextSequence;
      if sequence == U64_BOUND - 1 {
        return Err(SequenceExhausted);
      }
      nextSequence := sequence + 1;
      var header := Header(session, sequence, kind, |payload|);
      output := output + header;
      output := output + payload;
      return Ok(());
    }

    method SendBrowser(m: BrowserMessage) returns (r: Result<(), Error>)
      modifies this
      ensures r.Ok? <==> EncodeBrowser(m).Ok? && old(nextSequence) < U64_BOUND - 1
      ensures r.Err? ==> output == old(output) && nextSequence == old(nextSequence)
      ensures r.Ok? ==> nextSequence == old(nextSequence) + 1 && old(output) <= output
      ensures r.Ok? ==> forall rest ::
        ReadBrowser(output[|old(output)|..] + rest, session, old(nextSequence)) == Ok((m, rest))
    {
      var encoded := EncodeBrowser(m);
      if encoded.Err? {
        return Err(encoded.error);
      }
      r := WriteFrame(encoded.value.0, encoded.value.1);
      if r.Ok? {
        forall rest ensures ReadBrowser(output[|old(output)|..] + rest, session, old(nextSequence)) == Ok((m, rest)) {
          ReadBrowserExact(output[|old(output)|..] + rest, session, old(nextSequence), m, rest);
        }
      }
    }

    method SendWorker(m: WorkerMessage) returns (r: Result<(), Error>)
      modifies this
      ensures r.Ok? <==> EncodeWorker(m).Ok? && old(nextSequence) < U64_BOUND - 1
      ensures r.Err? ==> output == old(output) && nextSequence == old(nextSequence)
      ensures r.Ok? ==> nextSequence == old(nextSequence) + 1 && old(output) <= output
      ensures r.Ok? ==> forall rest ::
        ReadWorker(output[|old(output)|..] + rest, session, old(nextSequence)) == Ok((m, rest))
    {
      var encoded := EncodeWorker(m);
      if encoded.Err? {
        return Err(encoded.error);
      }
      r := WriteFrame(encoded.value.0, encoded.value.1);
      if r.Ok? {
        forall rest ensures ReadWorker(output[|old(output)|..] + rest, session, old(nextSequence)) == Ok((m, rest)) {
          ReadWorkerExact(output[|old(output)|..] + rest, session, old(nextSequence), m, rest);
        }
      }
    }

    method SendSample(s: Sample) returns (r: Result<(), Error>)
      modifies this
      ensures r.Ok? <==> ValidSample(s) && old(nextSequence) < U64_BOUND - 1
      ensures r.Err? ==> output == old(output) && nextSequence == old(nextSequence)
      ensures r.Ok? ==> nextSequence == old(nextSequence) + 1 && old(output) <= output
      ensures r.Ok? ==> forall rest ::
        ReadSample(output[|old(output)|..] + rest, session, old(nextSequence)) == Ok((s, rest))
    {
      hide ValidVideo, ValidAudio, Frame, SamplePrefix;
      var encoded := EncodeSample(s);
      if encoded.Err? {
        return Err(encoded.error);
      }
      r := WriteFrame(encoded.value.0, encoded.value.1);
      if r.Ok? {
        forall rest ensures ReadSample(output[|old(output)|..] + rest, session, old(nextSequence)) == Ok((s, rest)) {
          ReadSampleExact(output[|old(output)|..] + rest, session, old(nextSequence), s, rest);
        }
      }
    }
  }

  class FrameReader {
    const session: U64
    var input: seq<byte>
    var nextSequence: U64

    constructor (session: U64, input: seq<byte>)
      ensures this.session == session && this.input == input && nextSequence == 1
    {
      this.session, this.input := session, input;
      nextSequence := 1;
    }

    /** Takes exactly `n` bytes, or fails leaving the stream at an unspecified place behind where it was. */
    method ReadExact(n: nat) returns (r: Result<seq<byte>, Error>)
      modifies this`input
      ensures r.Ok? <==> n <= |old(input)|
      ensures r.Ok? ==> r.value == old(input)[..n] && input == old(input)[n..]
      ensures r.Err? ==> r.error == Io
    {
      if n > |input| {
        input := [];
        return Err(Io);
      }
      r := Ok(input[..n]);
      input := input[n..];
    }

    /** A failed read is final for its callers, which stop reading; only a successful one says where the stream is. */
    method NextFrame(samplePipe: bool) returns (r: Result<(nat, seq<byte>), Error>)
      modifies this
      ensures match ReadFrame(old(input), session, old(nextSequence), samplePipe)
        case Ok((kind, payload, rest)) => r == Ok((kind, payload)) && input == rest
          && nextSequence == old(nextSequence) + 1
        case Err(e) => r == Err(e)
    {
      hide CheckHeader;
      var header := ReadExact(HEADER_LENGTH);
      if header.Err? {
        return Err(header.error);
      }
      var checked := CheckHeader(header.value, session, nextSequence, samplePipe);
      if checked.Err? {
        return Err(checked.error);
      }
      NotLast(header.value, session, nextSequence, samplePipe);
      nextSequence := nextSequence + 1;
      var length := checked.value.1;
      ghost var stream := old(input);
      assert length <= |stream[HEADER_LENGTH..]| ==>
        && stream[HEADER_LENGTH..][..length] == stream[HEADER_LENGTH..HEADER_LENGTH + length]
        && stream[HEADER_LENGTH..][length..] == stream[HEADER_LENGTH + length..];
      var payload := ReadExact(length);
      if payload.Err? {
        return Err(payload.error);
      }
      return Ok((checked.value.0, payload.value));
    }

    lemma NotLast(h: seq<byte>, session: U64, sequence: U64, samplePipe: bool)
      requires |h| == HEADER_LENGTH && CheckHeader(h, session, sequence, samplePipe).Ok?
      ensures sequence < U64_BOUND - 1
    {
    }

    method NextBrowser() returns (r: Result<BrowserMessage, Error>)
      modifies this
      ensures match ReadBrowser(old(input), session, old(nextSequence))
        case Ok((m, rest)) => r == Ok(m) && input == rest && nextSequence == old(nextSequence) + 1
        case Err(e) => r == Err(e)
    {
      hide ReadFrame, DecodeBrowser;
      var frame := NextFrame(false);
      if frame.Err? {
        return Err(frame.error);
      }
      r := DecodeBrowser(frame.value.0, frame.value.1);
    }

    method NextWorker() returns (r: Result<WorkerMessage, Error>)
      modifies this
      ensures match ReadWorker(old(input), session, old(nextSequence))
        case Ok((m, rest)) => r == Ok(m) && input == rest && nextSequence == old(nextSequence) + 1
        case Err(e) => r == Err(e)
    {
      hide ReadFrame, DecodeWorker;
      var frame := NextFrame(false);
      if frame.Err? {
        return Err(frame.error);
      }
      r := DecodeWorker(frame.value.0, frame.value.1);
    }

    method NextSample() returns (r: Result<Sample, Error>)
      modifies this
      ensures match ReadSample(old(input), session, old(nextSequence))
        case Ok((s, rest)) => r == Ok(s) && input == rest && nextSequence == old(nextSequence) + 1
        case Err(e) => r == Err(e)
    {
      hide ReadFrame, DecodeSample;
      var frame := NextFrame(true);
      if frame.Err? {
        return Err(frame.error);
      }
      r := DecodeSample(frame.value.0, frame.value.1);
    }
  }
}
