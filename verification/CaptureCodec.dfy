/** The sequenced frame codec between the browser and the capture process, as functions on bytes. */
module CaptureCodec {
  import opened Bytes
  import opened Outcome

  const MAGIC: seq<byte> := [0x42, 0x52, 0x43, 0x31]    // "BRC1"
  const HEADER_LENGTH := 32
  const PROTOCOL_MAJOR: nat := 1
  const PROTOCOL_MINOR: nat := 0
  const MAX_CONTROL_BYTES := 64
  const MAX_SAMPLE_BYTES := 2 * 1024 * 1024
  const SAMPLE_PREFIX_BYTES := 49

  const MAX_VIDEO_WIDTH := 1280
  const MAX_VIDEO_HEIGHT := 720
  const MAX_AUDIO_CHANNELS := 2
  const MAX_AUDIO_RATE := 48_000
  const MAX_AUDIO_FRAMES := 960

  const HELLO: nat := 1
  const START: nat := 2
  const STOP: nat := 3
  const SHUTDOWN: nat := 4
  const READY: nat := 5
  const STARTED: nat := 6
  const STOPPED: nat := 7
  const FAILED: nat := 8
  const SHUTDOWN_COMPLETE: nat := 9
  const SAMPLE: nat := 10

  datatype Error =
    | Io
    | InvalidMagic
    | IncompatibleVersion
    | InvalidFlags
    | PayloadTooLarge
    | WrongSession
    | WrongSequence
    | SequenceExhausted
    | UnexpectedMessage
    | InvalidPayload

  datatype Devices = Devices(camera: bool, microphone: bool)

  datatype Failure = NoDevice | AccessDenied | DeviceBusy | InvalidFormat | Internal

  datatype Containment = Containment(
    appContainer: bool, noConsoleWindow: bool, minimalEnvironment: bool, cameraCapability: bool,
      microphoneCapability: bool)

  datatype BrowserMessage =
    | Hello(nonce: seq<byte>, devices: Devices)
    | Start(captureId: U64)
    | Stop(captureId: U64)
    | Shutdown

  datatype WorkerMessage =
    | Ready(nonce: seq<byte>, containment: Containment)
    | Started(captureId: U64)
    | Stopped(captureId: U64)
    | Failed(captureId: U64, reason: Failure)
    | ShutdownComplete

  datatype SampleKind = VideoNv12 | AudioPcm16

  datatype Sample = Sample(
    captureId: U64, trackId: U64, sequence: U64, timestamp: U64, kind: SampleKind,
    widthOrRate: U32, heightOrFrames: U32, strideOrChannels: U32, bytes: seq<byte>)

  // ---------- Samples ----------

  /** The shape arithmetic of a video frame: half a byte of chroma per byte of luma, rows possibly padded. */
  predicate ValidVideo(width: U32, height: U32, stride: U32, length: nat) {
    && 0 < width <= MAX_VIDEO_WIDTH && 0 < height <= MAX_VIDEO_HEIGHT
    && width % 2 == 0 && height % 2 == 0
    && width <= stride <= MAX_VIDEO_WIDTH * 4 && stride % 2 == 0
    && length * 2 % (stride * 3) == 0
    && height <= length * 2 / (stride * 3) <= MAX_VIDEO_HEIGHT + 64
    && length * 2 / (stride * 3) % 2 == 0
  }

  predicate ValidAudio(rate: U32, frames: U32, channels: U32, length: nat) {
    && 8_000 <= rate <= MAX_AUDIO_RATE
    && 0 < frames <= MAX_AUDIO_FRAMES
    && 0 < channels <= MAX_AUDIO_CHANNELS
    && frames * 1_000 <= rate * 20
    && length == frames * channels * 2
  }

  predicate ValidSample(s: Sample) {
    && s.captureId != 0 && s.trackId != 0 && s.sequence != 0
    && 0 < |s.bytes| <= MAX_SAMPLE_BYTES
    && match s.kind
       case VideoNv12 => ValidVideo(s.widthOrRate, s.heightOrFrames, s.strideOrChannels, |s.bytes|)
       case AudioPcm16 => ValidAudio(s.widthOrRate, s.heightOrFrames, s.strideOrChannels, |s.bytes|)
  }

  // ---------- Payloads ----------

  function DeviceBits(d: Devices): byte {
    (if d.camera then 1 else 0) + (if d.microphone then 2 else 0)
  }

  function FromDeviceBits(bits: byte): Result<Devices, Error> {
    if bits == 0 || bits > 3 then Err(InvalidPayload) else Ok(Devices(bits % 2 == 1, bits / 2 == 1))
  }

  function Flag(b: bool): byte {
    if b then 1 else 0
  }

  function FailureCode(f: Failure): byte {
    match f
    case NoDevice => 1
    case AccessDenied => 2
    case DeviceBusy => 3
    case InvalidFormat => 4
    case Internal => 5
  }

  function FromFailureCode(code: byte): Result<Failure, Error> {
    match code
    case 1 => Ok(NoDevice)
    case 2 => Ok(AccessDenied)
    case 3 => Ok(DeviceBusy)
    case 4 => Ok(InvalidFormat)
    case 5 => Ok(Internal)
    case _ => Err(InvalidPayload)
  }

  function KindCode(k: SampleKind): byte {
    match k
    case VideoNv12 => 1
    case AudioPcm16 => 2
  }

  function IdPayload(kind: nat, captureId: U64): Result<(nat, seq<byte>), Error> {
    if captureId == 0 then Err(InvalidPayload) else Ok((kind, LittleEndian(captureId, 8)))
  }

  function EncodeBrowser(m: BrowserMessage): Result<(nat, seq<byte>), Error> {
    match m
    case Hello(nonce, devices) =>
      if |nonce| != 32 || (!devices.camera && !devices.microphone) then Err(InvalidPayload)
      else Ok((HELLO, nonce + [DeviceBits(devices)]))
    case Start(captureId) => IdPayload(START, captureId)
    case Stop(captureId) => IdPayload(STOP, captureId)
    case Shutdown => Ok((SHUTDOWN, []))
  }

  function Flags(c: Containment): seq<byte> {
    [Flag(c.appContainer), Flag(c.noConsoleWindow), Flag(c.minimalEnvironment), Flag(c.cameraCapability),
      Flag(c.microphoneCapability)]
  }

  function EncodeWorker(m: WorkerMessage): Result<(nat, seq<byte>), Error> {
    match m
    case Ready(nonce, containment) =>
      if |nonce| != 32 then Err(InvalidPayload) else Ok((READY, nonce + Flags(containment)))
    case Started(captureId) => IdPayload(STARTED, captureId)
    case Stopped(captureId) => IdPayload(STOPPED, captureId)
    case Failed(captureId, reason) =>
      if captureId == 0 then Err(InvalidPayload) else Ok((FAILED, LittleEndian(captureId, 8) + [FailureCode(reason)]))
    case ShutdownComplete => Ok((SHUTDOWN_COMPLETE, []))
  }

  function SamplePrefix(s: Sample): (r: seq<byte>)
    requires |s.bytes| < U32_BOUND
    ensures |r| == SAMPLE_PREFIX_BYTES
  {
    LittleEndian(s.captureId, 8) + LittleEndian(s.trackId, 8) + LittleEndian(s.sequence, 8)
      + LittleEndian(s.timestamp, 8)
    + [KindCode(s.kind)]
    + LittleEndian(s.widthOrRate, 4) + LittleEndian(s.heightOrFrames, 4) + LittleEndian(s.strideOrChannels, 4)
    + LittleEndian(|s.bytes|, 4)
  }

  function EncodeSample(s: Sample): Result<(nat, seq<byte>), Error> {
    if !ValidSample(s) then Err(InvalidPayload) else Ok((SAMPLE, SamplePrefix(s) + s.bytes))
  }

  function U64At(bytes: seq<byte>, offset: nat): U64
    requires offset + 8 <= |bytes|
  {
    RadixValues();
    FromLittleEndian(bytes[offset..offset + 8])
  }

  function U32At(bytes: seq<byte>, offset: nat): U32
    requires offset + 4 <= |bytes|
  {
    RadixValues();
    FromLittleEndian(bytes[offset..offset + 4])
  }

  function U16At(bytes: seq<byte>, offset: nat): U16
    requires offset + 2 <= |bytes|
  {
    RadixValues();
    FromLittleEndian(bytes[offset..offset + 2])
  }

  function IdAt(bytes: seq<byte>): Result<U64, Error>
    requires |bytes| >= 8
  {
    if U64At(bytes, 0) == 0 then Err(InvalidPayload) else Ok(U64At(bytes, 0))
  }

  function DecodeBrowser(kind: nat, bytes: seq<byte>): Result<BrowserMessage, Error> {
    if kind == HELLO && |bytes| == 33 then
      match FromDeviceBits(bytes[32])
      case Err(e) => Err(e)
      case Ok(devices) => Ok(Hello(bytes[..32], devices))
    else if (kind == START || kind == STOP) && |bytes| == 8 then
      match IdAt(bytes)
      case Err(e) => Err(e)
      case Ok(id) => Ok(if kind == START then Start(id) else Stop(id))
    else if kind == SHUTDOWN && bytes == [] then Ok(Shutdown)
    else Err(InvalidPayload)
  }

  function DecodeWorker(kind: nat, bytes: seq<byte>): Result<WorkerMessage, Error> {
    if kind == READY && |bytes| == 37 then
      if bytes[32] > 1 || bytes[33] > 1 || bytes[34] > 1 || bytes[35] > 1 || bytes[36] > 1 then Err(InvalidPayload)
      else Ok(Ready(bytes[..32],
        Containment(bytes[32] == 1, bytes[33] == 1, bytes[34] == 1, bytes[35] == 1, bytes[36] == 1)))
    else if (kind == STARTED || kind == STOPPED) && |bytes| == 8 then
      match IdAt(bytes)
      case Err(e) => Err(e)
      case Ok(id) => Ok(if kind == STARTED then Started(id) else Stopped(id))
    else if kind == FAILED && |bytes| == 9 then
      match FromFailureCode(bytes[8])
      case Err(e) => Err(e)
      case Ok(reason) =>
        match IdAt(bytes)
        case Err(e) => Err(e)
        case Ok(id) => Ok(Failed(id, reason))
    else if kind == SHUTDOWN_COMPLETE && bytes == [] then Ok(ShutdownComplete)
    else Err(InvalidPayload)
  }

  function SampleAt(bytes: seq<byte>): Sample
    requires |bytes| >= SAMPLE_PREFIX_BYTES
  {
    Sample(U64At(bytes, 0), U64At(bytes, 8), U64At(bytes, 16), U64At(bytes, 24),
           if bytes[32] == 1 then VideoNv12 else AudioPcm16,
           U32At(bytes, 33), U32At(bytes, 37), U32At(bytes, 41), bytes[SAMPLE_PREFIX_BYTES..])
  }

  function DecodeSample(kind: nat, bytes: seq<byte>): Result<Sample, Error> {
    if kind != SAMPLE || |bytes| < SAMPLE_PREFIX_BYTES then Err(InvalidPayload)
    else if bytes[32] != 1 && bytes[32] != 2 then Err(InvalidPayload)
    else if |bytes| - SAMPLE_PREFIX_BYTES != U32At(bytes, 45) then Err(InvalidPayload)
    else if !ValidSample(SampleAt(bytes)) then Err(InvalidPayload)
    else Ok(SampleAt(bytes))
  }

  // ---------- Frames ----------

  function Maximum(samplePipe: bool): nat {
    if samplePipe then SAMPLE_PREFIX_BYTES + MAX_SAMPLE_BYTES else MAX_CONTROL_BYTES
  }

  /** The header's fields behind the magic. */
  function Header(session: U64, sequence: U64, kind: nat, length: nat): (r: seq<byte>)
    ensures |r| == HEADER_LENGTH
  {
    MAGIC + LittleEndian(PROTOCOL_MAJOR, 2) + LittleEndian(PROTOCOL_MINOR, 2) + LittleEndian(kind, 2)
      + LittleEndian(0, 2)
    + LittleEndian(length, 4) + LittleEndian(session, 8) + LittleEndian(sequence, 8)
  }

  function Frame(session: U64, sequence: U64, kind: nat, payload: seq<byte>): seq<byte> {
    Header(session, sequence, kind, |payload|) + payload
  }

  /** Which frames may travel on a pipe. */
  predicate Sendable(samplePipe: bool, kind: nat, payload: seq<byte>) {
    HELLO <= kind <= SAMPLE && (kind == SAMPLE <==> samplePipe) && |payload| <= Maximum(samplePipe)
  }

  /** The checks on a header, in the order they are made; on success, kind and payload length. */
  function CheckHeader(h: seq<byte>, session: U64, sequence: U64, samplePipe: bool): Result<(nat, nat), Error>
    requires |h| == HEADER_LENGTH
  {
    if h[..4] != MAGIC then Err(InvalidMagic)
    else if U16At(h, 4) != PROTOCOL_MAJOR || U16At(h, 6) > PROTOCOL_MINOR then Err(IncompatibleVersion)
    else if (U16At(h, 8) == SAMPLE) != samplePipe || U16At(h, 8) < HELLO || U16At(h, 8) > SAMPLE then
      Err(UnexpectedMessage)
    else if U16At(h, 10) != 0 then Err(InvalidFlags)
    else if U32At(h, 12) > Maximum(samplePipe) then Err(PayloadTooLarge)
    else if U64At(h, 16) != session then Err(WrongSession)
    else if U64At(h, 24) != sequence then Err(WrongSequence)
    else if sequence == U64_BOUND - 1 then Err(SequenceExhausted)
    else Ok((U16At(h, 8), U32At(h, 12)))
  }

  /** Reads one frame; on success also what is left of the stream. */
  function ReadFrame(stream: seq<byte>, session: U64, sequence: U64,
      samplePipe: bool): (r: Result<(nat, seq<byte>, seq<byte>), Error>)
    ensures r.Ok? ==> sequence < U64_BOUND - 1
  {
    if |stream| < HEADER_LENGTH then Err(Io)
    else
      match CheckHeader(stream[..HEADER_LENGTH], session, sequence, samplePipe)
      case Err(e) => Err(e)
      case Ok((kind, length)) =>
        if |stream| < HEADER_LENGTH + length then Err(Io)
        else Ok((kind, stream[HEADER_LENGTH..HEADER_LENGTH + length], stream[HEADER_LENGTH + length..]))
  }

  // ---------- Fields ----------

  lemma HeaderParts(h: seq<byte>, a: seq<byte>, b: seq<byte>, c: seq<byte>, d: seq<byte>, e: seq<byte>, f: seq<byte>,
      g: seq<byte>)
    requires |h| == HEADER_LENGTH && |a| == |b| == |c| == |d| == 2 && |e| == 4 && |f| == |g| == 8
    ensures h == MAGIC + a + b + c + d + e + f + g <==>
      h[..4] == MAGIC && h[4..6] == a && h[6..8] == b && h[8..10] == c && h[10..12] == d && h[12..16] == e
      && h[16..24] == f && h[24..32] == g
  {
    var whole := MAGIC + a + b + c + d + e + f + g;
    if h == whole {
      assert h[4..6] == a && h[6..8] == b && h[8..10] == c && h[10..12] == d && h[12..16] == e && h[16..24] == f
        && h[24..32] == g;
    }
    assert h == h[..4] + h[4..6] + h[6..8] + h[8..10] + h[10..12] + h[12..16] + h[16..24] + h[24..32];
  }

  /** A header passes the checks exactly when it is the header of a frame this reader expects. */
  lemma HeaderExact(h: seq<byte>, session: U64, sequence: U64, samplePipe: bool, kind: nat, length: nat)
    requires |h| == HEADER_LENGTH && kind < U16_BOUND && length < U32_BOUND
    ensures CheckHeader(h, session, sequence, samplePipe) == Ok((kind, length)) <==>
      && h == Header(session, sequence, kind, length)
      && HELLO <= kind <= SAMPLE && (kind == SAMPLE <==> samplePipe) && length <= Maximum(samplePipe)
      && sequence < U64_BOUND - 1
  {
    RadixValues();
    FieldExact(h[4..6], PROTOCOL_MAJOR);
    FieldExact(h[6..8], PROTOCOL_MINOR);
    FieldExact(h[8..10], kind);
    FieldExact(h[10..12], 0);
    FieldExact(h[12..16], length);
    FieldExact(h[16..24], session);
    FieldExact(h[24..32], sequence);
    HeaderParts(h, LittleEndian(PROTOCOL_MAJOR, 2), LittleEndian(PROTOCOL_MINOR, 2), LittleEndian(kind, 2),
                LittleEndian(0, 2),
                LittleEndian(length, 4), LittleEndian(session, 8), LittleEndian(sequence, 8));
    hide LittleEndian, FromLittleEndian, Radix;
  }

  /** The frame codec is exact: a stream reads as this frame if and only if it starts with this frame's bytes. */
  lemma FrameExact(stream: seq<byte>, session: U64, sequence: U64, samplePipe: bool, kind: nat, payload: seq<byte>,
      rest: seq<byte>)
    ensures ReadFrame(stream, session, sequence, samplePipe) == Ok((kind, payload, rest)) <==>
      Sendable(samplePipe, kind, payload) && sequence < U64_BOUND - 1
        && stream == Frame(session, sequence, kind, payload) + rest
  {
    hide CheckHeader, Header;
    if ReadFrame(stream, session, sequence, samplePipe) == Ok((kind, payload, rest)) {
      var h := stream[..HEADER_LENGTH];
      var (k, length) := CheckHeader(h, session, sequence, samplePipe).value;
      HeaderNumbers(h, session, sequence, samplePipe);
      HeaderExact(h, session, sequence, samplePipe, kind, |payload|);
      assert stream == h + (payload + rest);
      assert stream == h + payload + rest;
    }
    if Sendable(samplePipe, kind, payload) && sequence < U64_BOUND - 1
      && stream == Frame(session, sequence, kind, payload) + rest
    {
      var h := Header(session, sequence, kind, |payload|);
      assert stream[..HEADER_LENGTH] == h;
      HeaderExact(h, session, sequence, samplePipe, kind, |payload|);
      assert stream[HEADER_LENGTH..HEADER_LENGTH + |payload|] == payload;
      assert stream[HEADER_LENGTH + |payload|..] == rest;
    }
  }

  lemma HeaderNumbers(h: seq<byte>, session: U64, sequence: U64, samplePipe: bool)
    requires |h| == HEADER_LENGTH && CheckHeader(h, session, sequence, samplePipe).Ok?
    ensures var (kind, length) := CheckHeader(h, session, sequence, samplePipe).value;
      kind <= SAMPLE && length <= Maximum(samplePipe)
  {
  }

  // ---------- Messages ----------

  lemma IdExact(bytes: seq<byte>, id: U64)
    requires |bytes| == 8
    ensures U64At(bytes, 0) == id <==> bytes == LittleEndian(id, 8)
  {
    RadixValues();
    assert bytes[0..8] == bytes;
    FieldExact(bytes, id);
  }

  /** Decoding and encoding browser messages are inverse to each other. */
  lemma BrowserExact(kind: nat, bytes: seq<byte>, m: BrowserMessage)
    ensures DecodeBrowser(kind, bytes) == Ok(m) <==> EncodeBrowser(m) == Ok((kind, bytes))
  {
    hide LittleEndian, FromLittleEndian;
    if |bytes| == 8 {
      IdExact(bytes, U64At(bytes, 0));
      if m.Start? || m.Stop? { IdExact(bytes, m.captureId); }
    }
    if |bytes| == 33 {
      assert bytes == bytes[..32] + [bytes[32]];
    }
    if m.Hello? && |m.nonce| == 32 {
      assert (m.nonce + [DeviceBits(m.devices)])[..32] == m.nonce;
    }
  }

  /** Decoding and encoding worker messages are inverse to each other. */
  lemma WorkerExact(kind: nat, bytes: seq<byte>, m: WorkerMessage)
    ensures DecodeWorker(kind, bytes) == Ok(m) <==> EncodeWorker(m) == Ok((kind, bytes))
  {
    hide LittleEndian, FromLittleEndian;
    if |bytes| == 8 {
      IdExact(bytes, U64At(bytes, 0));
      if m.Started? || m.Stopped? { IdExact(bytes, m.captureId); }
    }
    if |bytes| == 9 {
      assert bytes == bytes[..8] + [bytes[8]] && bytes[..8][0..8] == bytes[0..8];
      IdExact(bytes[..8], U64At(bytes, 0));
    }
    if m.Failed? {
      IdExact(LittleEndian(m.captureId, 8), m.captureId);
      var encoded := LittleEndian(m.captureId, 8) + [FailureCode(m.reason)];
      assert encoded[0..8] == LittleEndian(m.captureId, 8)[0..8];
    }
    if |bytes| == 37 {
      assert bytes == bytes[..32] + [bytes[32], bytes[33], bytes[34], bytes[35], bytes[36]];
    }
    if m.Ready? && |m.nonce| == 32 {
      assert (m.nonce + Flags(m.containment))[..32] == m.nonce;
    }
  }

  lemma SampleParts(p: seq<byte>, a: seq<byte>, b: seq<byte>, c: seq<byte>, d: seq<byte>, k: byte,
                    e: seq<byte>, f: seq<byte>, g: seq<byte>, h: seq<byte>)
    requires |p| == SAMPLE_PREFIX_BYTES && |a| == |b| == |c| == |d| == 8 && |e| == |f| == |g| == |h| == 4
    ensures p == a + b + c + d + [k] + e + f + g + h <==>
      p[0..8] == a && p[8..16] == b && p[16..24] == c && p[24..32] == d && p[32] == k
      && p[33..37] == e && p[37..41] == f && p[41..45] == g && p[45..49] == h
  {
    assert p == p[0..8] + p[8..16] + p[16..24] + p[24..32] + [p[32]] + p[33..37] + p[37..41] + p[41..45] + p[45..49];
    var whole := a + b + c + d + [k] + e + f + g + h;
    if p == whole {
      assert p[0..8] == a && p[8..16] == b && p[16..24] == c && p[24..32] == d;
      assert p[33..37] == e && p[37..41] == f && p[41..45] == g && p[45..49] == h;
    }
  }

  /** A sample's prefix spells its fields, and nothing else does. */
  lemma PrefixExact(bytes: seq<byte>, s: Sample)
    requires |bytes| >= SAMPLE_PREFIX_BYTES && |s.bytes| < U32_BOUND
    ensures bytes == SamplePrefix(s) + s.bytes <==>
      && U64At(bytes, 0) == s.captureId && U64At(bytes, 8) == s.trackId && U64At(bytes, 16) == s.sequence
      && U64At(bytes, 24) == s.timestamp && bytes[32] == KindCode(s.kind)
      && U32At(bytes, 33) == s.widthOrRate && U32At(bytes, 37) == s.heightOrFrames
        && U32At(bytes, 41) == s.strideOrChannels
      && U32At(bytes, 45) == |s.bytes| && bytes[SAMPLE_PREFIX_BYTES..] == s.bytes
  {
    RadixValues();
    var p := bytes[..SAMPLE_PREFIX_BYTES];
    FieldExact(bytes[0..8], s.captureId);
    FieldExact(bytes[8..16], s.trackId);
    FieldExact(bytes[16..24], s.sequence);
    FieldExact(bytes[24..32], s.timestamp);
    FieldExact(bytes[33..37], s.widthOrRate);
    FieldExact(bytes[37..41], s.heightOrFrames);
    FieldExact(bytes[41..45], s.strideOrChannels);
    FieldExact(bytes[45..49], |s.bytes|);
    hide LittleEndian, FromLittleEndian, Radix, KindCode;
    PrefixSlices(bytes, p);
    SampleParts(p, LittleEndian(s.captureId, 8), LittleEndian(s.trackId, 8), LittleEndian(s.sequence, 8),
                LittleEndian(s.timestamp, 8),
                KindCode(s.kind), LittleEndian(s.widthOrRate, 4), LittleEndian(s.heightOrFrames, 4),
                LittleEndian(s.strideOrChannels, 4), LittleEndian(|s.bytes|, 4));
    Halves(bytes, SamplePrefix(s), s.bytes);
  }

  lemma PrefixSlices(bytes: seq<byte>, p: seq<byte>)
    requires |bytes| >= SAMPLE_PREFIX_BYTES && p == bytes[..SAMPLE_PREFIX_BYTES]
    ensures p[0..8] == bytes[0..8] && p[8..16] == bytes[8..16] && p[16..24] == bytes[16..24]
      && p[24..32] == bytes[24..32]
    ensures p[33..37] == bytes[33..37] && p[37..41] == bytes[37..41] && p[41..45] == bytes[41..45]
      && p[45..49] == bytes[45..49]
  {
  }

  lemma Halves(s: seq<byte>, a: seq<byte>, b: seq<byte>)
    requires |a| <= |s|
    ensures s == a + b <==> s[..|a|] == a && s[|a|..] == b
  {
    assert s == s[..|a|] + s[|a|..];
  }

  /** Decoding and encoding samples are inverse to each other. */
  lemma SampleExact(kind: nat, bytes: seq<byte>, s: Sample)
    ensures DecodeSample(kind, bytes) == Ok(s) <==> EncodeSample(s) == Ok((kind, bytes))
  {
    hide ValidVideo, ValidAudio, SamplePrefix, U64At, U32At;
    if DecodeSample(kind, bytes) == Ok(s) {
      PrefixExact(bytes, s);
    }
    if EncodeSample(s) == Ok((kind, bytes)) {
      PrefixExact(bytes, s);
    }
  }

  // ---------- Whole messages on a stream ----------

  function ReadBrowser(stream: seq<byte>, session: U64, sequence: U64): Result<(BrowserMessage, seq<byte>), Error> {
    match ReadFrame(stream, session, sequence, false)
    case Err(e) => Err(e)
    case Ok((kind, payload, rest)) =>
      match DecodeBrowser(kind, payload)
      case Err(e) => Err(e)
      case Ok(m) => Ok((m, rest))
  }

  function ReadWorker(stream: seq<byte>, session: U64, sequence: U64): Result<(WorkerMessage, seq<byte>), Error> {
    match ReadFrame(stream, session, sequence, false)
    case Err(e) => Err(e)
    case Ok((kind, payload, rest)) =>
      match DecodeWorker(kind, payload)
      case Err(e) => Err(e)
      case Ok(m) => Ok((m, rest))
  }

  function ReadSample(stream: seq<byte>, session: U64, sequence: U64): Result<(Sample, seq<byte>), Error> {
    match ReadFrame(stream, session, sequence, true)
    case Err(e) => Err(e)
    case Ok((kind, payload, rest)) =>
      match DecodeSample(kind, payload)
      case Err(e) => Err(e)
      case Ok(s) => Ok((s, rest))
  }

  /** The bytes of a message at a sequence number, if it can be sent at all. */
  ghost predicate Spells(stream: seq<byte>, session: U64, sequence: U64, encoded: Result<(nat, seq<byte>), Error>,
      rest: seq<byte>)
  {
    encoded.Ok? && sequence < U64_BOUND - 1
      && stream == Frame(session, sequence, encoded.value.0, encoded.value.1) + rest
  }

  /** A stream reads as a browser message exactly when it starts with the frame the writer makes of it. */
  lemma ReadBrowserExact(stream: seq<byte>, session: U64, sequence: U64, m: BrowserMessage, rest: seq<byte>)
    ensures ReadBrowser(stream, session, sequence) == Ok((m, rest)) <==>
      Spells(stream, session, sequence, EncodeBrowser(m), rest)
  {
    hide Frame, DecodeBrowser;
    if ReadBrowser(stream, session, sequence) == Ok((m, rest)) {
      var (kind, payload, _) := ReadFrame(stream, session, sequence, false).value;
      FrameExact(stream, session, sequence, false, kind, payload, rest);
      BrowserExact(kind, payload, m);
    }
    if EncodeBrowser(m).Ok? {
      var (kind, payload) := EncodeBrowser(m).value;
      FrameExact(stream, session, sequence, false, kind, payload, rest);
      BrowserExact(kind, payload, m);
    }
  }

  lemma ReadWorkerExact(stream: seq<byte>, session: U64, sequence: U64, m: WorkerMessage, rest: seq<byte>)
    ensures ReadWorker(stream, session, sequence) == Ok((m, rest)) <==>
      Spells(stream, session, sequence, EncodeWorker(m), rest)
  {
    hide Frame, DecodeWorker;
    if ReadWorker(stream, session, sequence) == Ok((m, rest)) {
      var (kind, payload, _) := ReadFrame(stream, session, sequence, false).value;
      FrameExact(stream, session, sequence, false, kind, payload, rest);
      WorkerExact(kind, payload, m);
    }
    if EncodeWorker(m).Ok? {
      var (kind, payload) := EncodeWorker(m).value;
      FrameExact(stream, session, sequence, false, kind, payload, rest);
      WorkerExact(kind, payload, m);
    }
  }

  lemma ReadSampleExact(stream: seq<byte>, session: U64, sequence: U64, s: Sample, rest: seq<byte>)
    ensures ReadSample(stream, session, sequence) == Ok((s, rest)) <==>
      Spells(stream, session, sequence, EncodeSample(s), rest)
  {
    hide Frame, DecodeSample, ValidVideo, ValidAudio;
    if ReadSample(stream, session, sequence) == Ok((s, rest)) {
      var (kind, payload, _) := ReadFrame(stream, session, sequence, true).value;
      FrameExact(stream, session, sequence, true, kind, payload, rest);
      SampleExact(kind, payload, s);
    }
    if EncodeSample(s).Ok? {
      var (kind, payload) := EncodeSample(s).value;
      FrameExact(stream, session, sequence, true, kind, payload, rest);
      SampleExact(kind, payload, s);
    }
  }

  // ---------- Runs of frames ----------

  /** What a writer puts on a sample pipe for these samples, numbering on from `sequence`. */
  function SampleFrames(samples: seq<Sample>, session: U64, sequence: nat): seq<byte>
    requires sequence + |samples| < U64_BOUND
  {
    if samples == [] then []
    else
      (if EncodeSample(samples[0]).Ok? then Frame(session, sequence, SAMPLE, EncodeSample(samples[0]).value.1) else [])
      + SampleFrames(samples[1..], session, sequence + 1)
  }

  function ReadSamples(stream: seq<byte>, session: U64, sequence: nat,
      count: nat): Result<(seq<Sample>, seq<byte>), Error>
    requires sequence + count < U64_BOUND
  {
    if count == 0 then Ok(([], stream))
    else
      match ReadSample(stream, session, sequence)
      case Err(e) => Err(e)
      case Ok((s, rest)) =>
        match ReadSamples(rest, session, sequence + 1, count - 1)
        case Err(e) => Err(e)
        case Ok((more, left)) => Ok(([s] + more, left))
  }

  /** Reading back what was written returns the same samples in order and leaves what came after them. */
  lemma {:induction false} SamplesRoundTrip(samples: seq<Sample>, session: U64, sequence: nat, rest: seq<byte>)
    requires sequence + |samples| < U64_BOUND && forall i :: 0 <= i < |samples| ==> ValidSample(samples[i])
    ensures ReadSamples(SampleFrames(samples, session, sequence) + rest, session, sequence, |samples|) ==
      Ok((samples, rest))
    decreases |samples|
  {
    hide Frame, EncodeSample, ReadSample, ValidSample;
    var stream := SampleFrames(samples, session, sequence) + rest;
    if samples != [] {
      var later := SampleFrames(samples[1..], session, sequence + 1) + rest;
      assert EncodeSample(samples[0]).Ok? && EncodeSample(samples[0]).value.0 == SAMPLE by { ValidEncodes(samples[0]); }
      assert stream == Frame(session, sequence, SAMPLE, EncodeSample(samples[0]).value.1) + later;
      ReadSampleExact(stream, session, sequence, samples[0], later);
      SamplesRoundTrip(samples[1..], session, sequence + 1, rest);
      assert samples == [samples[0]] + samples[1..];
    } else {
      assert stream == rest;
    }
  }

  lemma ValidEncodes(s: Sample)
    ensures EncodeSample(s).Ok? <==> ValidSample(s)
    ensures EncodeSample(s).Ok? ==> EncodeSample(s).value.0 == SAMPLE
  {
  }
}
