/**
  * Where the fields of capture frames and payloads stand, read back from the bytes; and which shapes
  * a sample may have.
  */
module CaptureLayout {
  import opened Bytes
  import opened Outcome
  import opened CaptureCodec

  /** A frame is 32 bytes of header, field by field, and its payload. */
  lemma FrameLayout(s: seq<byte>, session: U64, sequence: U64, kind: U16, payload: seq<byte>)
    requires |payload| < U32_BOUND
    ensures s == Frame(session, sequence, kind, payload) <==>
      && |s| == 32 + |payload| && s[..4] == [0x42, 0x52, 0x43, 0x31]
      && FromLittleEndian(s[4..6]) == 1 && FromLittleEndian(s[6..8]) == 0
      && FromLittleEndian(s[8..10]) == kind && FromLittleEndian(s[10..12]) == 0
      && FromLittleEndian(s[12..16]) == |payload|
      && FromLittleEndian(s[16..24]) == session && FromLittleEndian(s[24..32]) == sequence
      && s[32..] == payload
  {
    if |s| == 32 + |payload| {
      var h := s[..32];
      HeaderLayout(h, session, sequence, kind, |payload|);
      HeaderSlices(s, h);
      hide Header, FromLittleEndian;
      Halves(s, Header(session, sequence, kind, |payload|), payload);
    }
  }

  lemma HeaderSlices(s: seq<byte>, h: seq<byte>)
    requires |s| >= 32 && h == s[..32]
    ensures h[..4] == s[..4] && h[4..6] == s[4..6] && h[6..8] == s[6..8] && h[8..10] == s[8..10]
    ensures h[10..12] == s[10..12] && h[12..16] == s[12..16] && h[16..24] == s[16..24] && h[24..32] == s[24..32]
  {
  }

  lemma HeaderLayout(h: seq<byte>, session: U64, sequence: U64, kind: U16, length: U32)
    requires |h| == 32
    ensures h == Header(session, sequence, kind, length) <==>
      && h[..4] == [0x42, 0x52, 0x43, 0x31]
      && FromLittleEndian(h[4..6]) == 1 && FromLittleEndian(h[6..8]) == 0
      && FromLittleEndian(h[8..10]) == kind && FromLittleEndian(h[10..12]) == 0
      && FromLittleEndian(h[12..16]) == length
      && FromLittleEndian(h[16..24]) == session && FromLittleEndian(h[24..32]) == sequence
  {
    RadixValues();
    FieldExact(h[4..6], 1);
    FieldExact(h[6..8], 0);
    FieldExact(h[8..10], kind);
    FieldExact(h[10..12], 0);
    FieldExact(h[12..16], length);
    FieldExact(h[16..24], session);
    FieldExact(h[24..32], sequence);
    hide LittleEndian, FromLittleEndian, Radix;
    HeaderParts(h, LittleEndian(1, 2), LittleEndian(0, 2), LittleEndian(kind, 2), LittleEndian(0, 2),
                LittleEndian(length, 4), LittleEndian(session, 8), LittleEndian(sequence, 8));
  }

  /** The payload of a sample: four numbers of eight bytes, its kind, four of four bytes, and its data. */
  lemma SampleLayout(s: Sample, kind: nat, p: seq<byte>)
    ensures EncodeSample(s) == Ok((kind, p)) <==>
      && ValidSample(s) && kind == 10 && |p| == 49 + |s.bytes|
      && FromLittleEndian(p[0..8]) == s.captureId && FromLittleEndian(p[8..16]) == s.trackId
      && FromLittleEndian(p[16..24]) == s.sequence && FromLittleEndian(p[24..32]) == s.timestamp
      && p[32] == (if s.kind.VideoNv12? then 1 else 2)
      && FromLittleEndian(p[33..37]) == s.widthOrRate && FromLittleEndian(p[37..41]) == s.heightOrFrames
      && FromLittleEndian(p[41..45]) == s.strideOrChannels && FromLittleEndian(p[45..49]) == |s.bytes|
      && p[49..] == s.bytes
  {
    hide ValidVideo, ValidAudio, FromLittleEndian, LittleEndian;
    if ValidSample(s) && |p| == 49 + |s.bytes| {
      PrefixExact(p, s);
    }
  }

  /** The payload of what the browser says. */
  lemma BrowserLayout(m: BrowserMessage, kind: nat, p: seq<byte>)
    ensures EncodeBrowser(m) == Ok((kind, p)) <==>
      match m
      case Hello(nonce, d) =>
        && |nonce| == 32 && (d.camera || d.microphone) && kind == 1 && |p| == 33 && p[..32] == nonce
        && p[32] == (if d.camera then 1 else 0) + (if d.microphone then 2 else 0)
      case Start(id) => id != 0 && kind == 2 && |p| == 8 && FromLittleEndian(p) == id
      case Stop(id) => id != 0 && kind == 3 && |p| == 8 && FromLittleEndian(p) == id
      case Shutdown => kind == 4 && p == []
  {
    hide LittleEndian, FromLittleEndian;
    match m
    case Hello(nonce, d) =>
      if |nonce| == 32 && |p| == 33 {
        Halves(p, nonce, [DeviceBits(d)]);
      }
    case Start(id) => IdLayout(p, id);
    case Stop(id) => IdLayout(p, id);
    case Shutdown =>
  }

  lemma IdLayout(p: seq<byte>, id: U64)
    ensures p == LittleEndian(id, 8) <==> |p| == 8 && FromLittleEndian(p) == id
  {
    RadixValues();
    if |p| == 8 {
      FieldExact(p, id);
    }
  }

  /** The payload of what the child says. */
  lemma WorkerLayout(m: WorkerMessage, kind: nat, p: seq<byte>)
    ensures EncodeWorker(m) == Ok((kind, p)) <==>
      match m
      case Ready(nonce, c) =>
        && |nonce| == 32 && kind == 5 && |p| == 37 && p[..32] == nonce
        && p[32] == (if c.appContainer then 1 else 0) && p[33] == (if c.noConsoleWindow then 1 else 0)
        && p[34] == (if c.minimalEnvironment then 1 else 0) && p[35] == (if c.cameraCapability then 1 else 0)
        && p[36] == (if c.microphoneCapability then 1 else 0)
      case Started(id) => id != 0 && kind == 6 && |p| == 8 && FromLittleEndian(p) == id
      case Stopped(id) => id != 0 && kind == 7 && |p| == 8 && FromLittleEndian(p) == id
      case Failed(id, reason) =>
        && id != 0 && kind == 8 && |p| == 9 && FromLittleEndian(p[..8]) == id
        && p[8] == (match reason
                    case NoDevice => 1
                    case AccessDenied => 2
                    case DeviceBusy => 3
                    case InvalidFormat => 4
                    case Internal => 5)
      case ShutdownComplete => kind == 9 && p == []
  {
    hide LittleEndian, FromLittleEndian, Flags;
    match m
    case Ready(nonce, c) => FlagsLayout(p, nonce, c);
    case Started(id) => IdLayout(p, id);
    case Stopped(id) => IdLayout(p, id);
    case Failed(id, reason) => FailedLayout(p, id, FailureCode(reason));
    case ShutdownComplete =>
  }

  lemma FlagsLayout(p: seq<byte>, nonce: seq<byte>, c: Containment)
    ensures p == nonce + Flags(c) && |nonce| == 32 <==>
      && |nonce| == 32 && |p| == 37 && p[..32] == nonce
      && p[32] == (if c.appContainer then 1 else 0) && p[33] == (if c.noConsoleWindow then 1 else 0)
      && p[34] == (if c.minimalEnvironment then 1 else 0) && p[35] == (if c.cameraCapability then 1 else 0)
      && p[36] == (if c.microphoneCapability then 1 else 0)
  {
    if |nonce| == 32 && |p| == 37 {
      Halves(p, nonce, Flags(c));
    }
  }

  lemma FailedLayout(p: seq<byte>, id: U64, code: byte)
    ensures p == LittleEndian(id, 8) + [code] <==> |p| == 9 && FromLittleEndian(p[..8]) == id && p[8] == code
  {
    if |p| == 9 {
      IdLayout(p[..8], id);
      hide LittleEndian, FromLittleEndian;
      Halves(p, LittleEndian(id, 8), [code]);
    }
  }

  // ---------- Shapes ----------

  /**
    * A frame fits its picture, with an even number of rows, half a byte of chroma for every byte of
    * luma and nothing left over.
    */
  ghost predicate PictureShape(s: Sample) {
    && 0 < s.widthOrRate <= 1280 && 0 < s.heightOrFrames <= 720
    && s.widthOrRate % 2 == 0 && s.heightOrFrames % 2 == 0 && s.strideOrChannels % 2 == 0
    && s.widthOrRate <= s.strideOrChannels <= 5120
    && exists rows: nat :: s.heightOrFrames <= rows <= 784 && rows % 2 == 0 && HoldsRows(s, rows)
  }

  ghost predicate HoldsRows(s: Sample, rows: nat) {
    2 * |s.bytes| == 3 * s.strideOrChannels * rows
  }

  /** At most twenty milliseconds of one or two channels of two bytes each. */
  predicate SoundShape(s: Sample) {
    && 8_000 <= s.widthOrRate <= 48_000 && 0 < s.heightOrFrames <= 960 && 1 <= s.strideOrChannels <= 2
    && 50 * s.heightOrFrames <= s.widthOrRate
    && |s.bytes| == 2 * s.strideOrChannels * s.heightOrFrames
  }

  lemma QuotientBelow(a: nat, b: nat, n: nat)
    requires b > 0
    ensures a / b < n <==> a < n * b
  {
    var q := a / b;
    assert a == q * b + a % b;
    if n <= q {
      assert n * b <= q * b;
    } else {
      assert n * b >= (q + 1) * b == q * b + b;
    }
  }

  lemma Divides(length: nat, unit: nat, rows: nat)
    requires unit > 0 && length == rows * unit
    ensures length % unit == 0 && length / unit == rows
  {
    QuotientBelow(length, unit, rows);
    QuotientBelow(length, unit, rows + 1);
    assert (rows + 1) * unit == rows * unit + unit;
    assert length == (length / unit) * unit + length % unit;
  }

  lemma RowsOf(length: nat, unit: nat)
    requires unit > 0 && length % unit == 0
    ensures length == unit * (length / unit)
  {
  }

  /** The division that counts the rows is the search for them. */
  lemma RowsExact(s: Sample, least: nat, most: nat)
    requires s.strideOrChannels > 0
    ensures var length, unit := |s.bytes| * 2, s.strideOrChannels * 3;
      (length % unit == 0 && least <= length / unit <= most && length / unit % 2 == 0) <==>
      exists rows: nat :: least <= rows <= most && rows % 2 == 0 && HoldsRows(s, rows)
  {
    var length, unit := |s.bytes| * 2, s.strideOrChannels * 3;
    if length % unit == 0 {
      RowsOf(length, unit);
      assert HoldsRows(s, length / unit);
    }
    forall rows: nat | HoldsRows(s, rows) ensures length % unit == 0 && length / unit == rows {
      assert length == rows * unit;
      Divides(length, unit, rows);
    }
  }

  lemma PictureExact(s: Sample)
    requires s.kind.VideoNv12?
    ensures ValidVideo(s.widthOrRate, s.heightOrFrames, s.strideOrChannels, |s.bytes|) <==> PictureShape(s)
  {
    hide HoldsRows;
    if s.strideOrChannels > 0 {
      RowsExact(s, s.heightOrFrames, 784);
    }
  }

  lemma SoundExact(s: Sample)
    ensures ValidAudio(s.widthOrRate, s.heightOrFrames, s.strideOrChannels, |s.bytes|) <==> SoundShape(s)
  {
    var frames: int, channels: int := s.heightOrFrames, s.strideOrChannels;
    assert frames * channels * 2 == 2 * channels * frames;
  }

  /** The samples that are let through are those of a possible shape. */
  lemma ValidExactly(s: Sample)
    ensures ValidSample(s) <==>
      && s.captureId != 0 && s.trackId != 0 && s.sequence != 0 && 0 < |s.bytes| <= 2_097_152
      && (if s.kind.VideoNv12? then PictureShape(s) else SoundShape(s))
  {
    hide ValidVideo, ValidAudio, PictureShape, SoundShape;
    if s.kind.VideoNv12? {
      PictureExact(s);
    } else {
      SoundExact(s);
    }
  }
}
