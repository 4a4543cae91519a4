/** The browser's bounded collection of capture samples, and the child's bounded queue in front of the pipe. */
module CaptureMailbox {
  import opened Bytes
  import opened Outcome
  import opened CaptureCodec

  const MAX_AUDIO_PACKETS := 8
  const MAX_PENDING_SAMPLES := 2

  datatype PushError = InvalidSample | UnauthorizedGeneration | OutsideGrant | OrderRegressed | AudioOverflow

  datatype Mailbox = Mailbox(
    devices: Devices,
    captureId: Option<U64>,
    video: Option<Sample>,
    audio: seq<Sample>,
    videoSequence: nat,
    audioSequence: nat,
    videoTimestamp: nat,
    audioTimestamp: nat,
    retired: bool,
    failed: bool)

  function NewMailbox(devices: Devices): Mailbox {
    Mailbox(devices, None, None, [], 0, 0, 0, 0, false, false)
  }

  predicate Granted(d: Devices, s: Sample) {
    match s.kind
    case VideoNv12 => d.camera && s.trackId == 1
    case AudioPcm16 => d.microphone && s.trackId == 2
  }

  predicate Regresses(m: Mailbox, s: Sample) {
    var (sequence, timestamp) := if s.kind.VideoNv12? then (m.videoSequence, m.videoTimestamp)
      else (m.audioSequence, m.audioTimestamp);
    s.sequence <= sequence || (s.sequence > 1 && s.timestamp < timestamp)
  }

  /** The mailbox and verdict after a sample arrives; the order marks move even when the queue then overflows. */
  function Push(m: Mailbox, s: Sample): (Mailbox, Result<(), PushError>) {
    if !ValidSample(s) then (m, Err(InvalidSample))
    else if m.retired then (m, Ok(()))
    else if m.captureId != Some(s.captureId) then (m, Err(UnauthorizedGeneration))
    else if !Granted(m.devices, s) then (m, Err(OutsideGrant))
    else if Regresses(m, s) then (m, Err(OrderRegressed))
    else
      match s.kind
      case VideoNv12 => (m.(videoSequence := s.sequence, videoTimestamp := s.timestamp, video := Some(s)), Ok(()))
      case AudioPcm16 =>
        var marked := m.(audioSequence := s.sequence, audioTimestamp := s.timestamp);
        if |m.audio| == MAX_AUDIO_PACKETS then (marked, Err(AudioOverflow))
        else (marked.(audio := m.audio + [s]), Ok(()))
  }

  /** A frame of the assigned capture on the track of the camera, which was granted. */
  predicate FromCamera(d: Devices, captureId: Option<U64>, s: Sample) {
    s.kind.VideoNv12? && captureId == Some(s.captureId) && d.camera && s.trackId == 1
  }

  /** A packet of the assigned capture on the track of the microphone, which was granted. */
  predicate FromMicrophone(d: Devices, captureId: Option<U64>, s: Sample) {
    s.kind.AudioPcm16? && captureId == Some(s.captureId) && d.microphone && s.trackId == 2
  }

  /**
    * Everything stored is of the assigned capture, from a granted device and on that device's track,
    * and at most eight audio packets wait, in order.
    */
  ghost predicate Sound(m: Mailbox) {
    && |m.audio| <= MAX_AUDIO_PACKETS
    && (forall i :: 0 <= i < |m.audio| ==>
         && FromMicrophone(m.devices, m.captureId, m.audio[i])
         && ValidSample(m.audio[i]) && m.audio[i].sequence <= m.audioSequence)
    && (forall i, j :: 0 <= i < j < |m.audio| ==> m.audio[i].sequence < m.audio[j].sequence)
    && (m.video.Some? ==>
         && FromCamera(m.devices, m.captureId, m.video.value)
         && ValidSample(m.video.value))
  }

  lemma PushSound(m: Mailbox, s: Sample)
    requires Sound(m)
    ensures Sound(Push(m, s).0)
    ensures Push(m, s).0.captureId == m.captureId && Push(m, s).0.devices == m.devices
  {
    hide ValidVideo, ValidAudio;
  }

  /**
    * A frame or packet of the assigned capture, of a granted device on its own track, beyond both
    * marks of that track.
    */
  predicate Admissible(m: Mailbox, s: Sample) {
    && ValidSample(s) && m.captureId == Some(s.captureId)
    && (s.kind.VideoNv12? ==>
         && m.devices.camera && s.trackId == 1
         && s.sequence > m.videoSequence && (s.sequence == 1 || s.timestamp >= m.videoTimestamp))
    && (s.kind.AudioPcm16? ==>
         && m.devices.microphone && s.trackId == 2
         && s.sequence > m.audioSequence && (s.sequence == 1 || s.timestamp >= m.audioTimestamp))
  }

  /**
    * What becomes of a sample: an admissible one is stored, a frame over the last one and a packet
    * behind the others while fewer than eight wait; any other is an error that stores nothing, except
    * that a retired mailbox silently drops what is valid.
    */
  lemma PushExact(m: Mailbox, s: Sample)
    ensures var (m', r) := Push(m, s);
      if m.retired then m' == m && (r.Ok? <==> ValidSample(s))
      else
        && (r.Ok? <==> Admissible(m, s) && (s.kind.AudioPcm16? ==> |m.audio| != 8))
        && m'.video == (if r.Ok? && s.kind.VideoNv12? then Some(s) else m.video)
        && m'.audio == (if r.Ok? && s.kind.AudioPcm16? then m.audio + [s] else m.audio)
        && (m'.videoSequence, m'.videoTimestamp) ==
          (if Admissible(m, s) && s.kind.VideoNv12? then (s.sequence, s.timestamp)
            else (m.videoSequence, m.videoTimestamp))
        && (m'.audioSequence, m'.audioTimestamp) ==
          (if Admissible(m, s) && s.kind.AudioPcm16? then (s.sequence, s.timestamp)
            else (m.audioSequence, m.audioTimestamp))
        && m'.devices == m.devices && m'.captureId == m.captureId && m'.retired == m.retired && m'.failed == m.failed
  {
    hide ValidVideo, ValidAudio;
  }

  class SampleMailbox {
    const devices: Devices
    var captureId: Option<U64>
    var video: Option<Sample>
    var audio: seq<Sample>
    var videoSequence: nat
    var audioSequence: nat
    var videoTimestamp: nat
    var audioTimestamp: nat
    var retired: bool
    var failed: bool

    ghost function State(): Mailbox
      reads this
    {
      Mailbox(devices, captureId, video, audio, videoSequence, audioSequence, videoTimestamp, audioTimestamp, retired,
        failed)
    }

    constructor (devices: Devices)
      ensures State() == NewMailbox(devices)
    {
      this.devices := devices;
      captureId, video, audio := None, None, [];
      videoSequence, audioSequence, videoTimestamp, audioTimestamp := 0, 0, 0, 0;
      retired, failed := false, false;
    }

    /** One capture generation is assigned once. */
    method Expect(id: U64) returns (accepted: bool)
      modifies this`captureId
      ensures accepted <==> old(captureId).None?
      ensures captureId == if accepted then Some(id) else old(captureId)
    {
      if captureId.Some? {
        return false;
      }
      captureId := Some(id);
      return true;
    }

    method PushSample(s: Sample) returns (r: Result<(), PushError>)
      requires Sound(State())
      modifies this
      ensures (State(), r) == Push(old(State()), s) && Sound(State())
    {
      hide ValidVideo, ValidAudio;
      PushSound(State(), s);
      if !ValidSample(s) {
        return Err(InvalidSample);
      }
      if retired {
        return Ok(());
      }
      if captureId != Some(s.captureId) {
        return Err(UnauthorizedGeneration);
      }
      match s.kind {
        case VideoNv12 =>
          if !devices.camera || s.trackId != 1 {
            return Err(OutsideGrant);
          }
          if s.sequence <= videoSequence || (s.sequence > 1 && s.timestamp < videoTimestamp) {
            return Err(OrderRegressed);
          }
          videoSequence, videoTimestamp := s.sequence, s.timestamp;
          video := Some(s);
        case AudioPcm16 =>
          if !devices.microphone || s.trackId != 2 {
            return Err(OutsideGrant);
          }
          if s.sequence <= audioSequence || (s.sequence > 1 && s.timestamp < audioTimestamp) {
            return Err(OrderRegressed);
          }
          audioSequence, audioTimestamp := s.sequence, s.timestamp;
          if |audio| == MAX_AUDIO_PACKETS {
            return Err(AudioOverflow);
          }
          audio := audio + [s];
      }
      return Ok(());
    }

    /** The newest video frame, once; nothing after a failure. */
    method LatestVideo() returns (r: Result<Option<Sample>, ()>)
      modifies this`video
      ensures failed ==> r.Err? && video == old(video)
      ensures !failed ==> r == Ok(old(video)) && video.None?
    {
      if failed {
        return Err(());
      }
      r := Ok(video);
      video := None;
    }

    /** The oldest audio packet; nothing after a failure. */
    method NextAudio() returns (r: Result<Option<Sample>, ()>)
      modifies this`audio
      ensures failed || old(audio) == [] ==> audio == old(audio)
      ensures failed ==> r.Err?
      ensures !failed && old(audio) == [] ==> r == Ok(None)
      ensures !failed && old(audio) != [] ==> r == Ok(Some(old(audio)[0])) && audio == old(audio)[1..]
    {
      if failed {
        return Err(());
      }
      if audio == [] {
        return Ok(None);
      }
      r := Ok(Some(audio[0]));
      audio := audio[1..];
    }
  }

  datatype EnqueueError = MicrophoneOverflow | Disconnected

  /** Backpressure: a full queue drops video, but losing audio fails the capture. */
  function Enqueued(queue: seq<Sample>, connected: bool, s: Sample): (seq<Sample>, Result<(), EnqueueError>) {
    if !connected then (queue, Err(Disconnected))
    else if |queue| < MAX_PENDING_SAMPLES then (queue + [s], Ok(()))
    else if s.kind.VideoNv12? then (queue, Ok(()))
    else (queue, Err(MicrophoneOverflow))
  }

  class SampleQueue {
    var pending: seq<Sample>
    var connected: bool

    constructor ()
      ensures pending == [] && connected
    {
      pending, connected := [], true;
    }

    /** A bounded send that never blocks: it succeeds, finds the queue full, or finds nobody receiving. */
    method TrySend(s: Sample) returns (sent: bool, full: bool)
      modifies this`pending
      ensures sent <==> connected && |old(pending)| < MAX_PENDING_SAMPLES
      ensures full <==> connected && !sent
      ensures pending == if sent then old(pending) + [s] else old(pending)
    {
      sent := connected && |pending| < MAX_PENDING_SAMPLES;
      full := connected && !sent;
      if sent {
        pending := pending + [s];
      }
    }

    method Enqueue(s: Sample) returns (r: Result<(), EnqueueError>)
      modifies this`pending
      ensures (pending, r) == Enqueued(old(pending), connected, s)
      ensures pending == if connected && |old(pending)| < 2 then old(pending) + [s] else old(pending)
      ensures r == if !connected then Err(Disconnected)
        else if |old(pending)| >= 2 && s.kind.AudioPcm16? then Err(MicrophoneOverflow) else Ok(())
    {
      var sent, full := TrySend(s);
      if sent {
        return Ok(());
      }
      if full && s.kind.VideoNv12? {
        return Ok(());
      }
      return Err(if full then MicrophoneOverflow else Disconnected);
    }
  }
}
