/**
  * The whole sample path as interleaved steps: provider, child queue, writer thread, byte pipe,
  * reader thread, mailbox and consumer. Every thread may stop at any moment, and bytes may arrive
  * in pieces of any size.
  */
module CapturePipeline {
  import opened Bytes
  import opened Outcome
  import opened CaptureCodec
  import opened CaptureMailbox

  datatype System = System(
    session: U64,
    devices: Devices,
    childAlive: bool,
    active: Option<U64>,
    queue: seq<Sample>,
    writerAlive: bool,
    writerSequence: nat,
    unwritten: seq<byte>,         // what the writer thread has still to write of its current frame
    wire: seq<byte>,              // what the reader thread has still to read
    readerAlive: bool,
    readerSequence: nat,
    mailbox: Mailbox,
    stopped: bool,
    // what an observer has seen
    produced: seq<Sample>,        // everything the provider handed over
    inFlight: seq<Sample>,        // taken by the writer, not yet read
    heard: seq<Sample>,
    seen: seq<Sample>)

  function Launched(session: U64, devices: Devices): System {
    System(session, devices, true, None, [], true, 1, [], [], true, 1, NewMailbox(devices), false, [], [], [], [])
  }

  datatype Event =
    | ChildStarts(id: U64)
    | Provides(sample: Sample)
    | ChildEnds
    | WriterTakes
    | WriterWrites(count: nat)
    | WriterEnds
    | ReaderReads
    | ReaderEnds
    | ConsumerHears
    | ConsumerLooks
    | BrokerExpects(id: U64)
    | StartFails
    | BrokerStops(id: U64)

  predicate OutsideChildGrant(s: System, id: U64, sample: Sample) {
    sample.captureId != id
    || (sample.kind.VideoNv12? && !s.devices.camera)
    || (sample.kind.AudioPcm16? && !s.devices.microphone)
  }

  /** One round of the child's loop that yields a sample. */
  function Provide(s: System, sample: Sample): System {
    if !s.childAlive || s.active.None? then s
    else if OutsideChildGrant(s, s.active.value, sample) then s.(childAlive := false)
    else
      var (queue, r) := Enqueued(s.queue, s.writerAlive, sample);
      s.(queue := queue, produced := s.produced + [sample], childAlive := r.Ok?)
  }

  function WriterTake(s: System): System {
    if !s.writerAlive || s.unwritten != [] || s.queue == [] then s
    else if EncodeSample(s.queue[0]).Err? || s.writerSequence >= U64_BOUND - 1 then s.(writerAlive := false)
    else
      s.(queue := s.queue[1..],
         unwritten := Frame(s.session, s.writerSequence, SAMPLE, EncodeSample(s.queue[0]).value.1),
         writerSequence := s.writerSequence + 1,
         inFlight := s.inFlight + [s.queue[0]])
  }

  /** The reader thread gives up; unless the capture was retired the consumer is told. */
  function ReaderStops(s: System): System {
    s.(readerAlive := false, mailbox := if s.mailbox.retired then s.mailbox else s.mailbox.(failed := true))
  }

  /** The reader waits for bytes, reads a whole frame, or fails. */
  function ReaderRead(s: System): System {
    if !s.readerAlive || s.readerSequence >= U64_BOUND then s
    else
      match ReadSample(s.wire, s.session, s.readerSequence)
      case Err(e) => if e.Io? && s.writerAlive then s else ReaderStops(s)
      case Ok((sample, rest)) =>
        var (mailbox, r) := Push(s.mailbox, sample);
        var next := s.(wire := rest, readerSequence := s.readerSequence + 1, mailbox := mailbox,
                       inFlight := if s.inFlight == [] then [] else s.inFlight[1..]);
        if r.Ok? then next else ReaderStops(next)
  }

  function Hear(s: System): System {
    if s.stopped || s.mailbox.failed || s.mailbox.audio == [] then s
    else s.(mailbox := s.mailbox.(audio := s.mailbox.audio[1..]), heard := s.heard + [s.mailbox.audio[0]])
  }

  function Look(s: System): System {
    if s.stopped || s.mailbox.failed || s.mailbox.video.None? then s
    else s.(mailbox := s.mailbox.(video := None), seen := s.seen + [s.mailbox.video.value])
  }

  function Stop(s: System, id: U64): System {
    if s.stopped || s.mailbox.captureId != Some(id) then s
    else s.(stopped := true, mailbox := s.mailbox.(retired := true, video := None, audio := []))
  }

  function Step(s: System, e: Event): System {
    match e
    case ChildStarts(id) => if s.childAlive && s.active.None? then s.(active := Some(id)) else s
    case Provides(sample) => Provide(s, sample)
    case ChildEnds => s.(childAlive := false)
    case WriterTakes => WriterTake(s)
    case WriterWrites(count) =>
      if !s.writerAlive || count > |s.unwritten| then s
      else s.(wire := s.wire + s.unwritten[..count], unwritten := s.unwritten[count..])
    case WriterEnds => s.(writerAlive := false)
    case ReaderReads => ReaderRead(s)
    case ReaderEnds => ReaderStops(s)
    case ConsumerHears => Hear(s)
    case ConsumerLooks => Look(s)
    case BrokerExpects(id) =>
      if s.mailbox.captureId.None? then s.(mailbox := s.mailbox.(captureId := Some(id))) else s
    case StartFails => s.(mailbox := s.mailbox.(retired := true))
    case BrokerStops(id) => Stop(s, id)
  }

  function Run(s: System, events: seq<Event>): System
    decreases |events|
  {
    if events == [] then s else Step(Run(s, events[..|events| - 1]), events[|events| - 1])
  }

  // ---------- Audio and video of a run ----------

  function AudioOf(samples: seq<Sample>): seq<Sample> {
    if samples == [] then []
    else
      var n := |samples| - 1;
      AudioOf(samples[..n]) + (if samples[n].kind.AudioPcm16? then [samples[n]] else [])
  }

  function VideoOf(samples: seq<Sample>): seq<Sample> {
    if samples == [] then []
    else
      var n := |samples| - 1;
      VideoOf(samples[..n]) + (if samples[n].kind.VideoNv12? then [samples[n]] else [])
  }

  lemma {:induction false} AudioConcat(a: seq<Sample>, b: seq<Sample>)
    ensures AudioOf(a + b) == AudioOf(a) + AudioOf(b)
  {
    if b == [] {
      assert a + b == a;
    } else {
      var n := |b| - 1;
      var last := if b[n].kind.AudioPcm16? then [b[n]] else [];
      assert (a + b)[..|a| + n] == a + b[..n];
      AudioConcat(a, b[..n]);
      assert AudioOf(a + b) == AudioOf(a + b[..n]) + last;
    }
  }

  lemma {:induction false} VideoConcat(a: seq<Sample>, b: seq<Sample>)
    ensures VideoOf(a + b) == VideoOf(a) + VideoOf(b)
  {
    if b == [] {
      assert a + b == a;
    } else {
      var n := |b| - 1;
      var last := if b[n].kind.VideoNv12? then [b[n]] else [];
      assert (a + b)[..|a| + n] == a + b[..n];
      VideoConcat(a, b[..n]);
      assert VideoOf(a + b) == VideoOf(a + b[..n]) + last;
    }
  }

  lemma Single(s: Sample)
    ensures AudioOf([s]) == (if s.kind.AudioPcm16? then [s] else [])
    ensures VideoOf([s]) == (if s.kind.VideoNv12? then [s] else [])
  {
    assert [s][..0] == [];
  }

  lemma AudioFirst(samples: seq<Sample>)
    requires samples != []
    ensures AudioOf(samples) == (if samples[0].kind.AudioPcm16? then [samples[0]] else []) + AudioOf(samples[1..])
    ensures VideoOf(samples) == (if samples[0].kind.VideoNv12? then [samples[0]] else []) + VideoOf(samples[1..])
  {
    assert samples == [samples[0]] + samples[1..];
    AudioConcat([samples[0]], samples[1..]);
    VideoConcat([samples[0]], samples[1..]);
    Single(samples[0]);
  }

  /** `a` is `b` with some elements left out. */
  ghost predicate Subsequence<T>(a: seq<T>, b: seq<T>)
    decreases |b|
  {
    if a == [] then true
    else if b == [] then false
    else (a[|a| - 1] == b[|b| - 1] && Subsequence(a[..|a| - 1], b[..|b| - 1])) || Subsequence(a, b[..|b| - 1])
  }

  lemma SubsequenceExtend<T>(a: seq<T>, b: seq<T>, x: T)
    requires Subsequence(a, b)
    ensures Subsequence(a, b + [x]) && Subsequence(a + [x], b + [x])
  {
    assert (b + [x])[..|b|] == b && (a + [x])[..|a|] == a;
  }

  /** Leaving out one more element. */
  lemma {:induction false} SubsequenceDrop<T>(a: seq<T>, c: seq<T>, x: T, b: seq<T>)
    requires Subsequence(a + [x] + c, b)
    ensures Subsequence(a + c, b)
    decreases |b|
  {
    var s := a + [x] + c;
    if b != [] {
      var b' := b[..|b| - 1];
      if c == [] {
        assert s == a + [x] && a + c == a && s[..|s| - 1] == a;
        if Subsequence(s, b') {
          assert a + [x] + [] == s;
          SubsequenceDrop(a, [], x, b');
          assert a + [] == a;
        }
        SubsequenceWider(a, b);
      } else {
        var c' := c[..|c| - 1];
        assert s[..|s| - 1] == a + [x] + c' && (a + c)[..|a + c| - 1] == a + c';
        if s[|s| - 1] == b[|b| - 1] && Subsequence(s[..|s| - 1], b') {
          SubsequenceDrop(a, c', x, b');
        } else {
          SubsequenceDrop(a, c, x, b');
        }
      }
    }
  }

  lemma SubsequenceWider<T>(a: seq<T>, b: seq<T>)
    requires b != []
    ensures Subsequence(a, b[..|b| - 1]) ==> Subsequence(a, b)
  {
  }

  // ---------- The invariant ----------

  /** What of the bytes in flight is still unread, and what of them will ever be written. */
  ghost predicate WireHolds(s: System) {
    && s.readerSequence + |s.inFlight| == s.writerSequence <= U64_BOUND - 1
    && (forall i :: 0 <= i < |s.inFlight| ==> ValidSample(s.inFlight[i]))
    && s.wire + s.unwritten == SampleFrames(s.inFlight, s.session, s.readerSequence)
  }

  /** Audio that can still reach the mailbox. */
  function Upstream(s: System): seq<Sample> {
    if s.readerAlive && !s.mailbox.retired then AudioOf(s.inFlight) + (if s.writerAlive then AudioOf(s.queue) else [])
      else []
  }

  function Connected(s: System): bool {
    s.childAlive && s.writerAlive && s.readerAlive && !s.mailbox.retired
  }

  /**
    * What was heard, is stored and will still arrive is a prefix of what was produced, and all of it
    * while connected.
    */
  ghost predicate AudioChain(heard: seq<Sample>, stored: seq<Sample>, upstream: seq<Sample>, produced: seq<Sample>,
      connected: bool)
  {
    && heard + stored + upstream <= produced
    && (connected ==> heard + stored + upstream == produced)
  }

  ghost predicate AudioHolds(s: System) {
    AudioChain(s.heard, s.mailbox.audio, Upstream(s), AudioOf(s.produced), Connected(s))
  }

  function Stored(m: Mailbox): seq<Sample> {
    if m.video.Some? then [m.video.value] else []
  }

  ghost predicate VideoChain(seen: seq<Sample>, stored: seq<Sample>, inFlight: seq<Sample>, queued: seq<Sample>,
      produced: seq<Sample>)
  {
    Subsequence(seen + stored + inFlight + queued, produced)
  }

  ghost predicate VideoHolds(s: System) {
    VideoChain(s.seen, Stored(s.mailbox), VideoOf(s.inFlight), VideoOf(s.queue), VideoOf(s.produced))
  }

  ghost predicate MailboxHolds(s: System) {
    && Sound(s.mailbox) && s.mailbox.devices == s.devices
    && (s.stopped ==> s.mailbox.retired)
  }

  /**
    * What the consumer was given is of the assigned capture, from a granted device and on its track, and
    * its audio came in strictly increasing order.
    */
  ghost predicate HandedHolds(s: System) {
    && (forall i :: 0 <= i < |s.heard| ==> FromMicrophone(s.devices, s.mailbox.captureId, s.heard[i]))
    && (forall i :: 0 <= i < |s.seen| ==> FromCamera(s.devices, s.mailbox.captureId, s.seen[i]))
    && (forall i, j :: 0 <= i < j < |s.heard| ==> s.heard[i].sequence < s.heard[j].sequence)
    && (forall i :: 0 <= i < |s.heard| ==> s.heard[i].sequence <= s.mailbox.audioSequence)
    && (forall i, j :: 0 <= i < |s.heard| && 0 <= j < |s.mailbox.audio| ==>
         s.heard[i].sequence < s.mailbox.audio[j].sequence)
  }

  ghost predicate Holds(s: System) {
    WireHolds(s) && AudioHolds(s) && VideoHolds(s) && MailboxHolds(s) && HandedHolds(s)
  }

  // ---------- The steps keep it ----------

  // Audio moves along the chain.

  lemma ChainGrow(h: seq<Sample>, m: seq<Sample>, u: seq<Sample>, p: seq<Sample>, one: seq<Sample>, c: bool)
    requires AudioChain(h, m, u, p, true)
    ensures AudioChain(h, m, u + one, p + one, c)
  {
    assert h + m + (u + one) == h + m + u + one;
  }

  lemma ChainBeyond(h: seq<Sample>, m: seq<Sample>, u: seq<Sample>, p: seq<Sample>, more: seq<Sample>, c: bool)
    requires AudioChain(h, m, u, p, c)
    ensures AudioChain(h, m, u, p + more, false)
  {
  }

  lemma ChainCut(h: seq<Sample>, m: seq<Sample>, u: seq<Sample>, v: seq<Sample>, p: seq<Sample>, c: bool)
    requires AudioChain(h, m, u + v, p, c)
    ensures AudioChain(h, m, u, p, false)
  {
    assert h + m + (u + v) == h + m + u + v;
  }

  lemma ChainEmpty(h: seq<Sample>, m: seq<Sample>, u: seq<Sample>, p: seq<Sample>, c: bool)
    requires AudioChain(h, m, u, p, c)
    ensures AudioChain(h, m, [], p, false) && AudioChain(h, [], [], p, false)
  {
    assert h + m + [] == h + m && h + m + u == h + (m + u) && h + [] + [] == h;
  }

  lemma ChainMove(h: seq<Sample>, m: seq<Sample>, one: seq<Sample>, u: seq<Sample>, p: seq<Sample>, c: bool)
    requires AudioChain(h, m, one + u, p, c)
    ensures AudioChain(h, m + one, u, p, c)
  {
    assert h + m + (one + u) == h + (m + one) + u;
  }

  lemma ChainHear(h: seq<Sample>, m: seq<Sample>, u: seq<Sample>, p: seq<Sample>, c: bool)
    requires AudioChain(h, m, u, p, c) && m != []
    ensures AudioChain(h + [m[0]], m[1..], u, p, c)
  {
    assert m == [m[0]] + m[1..];
    assert h + m + u == h + [m[0]] + m[1..] + u;
  }

  // Video moves along the chain, or is left out.

  lemma VideoGrow(a: seq<Sample>, b: seq<Sample>, f: seq<Sample>, q: seq<Sample>, p: seq<Sample>, x: Sample)
    requires VideoChain(a, b, f, q, p)
    ensures VideoChain(a, b, f, q, p + [x]) && VideoChain(a, b, f, q + [x], p + [x])
  {
    SubsequenceExtend(a + b + f + q, p, x);
    hide Subsequence;
    assert a + b + f + (q + [x]) == a + b + f + q + [x];
  }

  lemma VideoTaken(a: seq<Sample>, b: seq<Sample>, f: seq<Sample>, one: seq<Sample>, q: seq<Sample>, p: seq<Sample>)
    requires VideoChain(a, b, f, one + q, p)
    ensures VideoChain(a, b, f + one, q, p)
  {
    hide Subsequence;
    assert a + b + f + (one + q) == a + b + (f + one) + q;
  }

  /** A frame read from the pipe replaces the stored one, or is not stored. */
  lemma VideoRead(a: seq<Sample>, b: seq<Sample>, x: Sample, f: seq<Sample>, q: seq<Sample>, p: seq<Sample>)
    requires VideoChain(a, b, [x] + f, q, p) && |b| <= 1
    ensures VideoChain(a, [x], f, q, p) && VideoChain(a, b, f, q, p)
  {
    hide Subsequence;
    assert a + b + ([x] + f) + q == a + b + [x] + (f + q);
    SubsequenceDrop(a + b, f + q, x, p);
    assert a + b + (f + q) == a + b + f + q;
    if b == [] {
      assert a + b + [x] + (f + q) == a + [x] + f + q;
    } else {
      assert a + b + [x] + (f + q) == a + [b[0]] + ([x] + f + q);
      SubsequenceDrop(a, [x] + f + q, b[0], p);
      assert a + ([x] + f + q) == a + [x] + f + q;
    }
  }

  lemma VideoSeen(a: seq<Sample>, b: seq<Sample>, f: seq<Sample>, q: seq<Sample>, p: seq<Sample>)
    requires VideoChain(a, b, f, q, p) && |b| <= 1
    ensures VideoChain(a + b, [], f, q, p) && VideoChain(a, [], f, q, p)
  {
    hide Subsequence;
    assert a + b + [] == a + b;
    if b == [] {
      assert a + b == a;
    } else {
      assert a + b + f + q == a + [b[0]] + (f + q);
      SubsequenceDrop(a, f + q, b[0], p);
      assert a + (f + q) == a + [] + f + q;
    }
  }

  /** A sample that finds room in front of a live reader lengthens what is on its way. */
  lemma ProvideTaken(s: System, sample: Sample)
    requires AudioHolds(s) && Provide(s, sample).produced != s.produced
    requires s.readerAlive && !s.mailbox.retired && s.writerAlive && |s.queue| < MAX_PENDING_SAMPLES
    ensures AudioHolds(Provide(s, sample))
  {
    AudioConcat(s.produced, [sample]);
    AudioConcat(s.queue, [sample]);
    Single(sample);
    hide AudioOf, AudioChain;
    var u, p, one := Upstream(s), AudioOf(s.produced), AudioOf([sample]);
    assert AudioOf(s.inFlight) + (AudioOf(s.queue) + one) == u + one;
    ChainGrow(s.heard, s.mailbox.audio, u, p, one, true);
  }

  lemma ProvideBeyond(s: System, sample: Sample)
    requires AudioHolds(s) && Provide(s, sample).produced != s.produced
    requires !(s.readerAlive && !s.mailbox.retired && s.writerAlive && |s.queue| < MAX_PENDING_SAMPLES)
    ensures AudioHolds(Provide(s, sample))
  {
    AudioConcat(s.produced, [sample]);
    Single(sample);
    hide AudioOf, AudioChain;
    var p := AudioOf(s.produced);
    ChainBeyond(s.heard, s.mailbox.audio, Upstream(s), p, AudioOf([sample]), Connected(s));
    assert p + [] == p;
  }

  lemma ProvideAudio(s: System, sample: Sample)
    requires AudioHolds(s)
    ensures AudioHolds(Provide(s, sample))
  {
    if Provide(s, sample).produced == s.produced {
      hide AudioOf, AudioChain;
      var u := Upstream(s);
      assert u + [] == u;
      ChainCut(s.heard, s.mailbox.audio, u, [], AudioOf(s.produced), Connected(s));
    } else if s.readerAlive && !s.mailbox.retired && s.writerAlive && |s.queue| < MAX_PENDING_SAMPLES {
      ProvideTaken(s, sample);
    } else {
      ProvideBeyond(s, sample);
    }
  }

  lemma ProvideVideo(s: System, sample: Sample)
    requires VideoHolds(s)
    ensures VideoHolds(Provide(s, sample))
  {
    VideoConcat(s.produced, [sample]);
    VideoConcat(s.queue, [sample]);
    Single(sample);
    hide VideoOf, VideoChain;
    VideoGrow(s.seen, Stored(s.mailbox), VideoOf(s.inFlight), VideoOf(s.queue), VideoOf(s.produced), sample);
    assert VideoOf(s.produced) + [] == VideoOf(s.produced) && VideoOf(s.queue) + [] == VideoOf(s.queue);
  }

  lemma ProvideHolds(s: System, sample: Sample)
    requires Holds(s)
    ensures Holds(Provide(s, sample))
  {
    ProvideAudio(s, sample);
    ProvideVideo(s, sample);
    ProvideRest(s, sample);
    hide *;
    assert Holds(Provide(s, sample)) by { Joined(Provide(s, sample)); }
  }

  lemma Joined(s: System)
    requires WireHolds(s) && AudioHolds(s) && VideoHolds(s) && MailboxHolds(s) && HandedHolds(s)
    ensures Holds(s)
  {
  }

  /** What the child does by itself touches neither the pipe's books nor the browser's. */
  lemma RestSame(s: System, t: System)
    requires WireHolds(s) && MailboxHolds(s) && HandedHolds(s)
    requires t == s.(childAlive := t.childAlive, active := t.active, queue := t.queue, produced := t.produced,
      writerAlive := t.writerAlive)
    ensures WireHolds(t) && MailboxHolds(t) && HandedHolds(t)
  {
    HandedSame(s, t);
    hide ValidSample, SampleFrames, Sound, HandedHolds;
  }

  lemma ProvideShape(s: System, sample: Sample)
    ensures var t := Provide(s, sample); t == s.(childAlive := t.childAlive, queue := t.queue, produced := t.produced)
  {
  }

  lemma ProvideRest(s: System, sample: Sample)
    requires Holds(s)
    ensures WireHolds(Provide(s, sample)) && MailboxHolds(Provide(s, sample)) && HandedHolds(Provide(s, sample))
  {
    ProvideShape(s, sample);
    hide Provide, WireHolds, AudioHolds, VideoHolds, MailboxHolds, HandedHolds;
    RestSame(s, Provide(s, sample));
  }

  lemma {:induction false} FramesAppend(samples: seq<Sample>, x: Sample, session: U64, sequence: nat)
    requires sequence + |samples| + 1 < U64_BOUND
    ensures SampleFrames(samples + [x], session, sequence) ==
      SampleFrames(samples, session, sequence)
      + (if EncodeSample(x).Ok? then Frame(session, sequence + |samples|, SAMPLE, EncodeSample(x).value.1) else [])
    decreases |samples|
  {
    hide Frame, EncodeSample;
    var all := samples + [x];
    if samples == [] {
      assert all == [x] && all[1..] == [];
      assert SampleFrames(all[1..], session, sequence + 1) == [];
    } else {
      var head := if EncodeSample(samples[0]).Ok?
        then Frame(session, sequence, SAMPLE, EncodeSample(samples[0]).value.1) else [];
      var tail := if EncodeSample(x).Ok?
        then Frame(session, sequence + |samples|, SAMPLE, EncodeSample(x).value.1) else [];
      var rest := samples[1..];
      assert all[0] == samples[0] && all[1..] == rest + [x];
      FramesAppend(rest, x, session, sequence + 1);
      FramesHead(all, session, sequence);
      FramesHead(samples, session, sequence);
      hide SampleFrames;
      assert head + (SampleFrames(rest, session, sequence + 1) + tail)
        == head + SampleFrames(rest, session, sequence + 1) + tail;
    }
  }

  lemma FramesHead(samples: seq<Sample>, session: U64, sequence: nat)
    requires samples != [] && sequence + |samples| < U64_BOUND
    ensures SampleFrames(samples, session, sequence) ==
      (if EncodeSample(samples[0]).Ok? then Frame(session, sequence, SAMPLE, EncodeSample(samples[0]).value.1) else [])
      + SampleFrames(samples[1..], session, sequence + 1)
  {
  }

  lemma WriterTakeWire(s: System)
    requires WireHolds(s)
    ensures WireHolds(WriterTake(s))
  {
    hide ValidSample, SampleFrames, Frame, EncodeSample;
    if WriterTake(s).queue != s.queue {
      FramesAppend(s.inFlight, s.queue[0], s.session, s.readerSequence);
      ValidEncodes(s.queue[0]);
    }
  }

  lemma TakenVideo(s: System, t: System)
    requires VideoHolds(s) && s.queue != []
    requires t == s.(queue := s.queue[1..], inFlight := s.inFlight + [s.queue[0]],
                     unwritten := t.unwritten, writerSequence := t.writerSequence)
    ensures VideoHolds(t)
  {
    VideoConcat(s.inFlight, [s.queue[0]]);
    Single(s.queue[0]);
    AudioFirst(s.queue);
    hide AudioOf, VideoOf, VideoChain;
    VideoTaken(s.seen, Stored(s.mailbox), VideoOf(s.inFlight), VideoOf([s.queue[0]]), VideoOf(t.queue),
      VideoOf(s.produced));
  }

  lemma WriterTakeVideo(s: System)
    requires VideoHolds(s)
    ensures VideoHolds(WriterTake(s))
  {
    hide Frame, EncodeSample, VideoOf, VideoChain;
    if WriterTake(s).queue != s.queue {
      TakenVideo(s, WriterTake(s));
    }
  }

  lemma MovedAudio(f: seq<Sample>, q: seq<Sample>)
    requires q != []
    ensures AudioOf(f + [q[0]]) + AudioOf(q[1..]) == AudioOf(f) + AudioOf(q)
  {
    AudioConcat(f, [q[0]]);
    Single(q[0]);
    AudioFirst(q);
    hide AudioOf, VideoOf;
    assert (AudioOf(f) + AudioOf([q[0]])) + AudioOf(q[1..]) == AudioOf(f) + (AudioOf([q[0]]) + AudioOf(q[1..]));
  }

  /** Taking a sample moves its audio from the queue into flight. */
  lemma TakenAudio(s: System, t: System)
    requires AudioHolds(s) && s.queue != [] && s.writerAlive
    requires t == s.(queue := s.queue[1..], inFlight := s.inFlight + [s.queue[0]],
                     unwritten := t.unwritten, writerSequence := t.writerSequence)
    ensures AudioHolds(t)
  {
    hide AudioOf, AudioChain;
    MovedAudio(s.inFlight, s.queue);
    assert Upstream(t) == Upstream(s);
  }

  lemma WriterTakeAudio(s: System)
    requires AudioHolds(s)
    ensures AudioHolds(WriterTake(s))
  {
    WriterGone(s);
    hide AudioHolds, Frame, EncodeSample;
    if WriterTake(s).queue != s.queue {
      TakenAudio(s, WriterTake(s));
    }
  }

  /** When the writer thread ends, what is still queued in the child is lost, and only that. */
  lemma WriterGone(s: System)
    requires AudioHolds(s)
    ensures AudioHolds(s.(writerAlive := false))
  {
    hide AudioOf, AudioChain;
    var u := Upstream(s.(writerAlive := false));
    assert AudioOf(s.inFlight) + [] == AudioOf(s.inFlight) && u + [] == u;
    ChainCut(s.heard, s.mailbox.audio, u,
             if s.readerAlive && !s.mailbox.retired && s.writerAlive then AudioOf(s.queue) else [],
             AudioOf(s.produced), Connected(s));
  }

  lemma WriterTakeShape(s: System)
    ensures var t := WriterTake(s);
      && t.heard == s.heard && t.seen == s.seen && t.devices == s.devices && t.mailbox == s.mailbox
        && t.stopped == s.stopped
  {
    hide EncodeSample, Frame;
  }

  lemma MailboxSame(s: System, t: System)
    requires MailboxHolds(s) && t.devices == s.devices && t.mailbox == s.mailbox && t.stopped == s.stopped
    ensures MailboxHolds(t)
  {
  }

  lemma WriterTakeHolds(s: System)
    requires Holds(s)
    ensures Holds(WriterTake(s))
  {
    WriterTakeShape(s);
    hide WriterTake, WireHolds, AudioHolds, VideoHolds, MailboxHolds, HandedHolds;
    WriterTakeWire(s);
    WriterTakeVideo(s);
    WriterTakeAudio(s);
    HandedSame(s, WriterTake(s));
    MailboxSame(s, WriterTake(s));
  }

  /** A frame read off the wire is the oldest one in flight. */
  lemma ReadsOldest(s: System, sample: Sample, rest: seq<byte>)
    requires WireHolds(s) && s.readerSequence < U64_BOUND
    requires ReadSample(s.wire, s.session, s.readerSequence) == Ok((sample, rest))
    ensures s.inFlight != [] && sample == s.inFlight[0]
    ensures rest + s.unwritten == SampleFrames(s.inFlight[1..], s.session, s.readerSequence + 1)
  {
    hide ReadSample, Frame, EncodeSample, ValidSample;
    var all := s.wire + s.unwritten;
    ReadSampleExact(s.wire, s.session, s.readerSequence, sample, rest);
    assert Frame(s.session, s.readerSequence, EncodeSample(sample).value.0, EncodeSample(sample).value.1)
      + (rest + s.unwritten) == all;
    ReadSampleExact(all, s.session, s.readerSequence, sample, rest + s.unwritten);
    if s.inFlight == [] {
      assert all == [];
      NoFrame(s.session, s.readerSequence);
    } else {
      var later := SampleFrames(s.inFlight[1..], s.session, s.readerSequence + 1);
      ValidEncodes(s.inFlight[0]);
      ReadSampleExact(all, s.session, s.readerSequence, s.inFlight[0], later);
    }
  }

  lemma NoFrame(session: U64, sequence: U64)
    ensures ReadSample([], session, sequence).Err?
  {
  }

  lemma ReadKeepsMailbox(s: System, sample: Sample)
    requires Holds(s)
    ensures var m := Push(s.mailbox, sample).0;
      && Sound(m) && m.devices == s.devices && m.captureId == s.mailbox.captureId && m.retired == s.mailbox.retired
      && HandedHolds(s.(mailbox := m))
      && m.audio == (if Push(s.mailbox, sample).1.Ok? && !m.retired && sample.kind.AudioPcm16? then
        s.mailbox.audio + [sample] else s.mailbox.audio)
      && Stored(m) == (if Push(s.mailbox, sample).1.Ok? && !m.retired && sample.kind.VideoNv12? then [sample]
        else Stored(s.mailbox))
  {
    hide ValidSample, SampleFrames, Subsequence, AudioOf, VideoOf;
    PushSound(s.mailbox, sample);
  }

  lemma HoldsVideo(s: System)
    requires Holds(s)
    ensures VideoChain(s.seen, Stored(s.mailbox), VideoOf(s.inFlight), VideoOf(s.queue), VideoOf(s.produced))
    ensures |Stored(s.mailbox)| <= 1
  {
  }

  lemma ReadKeepsVideo(s: System, sample: Sample)
    requires Holds(s) && s.inFlight != [] && sample == s.inFlight[0]
    ensures VideoChain(s.seen, Stored(Push(s.mailbox, sample).0), VideoOf(s.inFlight[1..]), VideoOf(s.queue),
      VideoOf(s.produced))
  {
    hide *;
    HoldsVideo(s);
    ReadKeepsMailbox(s, sample);
    AudioFirst(s.inFlight);
    if sample.kind.VideoNv12? {
      VideoRead(s.seen, Stored(s.mailbox), sample, VideoOf(s.inFlight[1..]), VideoOf(s.queue), VideoOf(s.produced));
    } else {
      assert [] + VideoOf(s.inFlight[1..]) == VideoOf(s.inFlight[1..]);
    }
  }

  /** Reading a sample moves its audio from the pipe into the mailbox, or ends the reader. */
  lemma ReadKeepsAudio(s: System, sample: Sample, next: System)
    requires AudioHolds(s) && s.readerAlive && s.inFlight != [] && sample == s.inFlight[0]
    requires next == s.(wire := next.wire, readerSequence := next.readerSequence, mailbox := next.mailbox,
                        inFlight := s.inFlight[1..],
                        readerAlive := next.readerAlive)
    requires next.mailbox.retired == s.mailbox.retired
    requires var stored := next.readerAlive && !s.mailbox.retired && sample.kind.AudioPcm16?;
      next.mailbox.audio == if stored then s.mailbox.audio + [sample] else s.mailbox.audio
    ensures AudioHolds(next)
  {
    AudioFirst(s.inFlight);
    hide AudioOf, AudioChain;
    var later := AudioOf(s.inFlight[1..]) + (if s.writerAlive then AudioOf(s.queue) else []);
    var one := if sample.kind.AudioPcm16? then [sample] else [];
    if next.readerAlive && !s.mailbox.retired {
      assert Upstream(s) == one + later && Upstream(next) == later;
      assert next.mailbox.audio == s.mailbox.audio + one;
      ChainMove(s.heard, s.mailbox.audio, one, later, AudioOf(s.produced), Connected(s));
    } else {
      ChainEmpty(s.heard, s.mailbox.audio, Upstream(s), AudioOf(s.produced), Connected(s));
    }
  }

  lemma ReaderReadHolds(s: System)
    requires Holds(s)
    ensures Holds(ReaderRead(s))
  {
    hide Push, ReadSample, ValidSample, SampleFrames, Sound, HandedHolds, AudioOf, VideoOf, AudioHolds,
      VideoChain;
    if s.readerAlive && s.readerSequence < U64_BOUND && ReadSample(s.wire, s.session, s.readerSequence).Ok? {
      var (sample, rest) := ReadSample(s.wire, s.session, s.readerSequence).value;
      ReadsOldest(s, sample, rest);
      ReadKeepsMailbox(s, sample);
      ReadKeepsVideo(s, sample);
      var (m, r) := Push(s.mailbox, sample);
      var next := ReaderRead(s);
      FailedSound(m);
      HandedSame(s.(mailbox := m), next);
      ReadKeepsAudio(s, sample, next);
    } else {
      assert ReaderRead(s) == s || ReaderRead(s) == ReaderStops(s);
      ReaderStopsHolds(s);
    }
  }

  lemma HandedSame(s: System, t: System)
    requires HandedHolds(s) && t.heard == s.heard && t.seen == s.seen && t.devices == s.devices
    requires t.mailbox.captureId == s.mailbox.captureId && t.mailbox.audio == s.mailbox.audio
    requires t.mailbox.audioSequence == s.mailbox.audioSequence
    ensures HandedHolds(t)
  {
  }

  lemma FailedSound(m: Mailbox)
    requires Sound(m)
    ensures Sound(m.(failed := true)) && Sound(m.(retired := true))
      && Sound(m.(retired := true, video := None, audio := []))
  {
  }

  lemma ReaderStopsHolds(s: System)
    requires Holds(s)
    ensures Holds(ReaderStops(s))
  {
    hide ValidSample, SampleFrames, Sound, VideoChain, HandedHolds, AudioChain, AudioOf, VideoOf;
    FailedSound(s.mailbox);
    HandedSame(s, ReaderStops(s));
    ChainEmpty(s.heard, s.mailbox.audio, Upstream(s), AudioOf(s.produced), Connected(s));
  }

  lemma HearHanded(s: System)
    requires HandedHolds(s) && MailboxHolds(s)
    ensures HandedHolds(Hear(s)) && MailboxHolds(Hear(s))
  {
    hide ValidSample;
  }

  lemma HearHolds(s: System)
    requires Holds(s)
    ensures Holds(Hear(s))
  {
    HearHanded(s);
    hide HandedHolds, MailboxHolds, ValidSample, SampleFrames, VideoChain, AudioChain, AudioOf, VideoOf;
    if Hear(s) != s {
      ChainHear(s.heard, s.mailbox.audio, Upstream(s), AudioOf(s.produced), Connected(s));
    }
  }

  lemma LookHolds(s: System)
    requires Holds(s)
    ensures Holds(Look(s))
  {
    hide ValidSample, SampleFrames, VideoChain, AudioChain, AudioOf, VideoOf;
    if Look(s) != s {
      VideoSeen(s.seen, Stored(s.mailbox), VideoOf(s.inFlight), VideoOf(s.queue), VideoOf(s.produced));
    }
  }

  lemma StopHolds(s: System, id: U64)
    requires Holds(s)
    ensures Holds(Stop(s, id))
  {
    hide ValidSample, SampleFrames, VideoChain, AudioChain, AudioOf, VideoOf;
    if Stop(s, id) != s {
      FailedSound(s.mailbox);
      ChainEmpty(s.heard, s.mailbox.audio, Upstream(s), AudioOf(s.produced), Connected(s));
      VideoSeen(s.seen, Stored(s.mailbox), VideoOf(s.inFlight), VideoOf(s.queue), VideoOf(s.produced));
    }
  }

  lemma WritesHolds(s: System, count: nat)
    requires WireHolds(s) && count <= |s.unwritten|
    ensures WireHolds(s.(wire := s.wire + s.unwritten[..count], unwritten := s.unwritten[count..]))
  {
    hide SampleFrames, ValidSample;
    assert s.wire + s.unwritten[..count] + s.unwritten[count..] == s.wire + s.unwritten;
  }

  lemma WriteHolds(s: System, count: nat)
    requires Holds(s) && count <= |s.unwritten|
    ensures Holds(s.(wire := s.wire + s.unwritten[..count], unwritten := s.unwritten[count..]))
  {
    WritesHolds(s, count);
    hide WireHolds, ValidSample, SampleFrames, VideoChain, AudioChain, AudioOf, VideoOf, Sound;
  }

  lemma ChildEndsAudio(s: System)
    requires AudioHolds(s)
    ensures AudioHolds(s.(childAlive := false))
  {
    hide AudioOf;
    assert Upstream(s.(childAlive := false)) == Upstream(s);
  }

  /** A thread of the child ending breaks the connection, and nothing else. */
  lemma ChildGone(s: System)
    requires Holds(s)
    ensures Holds(s.(childAlive := false)) && Holds(s.(writerAlive := false))
  {
    hide WireHolds, AudioHolds, MailboxHolds, HandedHolds, VideoChain, VideoOf;
    ChildEndsAudio(s);
    WriterGone(s);
    RestSame(s, s.(childAlive := false));
    RestSame(s, s.(writerAlive := false));
  }

  lemma ExpectHolds(s: System, id: U64)
    requires Holds(s) && s.mailbox.captureId.None?
    ensures Holds(s.(mailbox := s.mailbox.(captureId := Some(id))))
  {
    hide AudioOf, VideoOf, VideoChain, AudioChain, ValidSample, SampleFrames;
  }

  lemma RetiredAudio(s: System)
    requires AudioHolds(s)
    ensures AudioHolds(s.(mailbox := s.mailbox.(retired := true)))
  {
    ChainEmpty(s.heard, s.mailbox.audio, Upstream(s), AudioOf(s.produced), Connected(s));
    hide AudioOf, AudioChain;
  }

  lemma RetireHolds(s: System)
    requires Holds(s)
    ensures Holds(s.(mailbox := s.mailbox.(retired := true)))
  {
    var t := s.(mailbox := s.mailbox.(retired := true));
    RetiredAudio(s);
    HandedSame(s, t);
    RetiredRest(s);
    hide WireHolds, AudioHolds, VideoHolds, MailboxHolds, HandedHolds;
  }

  lemma RetiredRest(s: System)
    requires WireHolds(s) && VideoHolds(s) && MailboxHolds(s)
    ensures var t := s.(mailbox := s.mailbox.(retired := true)); WireHolds(t) && VideoHolds(t) && MailboxHolds(t)
  {
    FailedSound(s.mailbox);
    hide VideoOf, VideoChain, ValidSample, SampleFrames, Sound;
  }

  lemma ActiveHolds(s: System, id: U64)
    requires Holds(s)
    ensures Holds(s.(active := Some(id)))
  {
  }

  lemma StepHolds(s: System, e: Event)
    requires Holds(s)
    ensures Holds(Step(s, e))
  {
    hide Holds, Provide, WriterTake, ReaderRead, ReaderStops, Hear, Look, Stop;
    match e
    case Provides(sample) => ProvideHolds(s, sample);
    case WriterTakes => WriterTakeHolds(s);
    case ReaderReads => ReaderReadHolds(s);
    case ReaderEnds => ReaderStopsHolds(s);
    case ConsumerHears => HearHolds(s);
    case ConsumerLooks => LookHolds(s);
    case BrokerStops(id) => StopHolds(s, id);
    case ChildStarts(id) => ActiveHolds(s, id);
    case ChildEnds => ChildGone(s);
    case WriterEnds => ChildGone(s);
    case WriterWrites(count) => if count <= |s.unwritten| { WriteHolds(s, count); }
    case BrokerExpects(id) => if s.mailbox.captureId.None? { ExpectHolds(s, id); }
    case StartFails => RetireHolds(s);
  }

  /** The invariant holds at the end of every interleaving. */
  lemma {:induction false} EveryInterleaving(session: U64, devices: Devices, events: seq<Event>)
    ensures Holds(Run(Launched(session, devices), events))
    decreases |events|
  {
    hide Step;
    if events == [] {
      LaunchedHolds(session, devices);
    } else {
      EveryInterleaving(session, devices, events[..|events| - 1]);
      StepHolds(Run(Launched(session, devices), events[..|events| - 1]), events[|events| - 1]);
    }
  }

  lemma LaunchedHolds(session: U64, devices: Devices)
    ensures Holds(Launched(session, devices))
  {
  }

  /**
    * Over every interleaving, the audio handed to the consumer is a gap-free prefix of the audio the
    * provider produced and its video is a subsequence of the video produced; both were authorized,
    * and at most eight audio packets wait.
    */
  lemma LosslessAudio(session: U64, devices: Devices, events: seq<Event>)
    ensures var s := Run(Launched(session, devices), events);
      && s.heard <= AudioOf(s.produced)
      && Subsequence(s.seen, VideoOf(s.produced))
      && HandedHolds(s) && Sound(s.mailbox)
      && (Connected(s) && s.queue == [] && s.inFlight == [] && s.mailbox.audio == [] ==> s.heard == AudioOf(s.produced))
  {
    var s := Run(Launched(session, devices), events);
    EveryInterleaving(session, devices, events);
    hide ValidSample, SampleFrames, HandedHolds, Sound, Run;
    assert s.heard <= s.heard + s.mailbox.audio + Upstream(s);
    assert s.seen + (Stored(s.mailbox) + VideoOf(s.inFlight) + VideoOf(s.queue))
      == s.seen + Stored(s.mailbox) + VideoOf(s.inFlight) + VideoOf(s.queue);
    SubsequencePrefix(s.seen, Stored(s.mailbox) + VideoOf(s.inFlight) + VideoOf(s.queue), VideoOf(s.produced));
    assert AudioOf([]) == [];
  }

  /** What the provider hands over is of the one active capture, and of granted devices only. */
  ghost predicate OfGrant(s: System, sample: Sample) {
    && s.active == Some(sample.captureId)
    && (sample.kind.VideoNv12? ==> s.devices.camera) && (sample.kind.AudioPcm16? ==> s.devices.microphone)
  }

  lemma StepGrants(s: System, e: Event)
    requires forall i :: 0 <= i < |s.produced| ==> OfGrant(s, s.produced[i])
    ensures Step(s, e).devices == s.devices
    ensures var t := Step(s, e); forall i :: 0 <= i < |t.produced| ==> OfGrant(t, t.produced[i])
  {
    var t := Step(s, e);
    if e.Provides? {
      hide Enqueued;
    } else {
      StepKeepsProduced(s, e);
      hide Step;
      forall i | 0 <= i < |t.produced| ensures OfGrant(t, t.produced[i]) {
        assert OfGrant(s, s.produced[i]);
      }
    }
  }

  lemma StepKeepsProduced(s: System, e: Event)
    requires !e.Provides?
    ensures var t := Step(s, e);
      t.produced == s.produced && t.devices == s.devices && (s.active.Some? ==> t.active == s.active)
  {
    hide Provide, Push, ReadSample, EncodeSample, Frame;
  }

  /** Over every interleaving only granted samples of one capture enter the path at all. */
  lemma {:induction false} ProducedGranted(session: U64, devices: Devices, events: seq<Event>)
    ensures var s := Run(Launched(session, devices), events);
      s.devices == devices && forall i :: 0 <= i < |s.produced| ==> OfGrant(s, s.produced[i])
    decreases |events|
  {
    hide Step, OfGrant;
    if events != [] {
      ProducedGranted(session, devices, events[..|events| - 1]);
      StepGrants(Run(Launched(session, devices), events[..|events| - 1]), events[|events| - 1]);
    }
  }

  /** While the child runs and keeps up, a granted sample of the active capture is handed on, not refused. */
  lemma ProvideExact(s: System, sample: Sample)
    requires s.childAlive && s.active.Some?
    ensures var t := Provide(s, sample);
      var granted := sample.captureId == s.active.value
        && (if sample.kind.VideoNv12? then s.devices.camera else s.devices.microphone);
      && (t.produced == if granted then s.produced + [sample] else s.produced)
      && (t.queue == if granted && s.writerAlive && |s.queue| < 2 then s.queue + [sample] else s.queue)
      && (t.childAlive <==> granted && s.writerAlive && (|s.queue| < 2 || sample.kind.VideoNv12?))
  {
  }

  // ---------- A loss is never silent ----------

  /** A reader that has ended told the consumer, unless the capture was retired on purpose. */
  ghost predicate Reported(s: System) {
    !s.readerAlive ==> s.mailbox.failed || s.mailbox.retired
  }

  lemma StepReports(s: System, e: Event)
    requires Reported(s)
    ensures Reported(Step(s, e))
  {
    hide ValidSample, Granted, Regresses, ReadSample, EncodeSample, Frame, Enqueued;
  }

  lemma {:induction false} EveryEndReported(session: U64, devices: Devices, events: seq<Event>)
    ensures Reported(Run(Launched(session, devices), events))
    decreases |events|
  {
    hide Step;
    if events != [] {
      EveryEndReported(session, devices, events[..|events| - 1]);
      StepReports(Run(Launched(session, devices), events[..|events| - 1]), events[|events| - 1]);
    }
  }

  function Reads(s: System, count: nat): System
    decreases count
  {
    if count == 0 then s else Reads(ReaderRead(s), count - 1)
  }

  lemma ReadShortens(s: System)
    requires Holds(s) && s.readerAlive && !s.writerAlive
    ensures var t := ReaderRead(s); !t.writerAlive && (t.readerAlive ==> |t.inFlight| < |s.inFlight|)
  {
    hide Push, ReadSample, ValidSample, SampleFrames, Sound, HandedHolds, AudioHolds, VideoHolds;
    if ReadSample(s.wire, s.session, s.readerSequence).Ok? {
      var (sample, rest) := ReadSample(s.wire, s.session, s.readerSequence).value;
      ReadsOldest(s, sample, rest);
    }
  }

  /**
    * Once the child has stopped writing, a reader that keeps reading ends after at most one read more
    * than there are samples in flight.
    */
  lemma {:induction false} ReaderDrains(s: System, count: nat)
    requires Holds(s) && !s.writerAlive && count > |s.inFlight|
    ensures !Reads(s, count).readerAlive
    decreases count
  {
    hide Holds, ReaderRead;
    if s.readerAlive {
      ReadShortens(s);
      ReaderReadHolds(s);
      if ReaderRead(s).readerAlive {
        ReaderDrains(ReaderRead(s), count - 1);
      } else {
        StaysEnded(ReaderRead(s), count - 1);
      }
    } else {
      StaysEnded(s, count);
    }
  }

  lemma {:induction false} StaysEnded(s: System, count: nat)
    requires !s.readerAlive
    ensures Reads(s, count) == s
    decreases count
  {
    if count > 0 {
      StaysEnded(s, count - 1);
    }
  }

  lemma {:induction false} ReadsAreEvents(s: System, events: seq<Event>, count: nat)
    requires |events| == count && forall i :: 0 <= i < count ==> events[i] == ReaderReads
    ensures Run(s, events) == Reads(s, count)
    decreases count
  {
    hide ReaderRead;
    if count > 0 {
      var n := count - 1;
      ReadsAreEvents(s, events[..n], n);
      ReadsEnd(s, n);
    }
  }

  lemma {:induction false} ReadsEnd(s: System, count: nat)
    ensures Reads(s, count + 1) == ReaderRead(Reads(s, count))
    decreases count
  {
    hide ReaderRead;
    if count > 0 {
      ReadsEnd(ReaderRead(s), count - 1);
    }
  }

  /** After the writer ends, for whatever reason, the consumer is told: audio is lossless or the capture fails. */
  lemma LossIsReported(session: U64, devices: Devices, events: seq<Event>, later: seq<Event>)
    requires !Run(Launched(session, devices), events).writerAlive
    requires |later| > |Run(Launched(session, devices), events).inFlight|
    requires forall i :: 0 <= i < |later| ==> later[i] == ReaderReads
    ensures var t := Run(Launched(session, devices), events + later); t.mailbox.failed || t.mailbox.retired
  {
    hide Holds, Step;
    var s := Run(Launched(session, devices), events);
    EveryInterleaving(session, devices, events);
    ReaderDrains(s, |later|);
    ReadsAreEvents(s, later, |later|);
    RunConcat(Launched(session, devices), events, later);
    EveryEndReported(session, devices, events + later);
  }

  lemma {:induction false} RunConcat(s: System, a: seq<Event>, b: seq<Event>)
    ensures Run(s, a + b) == Run(Run(s, a), b)
    decreases |b|
  {
    hide Step;
    if b == [] {
      assert a + b == a;
    } else {
      var n := |b| - 1;
      assert (a + b)[..|a| + n] == a + b[..n];
      RunConcat(s, a, b[..n]);
    }
  }

  lemma {:induction false} SubsequencePrefix<T>(a: seq<T>, c: seq<T>, b: seq<T>)
    requires Subsequence(a + c, b)
    ensures Subsequence(a, b)
    decreases |c|
  {
    if c == [] {
      assert a + c == a;
    } else {
      var n := |c| - 1;
      assert a + c == a + c[..n] + [c[n]] + [];
      SubsequenceDrop(a + c[..n], [], c[n], b);
      assert a + c[..n] + [] == a + c[..n];
      SubsequencePrefix(a, c[..n], b);
    }
  }
}
