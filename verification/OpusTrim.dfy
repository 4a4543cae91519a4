/** Sample-exact decoding of an admitted Opus stream: packets in, trimmed blocks of PCM out. */
module OpusTrim {
  import opened Outcome

  const MAX_PACKET_FRAMES: nat := 5_760
  const MAX_PACKETS: nat := 16_384
  const MAX_UNITS: nat := 65_536

  datatype Sample = Finite(value: real) | NotFinite

  /** What reading and decoding the next packet gives; samples are interleaved. */
  datatype Packet = Unreadable | Undecodable | Decoded(count: nat, samples: seq<Sample>)

  /** What admission established of the whole source. */
  datatype Admitted = Admitted(channels: nat, start: nat, end: nat, rawFrames: nat, durations: seq<nat>)

  datatype Error = Stopped | CannotRead | UnexpectedPacket | CannotDecode | WrongDuration | PositionExceeded
      | NotFinitePcm | PresentationExceeded | Incomplete | AlreadyFailed

  datatype Stream = Stream(read: nat, position: nat, presented: nat, index: nat, finished: bool, failed: bool)

  const OPENED: Stream := Stream(0, 0, 0, 0, false, false)

  /** The decoder fills one interleaved frame per count, mono or stereo. */
  ghost predicate Shaped(a: Admitted, source: seq<Packet>) {
    && (a.channels == 1 || a.channels == 2)
    && forall i :: 0 <= i < |source| && source[i].Decoded? ==> |source[i].samples| == source[i].count * a.channels
  }

  predicate AllFinite(samples: seq<Sample>) {
    forall i :: 0 <= i < |samples| ==> samples[i].Finite?
  }

  /** Step number `unit` of a call; cancellation or the deadline may come at any of them. */
  predicate Grants(unit: nat, patience: nat) {
    unit <= patience && unit <= MAX_UNITS
  }

  function Max(a: nat, b: nat): nat {
    if a < b then b else a
  }

  function Min(a: nat, b: nat): nat {
    if a < b then a else b
  }

  type Block = Result<Option<seq<Sample>>, Error>

  /** How a turn of a call's loop ends: on to the next packet, or out of the call. */
  datatype Turn = Continue | Return(block: Block)

  /** One turn, `units` steps into the call. */
  function LoopTurn(a: Admitted, source: seq<Packet>, s: Stream, units: nat, patience: nat): (r: (Stream, Turn))
    requires Shaped(a, source) && a.start <= a.end && s.read <= |source|
    ensures s.read <= r.0.read <= |source| && r.0.failed == s.failed
    ensures r.1.Continue? ==> s.read < r.0.read
  {
    if !Grants(units + 1, patience) then (s, Return(Err(Stopped)))
    else if s.finished then (s, Return(Ok(None)))
    else if s.read == |source| then
      if s.index != |a.durations| || s.position != a.rawFrames || s.presented != a.end - a.start then
        (s, Return(Err(Incomplete)))
      else (s.(finished := true), Return(Ok(None)))
    else
      var t := s.(read := s.read + 1);
      var packet := source[s.read];
      if packet.Unreadable? then (t, Return(Err(CannotRead)))
      else if s.index >= |a.durations| then (t, Return(Err(UnexpectedPacket)))
      else if !Grants(units + 2, patience) then (t, Return(Err(Stopped)))
      else if packet.Undecodable? then (t, Return(Err(CannotDecode)))
      else if !Grants(units + 3, patience) then (t, Return(Err(Stopped)))
      else if packet.count != a.durations[s.index] || packet.count > MAX_PACKET_FRAMES then
        (t, Return(Err(WrongDuration)))
      else if s.position + packet.count > a.rawFrames then (t, Return(Err(PositionExceeded)))
      else Present(a, packet, s.position, t.(position := s.position + packet.count, index := s.index + 1))
  }

  /** What a decoded packet adds to what is heard; `u` is already past the packet that began at `begin`. */
  function Present(a: Admitted, packet: Packet, begin: nat, u: Stream): (r: (Stream, Turn))
    requires packet.Decoded? && u.position == begin + packet.count && a.start <= a.end
    requires (a.channels == 1 || a.channels == 2) && |packet.samples| == packet.count * a.channels
    ensures r.0.read == u.read && r.0.failed == u.failed
  {
    var left, right := Max(begin, a.start), Min(u.position, a.end);
    if left >= right then (u, Continue)
    else
      var output := Trimmed(a, packet, begin, left, right);
      if !AllFinite(output) then (u, Return(Err(NotFinitePcm)))
      else if u.presented + (right - left) > a.end - a.start then (u, Return(Err(PresentationExceeded)))
      else (u.(presented := u.presented + (right - left)), Return(Ok(Some(output))))
  }

  /** One call's loop, `units` steps into it. */
  function DecodeNext(a: Admitted, source: seq<Packet>, s: Stream, units: nat, patience: nat): (Stream, Block)
    requires Shaped(a, source) && a.start <= a.end && s.read <= |source|
    decreases |source| - s.read
  {
    var (t, turn) := LoopTurn(a, source, s, units, patience);
    match turn
    case Return(block) => (t, block)
    case Continue => DecodeNext(a, source, t, units + 3, patience)
  }

  /** The part of a packet's PCM between two raw positions. */
  function Trimmed(a: Admitted, packet: Packet, position: nat, left: nat, right: nat): seq<Sample>
    requires packet.Decoded? && position <= left < right <= position + packet.count
    requires (a.channels == 1 || a.channels == 2) && |packet.samples| == packet.count * a.channels
  {
    packet.samples[(left - position) * a.channels..(right - position) * a.channels]
  }

  function NextPcm(a: Admitted, source: seq<Packet>, s: Stream, patience: nat): (Stream, Block)
    requires Shaped(a, source) && a.start <= a.end && s.read <= |source|
  {
    if s.failed then (s, Err(AlreadyFailed))
    else
      var (t, r) := DecodeNext(a, source, s, 0, patience);
      (if r.Err? then t.(failed := true) else t, r)
  }

  // ---------- Failure and end are permanent ----------

  lemma FailureIsPermanent(a: Admitted, source: seq<Packet>, s: Stream, patience: nat, later: nat)
    requires Shaped(a, source) && a.start <= a.end && s.read <= |source|
    ensures var (t, r) := NextPcm(a, source, s, patience);
      && (r.Err? <==> t.failed)
      && (r.Err? ==> t.read <= |source| && NextPcm(a, source, t, later) == (t, Err(AlreadyFailed)))
  {
    ReadsOnward(a, source, s, 0, patience);
  }

  lemma EndIsPermanent(a: Admitted, source: seq<Packet>, s: Stream, patience: nat, later: nat)
    requires Shaped(a, source) && a.start <= a.end && s.read <= |source|
    ensures var (t, r) := NextPcm(a, source, s, patience);
      && (r == Ok(None) ==> t.read <= |source| && t.finished)
      && (r == Ok(None) ==> NextPcm(a, source, t, later) == if later == 0 then (t.(failed := true), Err(Stopped))
           else (t, Ok(None)))
  {
    ReadsOnward(a, source, s, 0, patience);
  }

  lemma TurnOnward(a: Admitted, source: seq<Packet>, s: Stream, units: nat, patience: nat)
    requires Shaped(a, source) && a.start <= a.end && s.read <= |source|
    ensures var (t, turn) := LoopTurn(a, source, s, units, patience);
      turn.Return? ==>
        && (turn.block == Ok(None) <==> turn.block.Ok? && t.finished)
        && (turn.block.Ok? && turn.block.value.Some? ==> s.read < t.read)
  {
    hide Trimmed, AllFinite;
  }

  lemma {:induction false} ReadsOnward(a: Admitted, source: seq<Packet>, s: Stream, units: nat, patience: nat)
    requires Shaped(a, source) && a.start <= a.end && s.read <= |source|
    ensures var (t, r) := DecodeNext(a, source, s, units, patience);
      && s.read <= t.read <= |source| && t.failed == s.failed
      && (r == Ok(None) <==> r.Ok? && t.finished)
      && (r.Ok? && r.value.Some? ==> s.read < t.read)
    decreases |source| - s.read
  {
    hide LoopTurn;
    TurnOnward(a, source, s, units, patience);
    var (t, turn) := LoopTurn(a, source, s, units, patience);
    if turn.Continue? {
      ReadsOnward(a, source, t, units + 3, patience);
    }
  }

  // ---------- An admitted source, decoded as admitted ----------

  function Position(durations: seq<nat>, n: nat): nat
    requires n <= |durations|
  {
    if n == 0 then 0 else Position(durations, n - 1) + durations[n - 1]
  }

  /** All the PCM of the first `n` packets, untrimmed. */
  function Raw(source: seq<Packet>, n: nat): seq<Sample>
    requires n <= |source| && forall i :: 0 <= i < |source| ==> source[i].Decoded?
  {
    if n == 0 then [] else Raw(source, n - 1) + source[n - 1].samples
  }

  /** Every sample of a packet that lies between the trim points is finite; the packet begins at a raw position. */
  ghost predicate FiniteHeard(a: Admitted, packet: Packet, begin: nat)
    requires packet.Decoded? && (a.channels == 1 || a.channels == 2)
  {
    forall i :: 0 <= i < |packet.samples| && a.start <= begin + i / a.channels < a.end ==> packet.samples[i].Finite?
  }

  /**
    * The decoder gives packet `i` its admitted duration, at most 5,760 frames, and finite samples
    * where they are heard.
    */
  ghost predicate PacketHonoured(a: Admitted, source: seq<Packet>, i: nat)
    requires (a.channels == 1 || a.channels == 2) && i < |source| && i < |a.durations|
  {
    source[i].Decoded? && source[i].count == a.durations[i] <= 5_760
      && FiniteHeard(a, source[i], Position(a.durations, i))
  }

  /** Every packet is as admitted, and admission counted right. */
  ghost predicate Honoured(a: Admitted, source: seq<Packet>) {
    && Shaped(a, source)
    && |source| == |a.durations| <= MAX_PACKETS
    && (forall i {:trigger source[i]} {:trigger PacketHonoured(a, source, i)} :: 0 <= i < |source| ==>
         PacketHonoured(a, source, i))
    && a.rawFrames == Position(a.durations, |a.durations|)
    && a.start <= a.end <= a.rawFrames
  }

  /** How many frames before a raw position are to be heard. */
  function Heard(a: Admitted, position: nat): nat
    requires a.start <= a.end
  {
    Max(Min(position, a.end), a.start) - a.start
  }

  ghost predicate InStep(a: Admitted, source: seq<Packet>, s: Stream)
    requires a.start <= a.end
  {
    && s.read == s.index <= |source| == |a.durations|
    && s.position == Position(a.durations, s.index)
    && s.presented == Heard(a, s.position)
    && !s.failed && (s.finished ==> s.index == |source|)
  }

  lemma {:induction false} PositionGrows(durations: seq<nat>, n: nat, m: nat)
    requires n <= m <= |durations|
    ensures Position(durations, n) <= Position(durations, m)
  {
    if n < m {
      PositionGrows(durations, n, m - 1);
    }
  }

  lemma {:induction false} RawLength(a: Admitted, source: seq<Packet>, n: nat)
    requires Honoured(a, source) && n <= |source|
    ensures |Raw(source, n)| == Position(a.durations, n) * a.channels
  {
    if n > 0 {
      RawLength(a, source, n - 1);
    }
  }

  lemma {:induction false} RawPrefix(source: seq<Packet>, n: nat, m: nat)
    requires n <= m <= |source| && forall i :: 0 <= i < |source| ==> source[i].Decoded?
    ensures Raw(source, n) <= Raw(source, m)
  {
    if n < m {
      RawPrefix(source, n, m - 1);
    }
  }

  /** The samples between two raw frame positions of the whole stream. */
  function Between(a: Admitted, source: seq<Packet>, left: nat, right: nat): (r: seq<Sample>)
    requires Honoured(a, source) && left <= right <= a.rawFrames
    ensures |r| == (right - left) * a.channels
  {
    RawLength(a, source, |source|);
    Raw(source, |source|)[left * a.channels..right * a.channels]
  }

  lemma Whole(whole: seq<Sample>, a: seq<Sample>, b: seq<Sample>, from: nat, to: nat)
    requires a + b <= whole && from <= to <= |b|
    ensures |a| + to <= |whole| && b[from..to] == whole[|a| + from..|a| + to]
  {
  }

  lemma Scaled(channels: nat, begin: nat, left: nat, right: nat, end: nat)
    requires (channels == 1 || channels == 2) && begin <= left <= right <= end
    ensures begin * channels + (left - begin) * channels == left * channels
    ensures begin * channels + (right - begin) * channels == right * channels
    ensures 0 <= (left - begin) * channels <= (right - begin) * channels <= (end - begin) * channels
  {
  }

  /** What is cut out of one packet is that part of the whole stream. */
  lemma TrimmedBetween(a: Admitted, source: seq<Packet>, n: nat, left: nat, right: nat)
    requires Honoured(a, source) && n < |source|
    requires Position(a.durations, n) <= left < right <= Position(a.durations, n + 1)
    ensures right <= a.rawFrames
    ensures Trimmed(a, source[n], Position(a.durations, n), left, right) == Between(a, source, left, right)
  {
    PositionGrows(a.durations, n + 1, |source|);
    RawLength(a, source, n);
    RawPrefix(source, n + 1, |source|);
    var p := Position(a.durations, n);
    var from, to := (left - p) * a.channels, (right - p) * a.channels;
    Scaled(a.channels, p, left, right, Position(a.durations, n + 1));
    assert Position(a.durations, n + 1) - p == source[n].count;
    hide Position, Honoured;
    Whole(Raw(source, |source|), Raw(source, n), source[n].samples, from, to);
  }

  /** The frames of one packet that are to be heard follow those heard before. */
  lemma HeardNext(a: Admitted, before: nat, after: nat)
    requires a.start <= a.end && before <= after
    ensures var left, right := Max(before, a.start), Min(after, a.end);
      if left >= right then Heard(a, after) == Heard(a, before)
      else
        && left == a.start + Heard(a, before) && right == a.start + Heard(a, after)
        && Heard(a, after) <= a.end - a.start
  {
  }

  /** What is cut out of a packet is finite exactly if it is finite wherever it is heard. */
  lemma FinitePart(a: Admitted, packet: Packet, position: nat)
    requires packet.Decoded? && (a.channels == 1 || a.channels == 2) && |packet.samples| == packet.count * a.channels
    ensures var left, right := Max(position, a.start), Min(position + packet.count, a.end);
      if left >= right then FiniteHeard(a, packet, position)
      else AllFinite(Trimmed(a, packet, position, left, right)) <==> FiniteHeard(a, packet, position)
  {
    var left, right := Max(position, a.start), Min(position + packet.count, a.end);
    if left < right {
      var part := Trimmed(a, packet, position, left, right);
      var from := (left - position) * a.channels;
      if AllFinite(part) {
        forall i | 0 <= i < |packet.samples| && a.start <= position + i / a.channels < a.end
          ensures packet.samples[i].Finite?
        {
          HeardIndex(a.channels, position, left, right, i);
          assert part[i - from] == packet.samples[i];
        }
      } else {
        var j :| 0 <= j < |part| && !part[j].Finite?;
        HeardIndex(a.channels, position, left, right, from + j);
        assert packet.samples[from + j] == part[j];
      }
    }
  }

  /** A sample lies in what is cut out exactly if its frame is between the two positions. */
  lemma HeardIndex(channels: nat, position: nat, left: nat, right: nat, i: nat)
    requires (channels == 1 || channels == 2) && position <= left
    ensures left <= position + i / channels < right <==>
      (left - position) * channels <= i < (right - position) * channels
  {
  }

  /** The stream after one more packet, and the part of it that is heard. */
  function After(a: Admitted, s: Stream): Stream
    requires s.read < |a.durations|
  {
    s.(read := s.read + 1, position := Position(a.durations, s.read + 1), index := s.read + 1)
  }

  /** One packet of an honoured source passes every check. */
  lemma PacketPasses(a: Admitted, source: seq<Packet>, s: Stream, units: nat, patience: nat)
    requires Honoured(a, source) && InStep(a, source, s) && !s.finished && s.read < |source|
    requires patience >= MAX_UNITS && units + 3 <= MAX_UNITS
    ensures var u := After(a, s);
      var left, right := Max(s.position, a.start), Min(u.position, a.end);
      && InStep(a, source, u.(presented := Heard(a, u.position)))
      && DecodeNext(a, source, s, units, patience) ==
        if left >= right then DecodeNext(a, source, u, units + 3, patience)
        else (u.(presented := Heard(a, u.position)), Ok(Some(Between(a, source, left, right))))
  {
    hide Between, Trimmed, AllFinite, Heard;
    var n := s.read;
    var u := After(a, s);
    assert u.position == s.position + source[n].count;
    PositionGrows(a.durations, n + 1, |source|);
    HeardNext(a, s.position, u.position);
    var left, right := Max(s.position, a.start), Min(u.position, a.end);
    if left < right {
      TrimmedBetween(a, source, n, left, right);
      FinitePart(a, source[n], s.position);
    }
  }

  /** What a call promises: the next block of the stream, or that everything was handed over. */
  ghost predicate EndsWell(a: Admitted, source: seq<Packet>, s: Stream, t: Stream, r: Block)
    requires Honoured(a, source)
  {
    && InStep(a, source, t) && s.presented <= t.presented && a.start + t.presented <= a.end
    && match r
       case Err(_) => false
       case Ok(None) => t.finished && t.presented == s.presented == a.end - a.start
       case Ok(Some(block)) =>
         && s.presented < t.presented
         && block == Between(a, source, a.start + s.presented, a.start + t.presented)
  }

  /** At the end of the source the count of presented frames is complete. */
  lemma CallEnds(a: Admitted, source: seq<Packet>, s: Stream, units: nat, patience: nat)
    requires Honoured(a, source) && InStep(a, source, s) && (s.finished || s.read == |source|)
    requires patience >= MAX_UNITS && units + 1 <= MAX_UNITS
    ensures var (t, r) := DecodeNext(a, source, s, units, patience); EndsWell(a, source, s, t, r)
  {
    hide Between, Shaped;
    EndHeard(a);
  }

  lemma CallPacket(a: Admitted, source: seq<Packet>, s: Stream, units: nat, patience: nat)
    requires Honoured(a, source) && InStep(a, source, s) && !s.finished && s.read < |source|
    requires patience >= MAX_UNITS && units + 3 <= MAX_UNITS
    ensures var u := After(a, s);
      if Max(s.position, a.start) >= Min(u.position, a.end) then
        InStep(a, source, u)
          && DecodeNext(a, source, s, units, patience) == DecodeNext(a, source, u, units + 3, patience)
      else
        EndsWell(a, source, s, DecodeNext(a, source, s, units, patience).0, DecodeNext(a, source, s, units, patience).1)
  {
    var u := After(a, s);
    PacketPasses(a, source, s, units, patience);
    PositionGrows(a.durations, s.read, s.read + 1);
    HeardNext(a, s.position, u.position);
    HeardBounded(a, u.position);
    hide DecodeNext, Between, Heard, Shaped;
    var w := u.(presented := Heard(a, u.position));
    if Max(s.position, a.start) >= Min(u.position, a.end) {
      assert w == u;
    } else {
      assert s.presented < w.presented;
    }
  }

  /** Each call ends well. */
  lemma {:induction false} CallExact(a: Admitted, source: seq<Packet>, s: Stream, units: nat, patience: nat)
    requires Honoured(a, source) && InStep(a, source, s)
    requires patience >= MAX_UNITS && units + 3 * (|source| - s.read) + 1 <= MAX_UNITS
    ensures var (t, r) := DecodeNext(a, source, s, units, patience); EndsWell(a, source, s, t, r)
    decreases |source| - s.read
  {
    hide DecodeNext, Between, Shaped, Max, Min;
    if s.finished || s.read == |source| {
      CallEnds(a, source, s, units, patience);
    } else {
      CallPacket(a, source, s, units, patience);
      var u := After(a, s);
      if Max(s.position, a.start) >= Min(u.position, a.end) {
        CallExact(a, source, u, units + 3, patience);
      }
    }
  }

  lemma HeardBounded(a: Admitted, position: nat)
    requires a.start <= a.end
    ensures a.start + Heard(a, position) <= a.end
  {
  }

  lemma EndHeard(a: Admitted)
    requires a.start <= a.end <= a.rawFrames
    ensures Heard(a, a.rawFrames) == a.end - a.start
  {
  }

  // ---------- Whole runs ----------

  /** The stream and what has been handed over after so many calls. */
  function Calls(a: Admitted, source: seq<Packet>, calls: nat, patience: nat): (r: (Stream, seq<Sample>))
    requires Shaped(a, source) && a.start <= a.end
    ensures r.0.read <= |source|
  {
    if calls == 0 then (OPENED, [])
    else
      var (s, heard) := Calls(a, source, calls - 1, patience);
      ReadsOnward(a, source, s, 0, patience);
      var (t, block) := NextPcm(a, source, s, patience);
      (t, if block.Ok? && block.value.Some? then heard + block.value.value else heard)
  }

  lemma Joined(a: Admitted, source: seq<Packet>, left: nat, middle: nat, right: nat)
    requires Honoured(a, source) && left <= middle <= right <= a.rawFrames
    ensures Between(a, source, left, middle) + Between(a, source, middle, right) == Between(a, source, left, right)
  {
    var raw := Raw(source, |source|);
    RawLength(a, source, |source|);
    var x, y, z := left * a.channels, middle * a.channels, right * a.channels;
    assert raw[x..y] + raw[y..z] == raw[x..z];
  }

  /**
    * What holds between calls: the presented part has been handed over, and every call got one packet
    * further, or all is done.
    */
  ghost predicate Handed(a: Admitted, source: seq<Packet>, s: Stream, heard: seq<Sample>, calls: nat)
    requires Honoured(a, source)
  {
    && InStep(a, source, s) && a.start + s.presented <= a.end
    && heard == Between(a, source, a.start, a.start + s.presented)
    && (s.finished ==> s.presented == a.end - a.start)
    && (s.finished || (s.presented >= calls && s.read >= calls))
  }

  lemma CallHands(a: Admitted, source: seq<Packet>, s: Stream, heard: seq<Sample>, calls: nat, patience: nat)
    requires Honoured(a, source) && patience >= MAX_UNITS && Handed(a, source, s, heard, calls)
    ensures var (t, block) := NextPcm(a, source, s, patience);
      Handed(a, source, t, if block.Ok? && block.value.Some? then heard + block.value.value else heard, calls + 1)
  {
    hide Between, Shaped, DecodeNext, Honoured;
    assert |source| <= MAX_PACKETS && a.start <= a.end <= a.rawFrames && Shaped(a, source) by { Basics(a, source); }
    CallExact(a, source, s, 0, patience);
    if s.finished {
      FinishedStays(a, source, s, patience);
    } else {
      ReadsOnward(a, source, s, 0, patience);
      var (t, block) := NextPcm(a, source, s, patience);
      Joined(a, source, a.start, a.start + s.presented, a.start + t.presented);
    }
  }

  /** After any number of calls exactly the presented part has been handed over, in order and without gaps. */
  lemma {:induction false} CallsExact(a: Admitted, source: seq<Packet>, calls: nat, patience: nat)
    requires Honoured(a, source) && patience >= MAX_UNITS
    ensures var (s, heard) := Calls(a, source, calls, patience); Handed(a, source, s, heard, calls)
  {
    if calls == 0 {
      StartHanded(a, source);
    } else {
      hide Handed, Shaped, NextPcm, Honoured, InStep, Position, Heard;
      assert a.start <= a.end && Shaped(a, source) by { Basics(a, source); }
      CallsExact(a, source, calls - 1, patience);
      var (s, heard) := Calls(a, source, calls - 1, patience);
      CallHands(a, source, s, heard, calls - 1, patience);
      var (t, block) := NextPcm(a, source, s, patience);
      assert Calls(a, source, calls, patience) ==
        (t, if block.Ok? && block.value.Some? then heard + block.value.value else heard);
    }
  }

  lemma Basics(a: Admitted, source: seq<Packet>)
    requires Honoured(a, source)
    ensures |source| <= MAX_PACKETS && a.start <= a.end <= a.rawFrames && Shaped(a, source)
  {
  }

  lemma StartHanded(a: Admitted, source: seq<Packet>)
    requires Honoured(a, source)
    ensures Handed(a, source, OPENED, [], 0)
  {
    hide Shaped, Raw, Between;
    assert Heard(a, 0) == 0;
    assert Between(a, source, a.start, a.start) == [];
  }

  lemma FinishedStays(a: Admitted, source: seq<Packet>, s: Stream, patience: nat)
    requires Shaped(a, source) && a.start <= a.end && s.read <= |source| && s.finished && patience > 0
    ensures DecodeNext(a, source, s, 0, patience) == (s, Ok(None))
  {
  }

  /**
    * Calling until the end hands over exactly the raw frames between the two trim points; the
    * completeness check never fails, and one call more than there are packets, or frames to hear, is enough.
    */
  lemma HeardExactly(a: Admitted, source: seq<Packet>, calls: nat, patience: nat)
    requires Honoured(a, source) && patience >= MAX_UNITS && (calls > a.end - a.start || calls > |source|)
    ensures var (s, heard) := Calls(a, source, calls, patience);
      s.finished && !s.failed && heard == Between(a, source, a.start, a.end)
  {
    hide Between, Shaped;
    CallsExact(a, source, calls, patience);
  }

  // ---------- Only such a source is decoded to its end ----------

  /** What a stream that has not failed has seen. */
  ghost predicate Vouched(a: Admitted, source: seq<Packet>, s: Stream)
    requires (a.channels == 1 || a.channels == 2) && a.start <= a.end
  {
    && s.read == s.index <= |source| && s.index <= |a.durations|
    && (forall i {:trigger source[i]} {:trigger PacketHonoured(a, source, i)} :: 0 <= i < s.index ==>
         PacketHonoured(a, source, i))
    && s.position == Position(a.durations, s.index)
    && s.presented == Heard(a, s.position)
    && (s.finished ==> s.index == |source| == |a.durations| && s.position == a.rawFrames)
  }

  /** A turn that takes a packet and finds no fault found it as admitted so far. */
  lemma TurnTakes(a: Admitted, source: seq<Packet>, s: Stream, units: nat, patience: nat)
    requires Shaped(a, source) && a.start <= a.end && !s.finished && s.read < |source|
    requires var turn := LoopTurn(a, source, s, units, patience).1; turn.Return? ==> turn.block.Ok?
    ensures source[s.read].Decoded? && s.index < |a.durations|
    ensures source[s.read].count == a.durations[s.index] <= 5_760
    ensures var packet, t := source[s.read], LoopTurn(a, source, s, units, patience).0;
      var left, right := Max(s.position, a.start), Min(s.position + packet.count, a.end);
      && t == s.(read := s.read + 1, index := s.index + 1, position := s.position + packet.count,
                 presented := t.presented)
      && (if left >= right then t.presented == s.presented
          else t.presented == s.presented + (right - left) && AllFinite(Trimmed(a, packet, s.position, left, right)))
  {
    hide AllFinite, Trimmed;
  }

  lemma TurnVouched(a: Admitted, source: seq<Packet>, s: Stream, units: nat, patience: nat)
    requires Shaped(a, source) && a.start <= a.end && Vouched(a, source, s)
    ensures var (t, turn) := LoopTurn(a, source, s, units, patience);
      (turn.Return? ==> turn.block.Ok?) ==> Vouched(a, source, t)
  {
    var (t, turn) := LoopTurn(a, source, s, units, patience);
    if turn.Return? ==> turn.block.Ok? {
      if !s.finished && s.read < |source| {
        TurnTakes(a, source, s, units, patience);
        VouchedNext(a, source, s, t.presented);
        hide *;
      } else {
        hide Position, Heard, PacketHonoured;
      }
    }
  }

  lemma VouchedNext(a: Admitted, source: seq<Packet>, s: Stream, presented: nat)
    requires Shaped(a, source) && a.start <= a.end && Vouched(a, source, s) && !s.finished
    requires s.read < |source| && s.index < |a.durations| && source[s.read].Decoded?
    requires source[s.read].count == a.durations[s.index] <= 5_760
    requires var packet := source[s.read];
      var left, right := Max(s.position, a.start), Min(s.position + packet.count, a.end);
      if left >= right then presented == s.presented
      else presented == s.presented + (right - left) && AllFinite(Trimmed(a, packet, s.position, left, right))
    ensures Vouched(a, source, s.(read := s.read + 1, index := s.index + 1,
                                  position := s.position + source[s.read].count, presented := presented))
  {
    var packet := source[s.read];
    FinitePart(a, packet, s.position);
    HeardNext(a, s.position, s.position + packet.count);
    hide FiniteHeard, AllFinite, Trimmed, Heard;
    assert PacketHonoured(a, source, s.index);
  }

  lemma {:induction false} NextVouched(a: Admitted, source: seq<Packet>, s: Stream, units: nat, patience: nat)
    requires Shaped(a, source) && a.start <= a.end && Vouched(a, source, s)
    ensures var (t, r) := DecodeNext(a, source, s, units, patience); r.Ok? ==> Vouched(a, source, t)
    decreases |source| - s.read
  {
    hide LoopTurn, Shaped;
    TurnVouched(a, source, s, units, patience);
    var (t, turn) := LoopTurn(a, source, s, units, patience);
    hide Vouched;
    if turn.Continue? {
      NextVouched(a, source, t, units + 3, patience);
    }
  }

  lemma {:induction false} CallsVouched(a: Admitted, source: seq<Packet>, calls: nat, patience: nat)
    requires Shaped(a, source) && a.start <= a.end
    ensures var s := Calls(a, source, calls, patience).0; s.failed || Vouched(a, source, s)
  {
    if calls > 0 {
      hide Vouched, Shaped, DecodeNext;
      CallsVouched(a, source, calls - 1, patience);
      var s := Calls(a, source, calls - 1, patience).0;
      ReadsOnward(a, source, s, 0, patience);
      if !s.failed {
        NextVouched(a, source, s, 0, patience);
      }
    }
  }

  /**
    * Decoding reaches its end without an error exactly if every packet was as admitted: as many as there
    * are durations, each of its own, all adding up, and finite wherever they are heard.
    */
  lemma EndsExactly(a: Admitted, source: seq<Packet>, calls: nat, patience: nat)
    requires Shaped(a, source) && a.start <= a.end <= a.rawFrames && |a.durations| <= MAX_PACKETS
    requires patience >= MAX_UNITS && calls > |source|
    ensures var s := Calls(a, source, calls, patience).0; s.finished && !s.failed <==> Honoured(a, source)
  {
    hide *;
    CallsVouched(a, source, calls, patience);
    if Honoured(a, source) {
      HeardExactly(a, source, calls, patience);
    }
    var s := Calls(a, source, calls, patience).0;
    if s.finished && !s.failed {
      VouchedEnd(a, source, s);
    }
  }

  lemma VouchedEnd(a: Admitted, source: seq<Packet>, s: Stream)
    requires Shaped(a, source) && a.start <= a.end <= a.rawFrames && |a.durations| <= MAX_PACKETS
    requires Vouched(a, source, s) && s.finished
    ensures Honoured(a, source)
  {
    hide Position, PacketHonoured;
  }
}
