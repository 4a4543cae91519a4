/** The decoding stream as an object that advances through its packets. */
module OpusStream {
  import opened Outcome
  import opened OpusTrim

  class OggStream {
    const admitted: Admitted
    const source: seq<Packet>
    const scratch: array<Sample>
    var read: nat
    var position: nat
    var presented: nat
    var index: nat
    var finished: bool
    var failed: bool

    ghost function State(): Stream
      reads this
    {
      Stream(read, position, presented, index, finished, failed)
    }

    ghost predicate Valid()
      reads this
    {
      && Shaped(admitted, source) && admitted.start <= admitted.end && read <= |source|
      && scratch.Length == MAX_PACKET_FRAMES * admitted.channels
    }

    constructor (admitted: Admitted, source: seq<Packet>)
      requires Shaped(admitted, source) && admitted.start <= admitted.end
      ensures Valid() && fresh(scratch)
      ensures this.admitted == admitted && this.source == source && State() == OPENED
    {
      this.admitted, this.source := admitted, source;
      scratch := new Sample[MAX_PACKET_FRAMES * admitted.channels](_ => NotFinite);
      read, position, presented, index := 0, 0, 0, 0;
      finished, failed := false, false;
    }

    /** The native decoder writes a packet's frames at the front of the scratch buffer and leaves the rest as it was. */
    method Decode(packet: Packet) returns (count: nat)
      requires Valid() && packet.Decoded? && |packet.samples| == packet.count * admitted.channels
      modifies scratch
      ensures count == packet.count
      ensures count <= MAX_PACKET_FRAMES ==>
        |packet.samples| <= scratch.Length && scratch[..|packet.samples|] == packet.samples
    {
      count := packet.count;
      if count <= MAX_PACKET_FRAMES {
        assert |packet.samples| <= scratch.Length;
        for i := 0 to |packet.samples|
          invariant scratch[..i] == packet.samples[..i]
        {
          scratch[i] := packet.samples[i];
        }
      }
    }

    /** One turn of a call's loop, `units` steps into the call. */
    method Advance(units0: nat, patience: nat) returns (turn: Turn)
      requires Valid()
      modifies this`read, this`position, this`presented, this`index, this`finished, scratch
      ensures Valid()
      ensures (State(), turn) == LoopTurn(admitted, source, old(State()), units0, patience)
    {
      hide AllFinite, Trimmed, Present;
      var units := units0 + 1;
      if !Grants(units, patience) {
        return Return(Err(Stopped));
      }
      if finished {
        return Return(Ok(None));
      }
      if read == |source| {
        if index != |admitted.durations| || position != admitted.rawFrames
          || presented != admitted.end - admitted.start
        {
          return Return(Err(Incomplete));
        }
        finished := true;
        return Return(Ok(None));
      }
      var packet := source[read];
      read := read + 1;
      if packet.Unreadable? {
        return Return(Err(CannotRead));
      }
      if index >= |admitted.durations| {
        return Return(Err(UnexpectedPacket));
      }
      var expected := admitted.durations[index];
      units := units + 1;
      if !Grants(units, patience) {
        return Return(Err(Stopped));
      }
      if packet.Undecodable? {
        return Return(Err(CannotDecode));
      }
      var decoded := Decode(packet);
      units := units + 1;
      if !Grants(units, patience) {
        return Return(Err(Stopped));
      }
      if decoded != expected || decoded > MAX_PACKET_FRAMES {
        return Return(Err(WrongDuration));
      }
      var begin := position;
      if position + decoded > admitted.rawFrames {
        return Return(Err(PositionExceeded));
      }
      position := position + decoded;
      index := index + 1;
      turn := Trim(packet, begin);
    }

    /** Hands over what lies between the trim points of the packet that was just decoded into the scratch buffer. */
    method Trim(ghost packet: Packet, begin: nat) returns (turn: Turn)
      requires Valid() && packet.Decoded? && position == begin + packet.count && packet.count <= MAX_PACKET_FRAMES
      requires |packet.samples| == packet.count * admitted.channels <= scratch.Length
      requires scratch[..|packet.samples|] == packet.samples
      modifies this`presented
      ensures Valid()
      ensures (State(), turn) == Present(admitted, packet, begin, old(State()))
    {
      hide AllFinite;
      var left, right := Max(begin, admitted.start), Min(position, admitted.end);
      if left >= right {
        return Continue;
      }
      var first, last := (left - begin) * admitted.channels, (right - begin) * admitted.channels;
      SliceFits(left - begin, right - begin, packet.count, admitted.channels);
      var output := scratch[first..last];
      assert output == scratch[..|packet.samples|][first..last];
      if !AllFinite(output) {
        return Return(Err(NotFinitePcm));
      }
      if presented + (right - left) > admitted.end - admitted.start {
        return Return(Err(PresentationExceeded));
      }
      presented := presented + (right - left);
      return Return(Ok(Some(output)));
    }

    lemma SliceFits(from: nat, to: nat, count: nat, channels: nat)
      requires from <= to <= count && (channels == 1 || channels == 2)
      ensures from * channels <= to * channels <= count * channels
    {
    }

    /** Turns until one of them ends the call. */
    method DecodeLoop(patience: nat) returns (r: Block)
      requires Valid()
      modifies this`read, this`position, this`presented, this`index, this`finished, scratch
      ensures Valid()
      ensures (State(), r) == DecodeNext(admitted, source, old(State()), 0, patience)
    {
      hide LoopTurn;
      var units: nat := 0;
      while true
        invariant Valid() && failed == old(failed)
        invariant DecodeNext(admitted, source, State(), units, patience) ==
          DecodeNext(admitted, source, old(State()), 0, patience)
        decreases |source| - read
      {
        var turn := Advance(units, patience);
        if turn.Return? {
          return turn.block;
        }
        units := units + 3;
      }
    }

    /** The next block, nothing at the end, or an error that every later call repeats. */
    method NextBlock(patience: nat) returns (r: Block)
      requires Valid()
      modifies this, scratch
      ensures Valid()
      ensures (State(), r) == NextPcm(admitted, source, old(State()), patience)
    {
      hide DecodeNext;
      if failed {
        return Err(AlreadyFailed);
      }
      r := DecodeLoop(patience);
      if r.Err? {
        failed := true;
      }
    }
  }
}
