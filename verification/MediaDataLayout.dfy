/** Where everything of a source stands on the media data pipe. */
module MediaDataLayout {
  import opened Bytes
  import opened MediaData

  /** A frame of this length, with these flags, for this offset of the source starts here. */
  ghost predicate FrameAt(wire: seq<byte>, at: nat, o: Origin, offset: U64, flags: U16, payload: seq<byte>) {
    && at + 72 + |payload| <= |wire|
    && var h := wire[at..at + 72];
      && h[..4] == [0x42, 0x52, 0x44, 0x31]
      && FromLittleEndian(h[4..6]) == 1 && FromLittleEndian(h[6..8]) == 0
      && FromLittleEndian(h[8..10]) == flags && h[10..12] == [0, 0]
      && FromLittleEndian(h[12..16]) == |payload| && FromLittleEndian(h[16..24]) == o.session
      && FromLittleEndian(h[24..32]) == o.source && FromLittleEndian(h[32..40]) == offset && h[40..72] == o.nonce
      && wire[at + 72..at + 72 + |payload|] == payload
  }

  lemma FrameThere(wire: seq<byte>, at: nat, o: Origin, offset: U64, flags: U16, payload: seq<byte>)
    requires |payload| < 0x1_0000_0000 && at + 72 + |payload| <= |wire|
    requires wire[at..at + 72] == Header(o, offset, flags, ZEROS, |payload|)
    requires wire[at + 72..at + 72 + |payload|] == payload
    ensures FrameAt(wire, at, o, offset, flags, payload)
  {
    HeaderLayout(wire[at..at + 72], o, offset, flags, ZEROS, |payload|);
    hide Header, FromLittleEndian;
  }

  lemma FrameBehind(front: seq<byte>, wire: seq<byte>, at: nat, o: Origin, offset: U64, flags: U16, payload: seq<byte>)
    requires FrameAt(wire, at, o, offset, flags, payload)
    ensures FrameAt(front + wire, |front| + at, o, offset, flags, payload)
  {
    hide FromLittleEndian;
    var whole := front + wire;
    assert whole[|front| + at..|front| + at + 72] == wire[at..at + 72];
    assert whole[|front| + at + 72..|front| + at + 72 + |payload|] == wire[at + 72..at + 72 + |payload|];
  }

  /** The first frame of what is still to come, and the rest behind it. */
  lemma FirstFrame(bytes: seq<byte>, o: Origin, offset: nat)
    requires offset + |bytes| < U64_BOUND && bytes != []
    ensures var n := if |bytes| < 262_144 then |bytes| else 262_144;
      Spelled(Chunks(bytes), ZEROS, o, offset) ==
        Header(o, offset, 0, ZEROS, n) + bytes[..n] + Spelled(Chunks(bytes[n..]), ZEROS, o, offset + n)
  {
    hide Header;
    var n := if |bytes| < 262_144 then |bytes| else 262_144;
    assert Chunks(bytes) == [Chunk(ZEROS, bytes[..n])] + Chunks(bytes[n..]);
    assert Chunks(bytes)[1..] == Chunks(bytes[n..]);
  }

  /** Frame `i` of what is still to come, while there are bytes for it. */
  lemma {:induction false} FrameStands(bytes: seq<byte>, o: Origin, offset: nat, i: nat)
    requires offset + |bytes| < U64_BOUND && i * 262_144 < |bytes|
    ensures var n := if |bytes| - i * 262_144 < 262_144 then |bytes| - i * 262_144 else 262_144;
      FrameAt(Spelled(Chunks(bytes), ZEROS, o, offset), i * (72 + 262_144), o, offset + i * 262_144, 0,
              bytes[i * 262_144..i * 262_144 + n])
    decreases i
  {
    hide Spelled, Chunks, Header, FrameAt;
    var n := if |bytes| < 262_144 then |bytes| else 262_144;
    var wire := Spelled(Chunks(bytes), ZEROS, o, offset);
    var front := Header(o, offset, 0, ZEROS, n) + bytes[..n];
    FirstFrame(bytes, o, offset);
    if i == 0 {
      assert wire[..72] == Header(o, offset, 0, ZEROS, n) && wire[72..72 + n] == bytes[..n];
      FrameThere(wire, 0, o, offset, 0, bytes[..n]);
    } else {
      FrameStands(bytes[n..], o, offset + n, i - 1);
      var m := if |bytes| - i * 262_144 < 262_144 then |bytes| - i * 262_144 else 262_144;
      var from := (i - 1) * 262_144;
      assert bytes[n..][from..from + m] == bytes[i * 262_144..i * 262_144 + m];
      FrameBehind(front, Spelled(Chunks(bytes[n..]), ZEROS, o, offset + n), (i - 1) * (72 + 262_144), o,
                  offset + i * 262_144, 0, bytes[i * 262_144..i * 262_144 + m]);
    }
  }

  function Frames(length: nat): nat {
    (length + 262_143) / 262_144
  }

  /** The end frame stands behind all others. */
  lemma {:induction false} EndStands(bytes: seq<byte>, o: Origin, offset: nat)
    requires offset + |bytes| < U64_BOUND
    ensures var wire := Spelled(Chunks(bytes), ZEROS, o, offset);
      && |wire| == |bytes| + 72 * Frames(|bytes|) + 72
      && FrameAt(wire, |bytes| + 72 * Frames(|bytes|), o, offset + |bytes|, 1, [])
    decreases |bytes|
  {
    hide Header, FrameAt, Spelled, Chunks;
    var wire := Spelled(Chunks(bytes), ZEROS, o, offset);
    if bytes == [] {
      assert wire == Header(o, offset, 1, ZEROS, 0) by { NothingLeft(o, offset); }
      assert wire[0..72] == wire;
      FrameThere(wire, 0, o, offset, 1, []);
    } else {
      var n := if |bytes| < 262_144 then |bytes| else 262_144;
      FirstFrame(bytes, o, offset);
      EndStands(bytes[n..], o, offset + n);
      var front := Header(o, offset, 0, ZEROS, n) + bytes[..n];
      FrameBehind(front, Spelled(Chunks(bytes[n..]), ZEROS, o, offset + n), |bytes| - n + 72 * Frames(|bytes| - n), o,
                  offset + |bytes|, 1, []);
    }
  }

  lemma NothingLeft(o: Origin, offset: nat)
    requires offset < U64_BOUND
    ensures Spelled(Chunks([]), ZEROS, o, offset) == Header(o, offset, 1, ZEROS, 0)
  {
    hide Header;
  }

  /**
    * A source travels as full frames of 256 KiB and one shorter one, each with the offset of its first
    * byte and its own length, and an end frame with the whole length as offset; nothing else is sent.
    */
  lemma WireLayout(o: Origin, bytes: seq<byte>, i: nat)
    requires ValidLength(|bytes|)
    ensures i * 262_144 < |bytes| ==>
      var n := if |bytes| - i * 262_144 < 262_144 then |bytes| - i * 262_144 else 262_144;
      FrameAt(Wire(o, bytes), i * (72 + 262_144), o, i * 262_144, 0, bytes[i * 262_144..i * 262_144 + n])
    ensures FrameAt(Wire(o, bytes), |bytes| + 72 * Frames(|bytes|), o, |bytes|, 1, [])
    ensures |Wire(o, bytes)| == |bytes| + 72 * (Frames(|bytes|) + 1)
  {
    hide FrameAt, Spelled, Frames;
    if i * 262_144 < |bytes| {
      FrameStands(bytes, o, 0, i);
    }
    EndStands(bytes, o, 0);
  }
}
