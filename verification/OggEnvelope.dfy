/**
  * Admission of a complete Ogg stream: one logical stream of consecutive pages whose packets stay
  * within their limits.
  */
module OggEnvelope {
  import opened Bytes
  import opened Outcome
  import opened OggPages

  /** What the upstream page parser says of a fixed header, and of a page's checksum. */
  datatype Parser = Parser(parses: seq<byte> -> bool, verifies: seq<byte> -> bool)

  datatype Page = Page(granule: nat, segments: nat, completedPackets: nat, continued: bool, eos: bool)

  datatype Envelope = Envelope(serial: nat, pages: seq<Page>)

  datatype Refusal = Complexity | Truncated | Framing | SequenceOverflow | Unparsable | PacketTooLarge
      | IncompletePacket | NoEnd

  function Serial(v: View): nat
    requires Shaped(v)
  {
    FromLittleEndian(v.header[14..18])
  }

  function Sequence(v: View): nat
    requires Shaped(v)
  {
    FromLittleEndian(v.header[18..22])
  }

  function Granule(v: View): nat
    requires Shaped(v)
  {
    FromLittleEndian(v.header[6..14])
  }

  predicate Continued(v: View)
    requires Shaped(v)
  {
    v.header[5] % 2 == 1
  }

  predicate First(v: View)
    requires Shaped(v)
  {
    v.header[5] / 2 % 2 == 1
  }

  predicate Eos(v: View)
    requires Shaped(v)
  {
    v.header[5] / 4 % 2 == 1
  }

  // ---------- What a complete stream is ----------

  /** A page fits in `k`-th place, after the laces of the pages before it. */
  predicate Fits(p: Parser, limit: nat -> U64, v: View, k: nat, before: seq<byte>, serial: nat, ended: bool)
    requires Shaped(v)
  {
    && v.header[..4] == OGGS && v.header[5] < 8
    && Sequence(v) == k && k < U32_BOUND - 1
    && Serial(v) == serial
    && (First(v) <==> k == 0)
    && !ended
    && (Continued(v) <==> Open(before))
    && p.parses(v.header) && p.verifies(Wire(v))
    && Within(before, v.laces, limit)
    && (Eos(v) ==> !Open(before + v.laces))
  }

  predicate PageFits(p: Parser, limit: nat -> U64, views: seq<View>, k: nat)
    requires k < |views| && AllShaped(views)
  {
    Fits(p, limit, views[k], k, Laces(views[..k]), Serial(views[0]), k > 0 && Eos(views[k - 1]))
  }

  predicate Complete(p: Parser, limit: nat -> U64, steps: nat, views: seq<View>)
    requires AllShaped(views)
  {
    && 3 <= |views| <= steps
    && (forall k :: 0 <= k < |views| ==> PageFits(p, limit, views, k))
    && Eos(views[|views| - 1])
  }

  function Summary(views: seq<View>, k: nat): Page
    requires k < |views| && AllShaped(views)
  {
    var v := views[k];
    Page(Granule(v), |v.laces|, Count(v.laces), Open(Laces(views[..k]) + v.laces), Eos(v))
  }

  function Summaries(views: seq<View>): (pages: seq<Page>)
    requires AllShaped(views)
    ensures |pages| == |views|
  {
    seq(|views|, k requires 0 <= k < |views| => Summary(views, k))
  }

  /** The bytes are a complete stream, and this is its envelope. */
  ghost predicate Admits(p: Parser, limit: nat -> U64, steps: nat, bytes: seq<byte>, e: Envelope) {
    match Cut(bytes)
    case None => false
    case Some(views) =>
      CutExact(bytes, views);
      Complete(p, limit, steps, views) && e == Envelope(Serial(views[0]), Summaries(views))
  }

  // ---------- What it means ----------

  lemma {:induction false} AllWithin(p: Parser, limit: nat -> U64, views: seq<View>, n: nat)
    requires AllShaped(views) && n <= |views|
    requires forall k :: 0 <= k < n ==> PageFits(p, limit, views, k)
    ensures Within([], Laces(views[..n]), limit)
  {
    if n > 0 {
      hide Laces, Open, Within, Fits, Shaped;
      AllWithin(p, limit, views, n - 1);
      var k := n - 1;
      assert PageFits(p, limit, views, k);
      FitsMeans(p, limit, views[k], k, Laces(views[..k]), Serial(views[0]), k > 0 && Eos(views[k - 1]));
      WithinConcat(Laces(views[..n - 1]), views[n - 1].laces, limit);
      LacesNext(views, n - 1);
    } else {
      assert views[..0] == [];
    }
  }

  lemma LacesNext(views: seq<View>, k: nat)
    requires k < |views|
    ensures Laces(views[..k + 1]) == Laces(views[..k]) + views[k].laces
  {
    assert views[..k + 1][..k] == views[..k];
  }

  lemma {:induction false} CountPages(views: seq<View>, n: nat)
    requires AllShaped(views) && n <= |views|
    ensures Completed(Summaries(views)[..n]) == Count(Laces(views[..n]))
  {
    if n > 0 {
      CountPages(views, n - 1);
      assert Summaries(views)[..n][..n - 1] == Summaries(views)[..n - 1];
      LacesNext(views, n - 1);
      CountConcat(Laces(views[..n - 1]), views[n - 1].laces);
    } else {
      assert views[..0] == [];
    }
  }

  function Completed(pages: seq<Page>): nat {
    if pages == [] then 0 else Completed(pages[..|pages| - 1]) + pages[|pages| - 1].completedPackets
  }

  lemma EndsOnce(p: Parser, limit: nat -> U64, steps: nat, views: seq<View>)
    requires AllShaped(views) && Complete(p, limit, steps, views)
    ensures forall k :: 0 <= k < |views| ==> (Eos(views[k]) <==> k == |views| - 1)
    ensures !Open(Laces(views))
  {
    hide Fits, Shaped, Laces, Eos, Open;
    var n := |views| - 1;
    forall k | 0 <= k < n ensures !Eos(views[k]) {
      assert PageFits(p, limit, views, k + 1);
      FitsMeans(p, limit, views[k + 1], k + 1, Laces(views[..k + 1]), Serial(views[0]), Eos(views[k]));
    }
    assert PageFits(p, limit, views, n);
    FitsMeans(p, limit, views[n], n, Laces(views[..n]), Serial(views[0]), n > 0 && Eos(views[n - 1]));
    LacesNext(views, n);
    assert views[..n + 1] == views;
  }

  lemma FitsMeans(p: Parser, limit: nat -> U64, v: View, k: nat, before: seq<byte>, serial: nat, ended: bool)
    requires Shaped(v) && Fits(p, limit, v, k, before, serial, ended)
    ensures !ended && Within(before, v.laces, limit) && (Eos(v) ==> !Open(before + v.laces))
  {
  }

  /**
    * In an admitted stream the flattened lace list splits into whole packets with nothing left over,
    * the pages complete exactly that many packets, each packet keeps its own limit, and the page
    * flagged as the end is the last page and no other.
    */
  lemma AdmittedPackets(p: Parser, limit: nat -> U64, steps: nat, bytes: seq<byte>, e: Envelope)
      returns (views: seq<View>, packets: seq<seq<byte>>)
    requires Admits(p, limit, steps, bytes, e)
    ensures AllShaped(views) && WireAll(views) == bytes && |e.pages| == |views|
    ensures Splits(Laces(views), packets, []) && |packets| == Completed(e.pages) && PacketsWithin(packets, limit)
    ensures forall k :: 0 <= k < |e.pages| ==> (e.pages[k].eos <==> k == |e.pages| - 1)
  {
    views := Cut(bytes).value;
    CutExact(bytes, views);
    var n := |views|;
    assert views[..n] == views;
    hide Shaped, PageFits, Within, Open, Laces, Count, Split, Splits, Eos, Grown, LaceSum, Cut, WireAll, PacketsWithin;
    AllWithin(p, limit, views, n);
    EndsOnce(p, limit, steps, views);
    CountPages(views, n);
    assert Summaries(views)[..n] == Summaries(views);
    WithinPackets(Laces(views), limit);
    RunningSplit(Laces(views));
    SplitSplits(Laces(views));
    packets := Split(Laces(views)).0;
  }

  // ---------- The scan ----------

  /** One page's segment table; `before` is all the laces of the pages before it. */
  method ScanLaces(laces: seq<byte>, limit: nat -> U64, packetBytes0: nat, packetIndex0: nat, continued0: bool,
      ghost before: seq<byte>)
    returns (ok: bool, packetBytes: nat, packetIndex: nat, continued: bool, completed: nat)
    requires packetBytes0 == Grown(before) && packetIndex0 == Count(before) && continued0 == Open(before)
    ensures ok <==> Within(before, laces, limit)
    ensures ok ==> packetBytes == Grown(before + laces) && packetIndex == Count(before + laces)
    ensures ok ==> continued == Open(before + laces) && completed == Count(laces)
  {
    packetBytes, packetIndex, continued, completed := packetBytes0, packetIndex0, continued0, 0;
    assert before + laces[..0] == before;
    for n := 0 to |laces|
      invariant forall i :: 0 <= i < n ==> LaceWithin(before, laces, i, limit)
      invariant packetBytes == Grown(before + laces[..n]) && packetIndex == Count(before + laces[..n])
      invariant continued == Open(before + laces[..n]) && completed == Count(laces[..n])
    {
      var lace := laces[n];
      assert (before + laces[..n + 1])[..|before| + n] == before + laces[..n];
      assert laces[..n + 1][..n] == laces[..n];
      packetBytes := packetBytes + lace;
      if packetBytes > limit(packetIndex) {
        assert !LaceWithin(before, laces, n, limit);
        return false, packetBytes, packetIndex, continued, completed;
      }
      assert LaceWithin(before, laces, n, limit);
      continued := lace == 255;
      if !continued {
        packetBytes := 0;
        packetIndex := packetIndex + 1;
        completed := completed + 1;
      }
    }
    assert laces[..|laces|] == laces;
    ok := true;
  }

  /** Pages looked at so far do not depend on what comes after them. */
  lemma FitsPrefix(p: Parser, limit: nat -> U64, done: seq<View>, more: seq<View>, k: nat)
    requires AllShaped(done) && AllShaped(more) && k < |done|
    ensures AllShaped(done + more)
    ensures PageFits(p, limit, done + more, k) <==> PageFits(p, limit, done, k)
    ensures Summary(done + more, k) == Summary(done, k)
  {
    hide Laces, Open, Fits, Shaped, Eos, Serial;
    assert (done + more)[..k] == done[..k];
  }

  /** What is left of a stream of whole pages starts with a whole page. */
  lemma CutNext(done: seq<View>, remaining: seq<byte>) returns (more: seq<View>)
    requires AllShaped(done) && remaining != [] && Cut(WireAll(done) + remaining).Some?
    ensures Head(remaining).Some? && AllShaped(done + [Head(remaining).value]) && AllShaped(more)
    ensures Cut(WireAll(done) + remaining) == Some((done + [Head(remaining).value]) + more)
  {
    hide Head, Shaped, Wire;
    CutAfter(done, remaining);
    var v := Head(remaining).value;
    HeadExact(remaining, v);
    var rest := remaining[|Wire(v)|..];
    more := Cut(rest).value;
    CutExact(rest, more);
    assert done + ([v] + more) == (done + [v]) + more;
  }

  /** The scan stops at a page: the stream is not admitted if that page is missing or does not fit. */
  lemma Stopped(p: Parser, limit: nat -> U64, steps: nat, done: seq<View>, remaining: seq<byte>)
    requires AllShaped(done) && remaining != []
    requires Head(remaining).Some? && |done| < steps ==>
      AllShaped(done + [Head(remaining).value]) && !PageFits(p, limit, done + [Head(remaining).value], |done|)
    ensures forall e :: !Admits(p, limit, steps, WireAll(done) + remaining, e)
  {
    hide Head, Shaped, PageFits, Wire, Cut, WireAll;
    var bytes := WireAll(done) + remaining;
    if Cut(bytes).Some? {
      var more := CutNext(done, remaining);
      var here := done + [Head(remaining).value];
      FitsPrefix(p, limit, here, more, |done|);
    }
  }

  /** The scan reached the end of the input. */
  lemma Finished(p: Parser, limit: nat -> U64, steps: nat, done: seq<View>, e: Envelope)
    requires AllShaped(done)
    ensures Admits(p, limit, steps, WireAll(done), e) <==>
      Complete(p, limit, steps, done) && e == Envelope(Serial(done[0]), Summaries(done))
  {
    CutExact(WireAll(done), done);
  }

  lemma AdvancedPages(p: Parser, limit: nat -> U64, done: seq<View>, v: View)
    requires AllShaped(done) && AllShaped(done + [v])
    requires forall k :: 0 <= k < |done| ==> PageFits(p, limit, done, k)
    requires PageFits(p, limit, done + [v], |done|)
    ensures forall k :: 0 <= k <= |done| ==> PageFits(p, limit, done + [v], k)
    ensures Summaries(done + [v]) == Summaries(done) + [Summary(done + [v], |done|)]
  {
    hide PageFits, Shaped, Summary;
    assert AllShaped([v]) by { assert (done + [v])[|done|] == v; }
    forall k | 0 <= k < |done| ensures PageFits(p, limit, done + [v], k) && Summary(done + [v], k) == Summary(done, k) {
      FitsPrefix(p, limit, done, [v], k);
    }
  }

  lemma AdvancedBytes(done: seq<View>, remaining: seq<byte>, v: View)
    requires Head(remaining) == Some(v)
    ensures WireAll(done + [v]) + remaining[|Wire(v)|..] == WireAll(done) + remaining
    ensures Laces(done + [v]) == Laces(done) + v.laces
  {
    hide Wire, Shaped, Head;
    WireAppend(done, v);
    HeadExact(remaining, v);
    assert remaining == Wire(v) + remaining[|Wire(v)|..];
    assert (done + [v])[..|done|] == done;
  }

  /** One more page that fits. */
  lemma Advanced(p: Parser, limit: nat -> U64, done: seq<View>, remaining: seq<byte>, v: View)
    requires AllShaped(done) && Head(remaining) == Some(v)
    requires forall k :: 0 <= k < |done| ==> PageFits(p, limit, done, k)
    requires AllShaped(done + [v]) && PageFits(p, limit, done + [v], |done|)
    ensures forall k :: 0 <= k <= |done| ==> PageFits(p, limit, done + [v], k)
    ensures Summaries(done + [v]) == Summaries(done) + [Summary(done + [v], |done|)]
    ensures WireAll(done + [v]) + remaining[|Wire(v)|..] == WireAll(done) + remaining
    ensures Laces(done + [v]) == Laces(done) + v.laces
  {
    hide *;
    AdvancedPages(p, limit, done, v);
    AdvancedBytes(done, remaining, v);
  }

  ghost predicate Scanned(done: seq<View>, pages: seq<Page>, serial: Option<nat>, sequence: nat, continued: bool,
                          packetBytes: nat, packetIndex: nat, ended: bool) {
    && AllShaped(done)
    && pages == Summaries(done)
    && serial == (if done == [] then None else Some(Serial(done[0])))
    && sequence == |done|
    && continued == Open(Laces(done)) && packetBytes == Grown(Laces(done)) && packetIndex == Count(Laces(done))
    && ended == (done != [] && Eos(done[|done| - 1]))
  }

  /** The header conditions the scan checks are those of a page in its place. */
  predicate HeaderFits(header: seq<byte>, serial: Option<nat>, sequence: nat, continued: bool, ended: bool)
    requires |header| == HEADER_LENGTH
  {
    && header[..4] == OGGS && header[5] < 8 && !ended
    && FromLittleEndian(header[18..22]) == sequence
    && (serial.Some? ==> serial.value == FromLittleEndian(header[14..18]))
    && (header[5] % 2 == 1) == continued
    && (header[5] / 2 % 2 == 1) == serial.None?
  }

  lemma FitsHeader(p: Parser, limit: nat -> U64, v: View, k: nat, before: seq<byte>, serial: Option<nat>, ended: bool)
    requires Shaped(v) && (serial.None? <==> k == 0)
    ensures var s := if serial.Some? then serial.value else Serial(v);
      Fits(p, limit, v, k, before, s, ended) <==>
        HeaderFits(v.header, serial, k, Open(before), ended) && k < U32_BOUND - 1
        && p.parses(v.header) && p.verifies(Wire(v))
        && Within(before, v.laces, limit) && (Eos(v) ==> !Open(before + v.laces))
  {
    hide Open, Within, Wire, FromLittleEndian;
  }

  lemma FitsAfter(p: Parser, limit: nat -> U64, done: seq<View>, v: View)
    requires AllShaped(done) && Shaped(v)
    ensures AllShaped(done + [v])
    ensures PageFits(p, limit, done + [v], |done|) ==
      Fits(p, limit, v, |done|, Laces(done), if done == [] then Serial(v) else Serial(done[0]),
        done != [] && Eos(done[|done| - 1]))
  {
    hide Fits, Shaped, Serial, Eos, Laces;
    assert (done + [v])[..|done|] == done;
  }

  lemma FitsNext(p: Parser, limit: nat -> U64, done: seq<View>, v: View, pages: seq<Page>, serial: Option<nat>,
                 sequence: nat,
                 continued: bool, packetBytes: nat, packetIndex: nat, ended: bool)
    requires Scanned(done, pages, serial, sequence, continued, packetBytes, packetIndex, ended) && Shaped(v)
    ensures AllShaped(done + [v])
    ensures PageFits(p, limit, done + [v], |done|) <==>
      HeaderFits(v.header, serial, sequence, continued, ended) && sequence < U32_BOUND - 1
      && p.parses(v.header) && p.verifies(Wire(v))
      && Within(Laces(done), v.laces, limit) && (Eos(v) ==> !Open(Laces(done) + v.laces))
  {
    hide Laces, Open, Within, Wire, Grown, Count, Summaries, PageFits, Fits, HeaderFits, Serial, Eos, Shaped;
    FitsAfter(p, limit, done, v);
    FitsHeader(p, limit, v, |done|, Laces(done), serial, ended);
  }

  /** The scan admits exactly the complete streams, and reports their envelope. */
  method Inspect(p: Parser, bytes: seq<byte>, limit: nat -> U64, steps: nat) returns (r: Result<Envelope, Refusal>)
    ensures r.Ok? ==> Admits(p, limit, steps, bytes, r.value)
    ensures r.Err? ==> forall e :: !Admits(p, limit, steps, bytes, e)
  {
    hide Grown, Count, Open, Within, Laces, WireAll, PageFits, Admits, Cut, LaceSum;
    var remaining := bytes;
    var serial: Option<nat> := None;
    var sequence, packetBytes, packetIndex := 0, 0, 0;
    var continued, ended := false, false;
    var pages: seq<Page> := [];
    ghost var done: seq<View> := [];
    Start();
    assert WireAll([]) + bytes == bytes;
    while remaining != []
      invariant Scanned(done, pages, serial, sequence, continued, packetBytes, packetIndex, ended)
      invariant forall k :: 0 <= k < |done| ==> PageFits(p, limit, done, k)
      invariant |done| <= steps
      invariant WireAll(done) + remaining == bytes
      decreases |remaining|
    {
      if sequence == steps {
        Stopped(p, limit, steps, done, remaining);
        return Err(Complexity);
      }
      if |remaining| < HEADER_LENGTH {
        Stopped(p, limit, steps, done, remaining);
        return Err(Truncated);
      }
      var header := remaining[..HEADER_LENGTH];
      ghost var head := Head(remaining);
      if head.Some? {
        HeadExact(remaining, head.value);
        FitsNext(p, limit, done, head.value, pages, serial, sequence, continued, packetBytes, packetIndex, ended);
      }
      if !HeaderFits(header, serial, sequence, continued, ended) {
        Stopped(p, limit, steps, done, remaining);
        return Err(Framing);
      }
      if sequence >= U32_BOUND - 1 {
        Stopped(p, limit, steps, done, remaining);
        return Err(SequenceOverflow);
      }
      if !p.parses(header) {
        Stopped(p, limit, steps, done, remaining);
        return Err(Unparsable);
      }
      var segments := header[26];
      if |remaining| < HEADER_LENGTH + segments {
        Stopped(p, limit, steps, done, remaining);
        return Err(Truncated);
      }
      var laces := remaining[HEADER_LENGTH..HEADER_LENGTH + segments];
      var ok, grown, index, open, completed :=
        ScanLaces(laces, limit, packetBytes, packetIndex, continued, Laces(done));
      if !ok {
        Stopped(p, limit, steps, done, remaining);
        return Err(PacketTooLarge);
      }
      var end := HEADER_LENGTH + segments + LaceSum(laces);
      if |remaining| < end {
        Stopped(p, limit, steps, done, remaining);
        return Err(Truncated);
      }
      ghost var v := head.value;
      assert end == |Wire(v)| && remaining[..end] == Wire(v);
      if !p.verifies(remaining[..end]) {
        Stopped(p, limit, steps, done, remaining);
        return Err(Unparsable);
      }
      var eos := header[5] / 4 % 2 == 1;
      if eos && open {
        Stopped(p, limit, steps, done, remaining);
        return Err(IncompletePacket);
      }
      Advanced(p, limit, done, remaining, v);
      assert (done + [v])[..|done|] == done;
      pages := pages + [Page(FromLittleEndian(header[6..14]), segments, completed, open, eos)];
      serial := Some(FromLittleEndian(header[14..18]));
      sequence := sequence + 1;
      packetBytes, packetIndex, continued, ended := grown, index, open, eos;
      remaining := remaining[end..];
      done := done + [v];
    }
    assert WireAll(done) + [] == WireAll(done);
    if !ended || |pages| < 3 {
      forall e ensures !Admits(p, limit, steps, bytes, e) {
        Finished(p, limit, steps, done, e);
      }
      return Err(NoEnd);
    }
    r := Ok(Envelope(serial.value, pages));
    Finished(p, limit, steps, done, r.value);
  }

  lemma Start()
    ensures Scanned([], [], None, 0, false, 0, 0, false) && WireAll([]) == []
  {
  }
}
