/** What an admitted Ogg stream is, on its pages' own bytes. */
module OggDocument {
  import opened Bytes
  import opened Outcome
  import opened OggPages
  import opened OggEnvelope

  /** A packet is unfinished where page `k` begins: the last lace before it is full. */
  ghost predicate GoesOn(views: seq<View>, k: nat)
    requires k <= |views|
  {
    exists j :: 0 <= j < k && EndsFull(views[j].laces) && forall i :: j < i < k ==> views[i].laces == []
  }

  predicate EndsFull(laces: seq<byte>) {
    laces != [] && laces[|laces| - 1] == 255
  }

  /** The flags of page `k`: it goes on with a packet, it is the first, it is the last. */
  ghost function FlagsOf(views: seq<View>, k: nat): nat
    requires k < |views|
  {
    (if GoesOn(views, k) then 1 else 0) + (if k == 0 then 2 else 0) + (if k == |views| - 1 then 4 else 0)
  }

  function Number(a: byte, b: byte, c: byte, d: byte): nat {
    a + 0x100 * b + 0x1_0000 * c + 0x100_0000 * d
  }

  /** The header of page `k`, byte by byte. */
  ghost predicate Stands(p: Parser, views: seq<View>, k: nat)
    requires k < |views| && AllShaped(views)
  {
    var h := views[k].header;
    && h[..4] == [0x4f, 0x67, 0x67, 0x53]
    && h[5] == FlagsOf(views, k)
    && h[14..18] == views[0].header[14..18]
    && Number(h[18], h[19], h[20], h[21]) == k
    && p.parses(h) && p.verifies(h + views[k].laces + views[k].body)
  }

  /**
    * One logical stream of at least three consecutive pages, the bytes of the file and nothing else,
    * whose packets are whole and keep their limits.
    */
  ghost predicate Stream(p: Parser, limit: nat -> U64, steps: nat, views: seq<View>, bytes: seq<byte>) {
    && AllShaped(views) && WireAll(views) == bytes
    && 3 <= |views| <= steps && |views| < 0x1_0000_0000
    && (forall k :: 0 <= k < |views| ==> Stands(p, views, k))
    && !GoesOn(views, |views|)
    && exists packets :: Splits(Laces(views), packets, []) && PacketsWithin(packets, limit)
  }

  ghost predicate Described(page: Page, views: seq<View>, k: nat)
    requires k < |views| && AllShaped(views)
  {
    var v := views[k];
    && page.granule == FromLittleEndian(v.header[6..14])
    && page.segments == v.header[26] && page.segments == |v.laces|
    && page.completedPackets == |set i | 0 <= i < |v.laces| && v.laces[i] < 255|
    && (page.continued <==> GoesOn(views, k + 1))
    && (page.eos <==> k == |views| - 1)
  }

  ghost predicate Describes(e: Envelope, views: seq<View>)
    requires views != [] && AllShaped(views)
  {
    var h := views[0].header;
    && e.serial == Number(h[14], h[15], h[16], h[17])
    && |e.pages| == |views|
    && forall k :: 0 <= k < |views| ==> Described(e.pages[k], views, k)
  }

  // ---------- The parts ----------

  lemma {:induction false} OpenGoesOn(views: seq<View>, k: nat)
    requires k <= |views|
    ensures Open(Laces(views[..k])) <==> GoesOn(views, k)
  {
    if k == 0 {
      assert views[..0] == [];
    } else {
      var n := k - 1;
      OpenGoesOn(views, n);
      LacesNext(views, n);
      GoesOnNext(views, n);
      hide Laces, GoesOn;
    }
  }

  lemma GoesOnNext(views: seq<View>, n: nat)
    requires n < |views|
    ensures GoesOn(views, n + 1) <==> if views[n].laces == [] then GoesOn(views, n) else EndsFull(views[n].laces)
  {
    if views[n].laces == [] && GoesOn(views, n) {
      var j :| 0 <= j < n && EndsFull(views[j].laces) && forall i :: j < i < n ==> views[i].laces == [];
      assert 0 <= j < n + 1 && forall i :: j < i < n + 1 ==> views[i].laces == [];
    }
  }

  lemma {:induction false} CountIsCard(laces: seq<byte>)
    ensures Count(laces) == |set i | 0 <= i < |laces| && laces[i] < 255|
  {
    var all := set i | 0 <= i < |laces| && laces[i] < 255;
    if laces == [] {
      assert all == {};
    } else {
      var n := |laces| - 1;
      CountIsCard(laces[..n]);
      var front := set i | 0 <= i < n && laces[..n][i] < 255;
      assert all == front + (if laces[n] < 255 then {n} else {});
    }
  }

  lemma NumberIs(s: seq<byte>)
    requires |s| == 4
    ensures FromLittleEndian(s) == Number(s[0], s[1], s[2], s[3])
  {
    assert s == [s[0], s[1], s[2], s[3]];
    ByteOrder(s[0], s[1], s[2], s[3]);
  }

  lemma SameNumber(s: seq<byte>, t: seq<byte>)
    requires |s| == |t|
    ensures FromLittleEndian(s) == FromLittleEndian(t) <==> s == t
  {
    FromLittleEndianRoundTrip(s);
    FromLittleEndianRoundTrip(t);
  }

  /** The three flags of a page as bits, and as their sum. */
  lemma FlagBits(f: byte, a: bool, b: bool, c: bool)
    ensures f == (if a then 1 else 0) + (if b then 2 else 0) + (if c then 4 else 0) <==>
      f < 8 && (f % 2 == 1 <==> a) && (f / 2 % 2 == 1 <==> b) && (f / 4 % 2 == 1 <==> c)
  {
  }

  /** What `Fits` asks of a page's own header, except for the end flag. */
  ghost predicate Heads(p: Parser, views: seq<View>, k: nat)
    requires k < |views| && AllShaped(views)
  {
    var v := views[k];
    && v.header[..4] == OGGS && v.header[5] < 8
    && Sequence(v) == k && Serial(v) == Serial(views[0])
    && (First(v) <==> k == 0) && (Continued(v) <==> Open(Laces(views[..k])))
    && p.parses(v.header) && p.verifies(Wire(v))
  }

  lemma StandsExact(p: Parser, views: seq<View>, k: nat)
    requires k < |views| && AllShaped(views)
    ensures Stands(p, views, k) <==> Heads(p, views, k) && (Eos(views[k]) <==> k == |views| - 1)
  {
    var h := views[k].header;
    OpenGoesOn(views, k);
    NumberIs(h[18..22]);
    SameNumber(h[14..18], views[0].header[14..18]);
    FlagBits(h[5], GoesOn(views, k), k == 0, k == |views| - 1);
    hide Laces, GoesOn, Open, FromLittleEndian, LaceSum;
  }

  lemma FitsHeads(p: Parser, limit: nat -> U64, views: seq<View>, k: nat)
    requires k < |views| && AllShaped(views)
    ensures PageFits(p, limit, views, k) <==>
      && Heads(p, views, k) && k < 0xFFFF_FFFF
      && !(k > 0 && Eos(views[k - 1]))
      && Within(Laces(views[..k]), views[k].laces, limit)
      && (Eos(views[k]) ==> !Open(Laces(views[..k + 1])))
  {
    LacesNext(views, k);
    hide Laces, Open, Within, FromLittleEndian, Wire, LaceSum;
  }

  lemma {:induction false} WithinSoFar(views: seq<View>, limit: nat -> U64, n: nat)
    requires n <= |views|
    ensures Within([], Laces(views[..n]), limit) <==>
      forall k :: 0 <= k < n ==> Within(Laces(views[..k]), views[k].laces, limit)
  {
    hide Within;
    if n == 0 {
      assert views[..0] == [];
      NothingWithin(limit);
    } else {
      hide Laces;
      WithinSoFar(views, limit, n - 1);
      LacesNext(views, n - 1);
      WithinConcat(Laces(views[..n - 1]), views[n - 1].laces, limit);
    }
  }

  lemma NothingWithin(limit: nat -> U64)
    ensures Within([], [], limit)
  {
  }

  /** With nothing left over, keeping the limits lace by lace is keeping them packet by packet. */
  lemma WholePackets(laces: seq<byte>, limit: nat -> U64)
    requires !Open(laces)
    ensures Within([], laces, limit) <==> exists packets :: Splits(laces, packets, []) && PacketsWithin(packets, limit)
  {
    WithinPackets(laces, limit);
    RunningSplit(laces);
    SplitSplits(laces);
    var (packets, rest) := Split(laces);
    hide Split, Within, Open, Splits, PacketsWithin;
    if given :| Splits(laces, given, []) && PacketsWithin(given, limit) {
      SplitUnique(laces, given, []);
    }
  }

  /** Only the last page of a complete stream is flagged as the end, and it leaves no packet open. */
  lemma CompleteEnds(p: Parser, limit: nat -> U64, steps: nat, views: seq<View>)
    requires AllShaped(views) && Complete(p, limit, steps, views)
    ensures |views| < 0x1_0000_0000 && !Open(Laces(views))
    ensures forall k :: 0 <= k < |views| ==> (Eos(views[k]) <==> k == |views| - 1)
    ensures forall k :: 0 <= k < |views| ==>
      Heads(p, views, k) && Within(Laces(views[..k]), views[k].laces, limit)
  {
    EndsOnce(p, limit, steps, views);
    hide PageFits, Heads, Laces, Open, Within, Eos, Shaped;
    forall k | 0 <= k < |views|
      ensures Heads(p, views, k) && k < 0xFFFF_FFFF && Within(Laces(views[..k]), views[k].laces, limit)
    {
      FitsHeads(p, limit, views, k);
    }
    assert |views| - 1 < 0xFFFF_FFFF;
  }

  lemma EndsComplete(p: Parser, limit: nat -> U64, steps: nat, views: seq<View>)
    requires AllShaped(views) && 3 <= |views| <= steps && |views| < 0x1_0000_0000 && !Open(Laces(views))
    requires forall k :: 0 <= k < |views| ==> (Eos(views[k]) <==> k == |views| - 1)
    requires forall k :: 0 <= k < |views| ==>
      Heads(p, views, k) && Within(Laces(views[..k]), views[k].laces, limit)
    ensures Complete(p, limit, steps, views)
  {
    hide PageFits, Heads, Laces, Open, Within, Eos, Shaped;
    forall k | 0 <= k < |views| ensures PageFits(p, limit, views, k) {
      FitsHeads(p, limit, views, k);
      assert k == |views| - 1 ==> views[..k + 1] == views;
    }
  }

  /** The headers of a stream's pages, with and without the end flag singled out. */
  lemma AllStand(p: Parser, views: seq<View>)
    requires AllShaped(views)
    ensures (forall k :: 0 <= k < |views| ==> Stands(p, views, k)) <==>
      && (forall k :: 0 <= k < |views| ==> Heads(p, views, k))
      && (forall k :: 0 <= k < |views| ==> (Eos(views[k]) <==> k == |views| - 1))
  {
    hide Stands, Heads, Eos, Shaped;
    forall k | 0 <= k < |views|
      ensures Stands(p, views, k) <==> Heads(p, views, k) && (Eos(views[k]) <==> k == |views| - 1)
    {
      StandsExact(p, views, k);
    }
  }

  /** The laces of a stream's pages together: whole packets within their limits. */
  lemma AllWhole(views: seq<View>, limit: nat -> U64)
    requires AllShaped(views)
    ensures !Open(Laces(views)) <==> !GoesOn(views, |views|)
    ensures !Open(Laces(views)) ==>
      ((forall k :: 0 <= k < |views| ==> Within(Laces(views[..k]), views[k].laces, limit)) <==>
        exists packets :: Splits(Laces(views), packets, []) && PacketsWithin(packets, limit))
  {
    hide *;
    assert views[..|views|] == views;
    OpenGoesOn(views, |views|);
    WithinSoFar(views, limit, |views|);
    if !Open(Laces(views)) {
      WholePackets(Laces(views), limit);
    }
  }

  /** A list of pages is complete exactly if it is such a stream. */
  lemma CompleteExact(p: Parser, limit: nat -> U64, steps: nat, views: seq<View>)
    requires AllShaped(views)
    ensures Complete(p, limit, steps, views) <==> Stream(p, limit, steps, views, WireAll(views))
  {
    AllStand(p, views);
    AllWhole(views, limit);
    if Complete(p, limit, steps, views) {
      CompleteEnds(p, limit, steps, views);
      Bounds(p, limit, steps, views);
    }
    hide Complete, Stands, Heads, Laces, Open, Within, Eos, Shaped, WireAll, GoesOn, Splits, PacketsWithin;
    if Stream(p, limit, steps, views, WireAll(views)) {
      EndsComplete(p, limit, steps, views);
    }
  }

  lemma Bounds(p: Parser, limit: nat -> U64, steps: nat, views: seq<View>)
    requires AllShaped(views) && Complete(p, limit, steps, views)
    ensures 3 <= |views| <= steps
  {
  }

  lemma SummaryExact(views: seq<View>, k: nat, page: Page)
    requires k < |views| && AllShaped(views) && (Eos(views[k]) <==> k == |views| - 1)
    ensures page == Summary(views, k) <==> Described(page, views, k)
  {
    LacesNext(views, k);
    OpenGoesOn(views, k + 1);
    CountIsCard(views[k].laces);
    hide Laces, Open, Count, FromLittleEndian, GoesOn, LaceSum;
  }

  lemma DescribesExact(views: seq<View>, e: Envelope)
    requires views != [] && AllShaped(views)
    requires forall k :: 0 <= k < |views| ==> (Eos(views[k]) <==> k == |views| - 1)
    ensures e == Envelope(Serial(views[0]), Summaries(views)) <==> Describes(e, views)
  {
    NumberIs(views[0].header[14..18]);
    hide Summary, Described, Eos, Shaped, FromLittleEndian;
    if |e.pages| == |views| {
      forall k | 0 <= k < |views| ensures e.pages[k] == Summaries(views)[k] <==> Described(e.pages[k], views, k) {
        SummaryExact(views, k, e.pages[k]);
      }
    }
  }

  /** A file is admitted exactly if it is such a stream, and what is reported describes its pages. */
  lemma AdmittedExactly(p: Parser, limit: nat -> U64, steps: nat, bytes: seq<byte>, e: Envelope)
    ensures Admits(p, limit, steps, bytes, e) <==>
      exists views :: Stream(p, limit, steps, views, bytes) && Describes(e, views)
  {
    if Admits(p, limit, steps, bytes, e) {
      var views := Cut(bytes).value;
      CutExact(bytes, views);
      CompleteExact(p, limit, steps, views);
      CompleteEnds(p, limit, steps, views);
      hide *;
      DescribesExact(views, e);
    }
    if views :| Stream(p, limit, steps, views, bytes) && Describes(e, views) {
      CutExact(bytes, views);
      CompleteExact(p, limit, steps, views);
      CompleteEnds(p, limit, steps, views);
      DescribesExact(views, e);
      hide Stream, Describes, Complete, Cut, Summaries, Serial;
    }
  }
}
