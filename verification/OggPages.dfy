/** Ogg pages and the lacing of packets across them. */
module OggPages {
  import opened Bytes
  import opened Outcome

  const OGGS: seq<byte> := [0x4f, 0x67, 0x67, 0x53]    // "OggS"
  const HEADER_LENGTH: nat := 27

  // ---------- Pages ----------

  /** A page cut out of a stream: its fixed header, its segment table and its body. */
  datatype View = View(header: seq<byte>, laces: seq<byte>, body: seq<byte>)

  function LaceSum(laces: seq<byte>): nat {
    if laces == [] then 0 else LaceSum(laces[..|laces| - 1]) + laces[|laces| - 1]
  }

  predicate Shaped(v: View) {
    |v.header| == HEADER_LENGTH && |v.laces| == v.header[26] && |v.body| == LaceSum(v.laces)
  }

  function Wire(v: View): seq<byte> {
    v.header + v.laces + v.body
  }

  function WireAll(views: seq<View>): seq<byte> {
    if views == [] then [] else Wire(views[0]) + WireAll(views[1..])
  }

  predicate AllShaped(views: seq<View>) {
    forall k :: 0 <= k < |views| ==> Shaped(views[k])
  }

  /** The page at the head of a stream, if a whole one is there. */
  function Head(bytes: seq<byte>): Option<View> {
    if |bytes| < HEADER_LENGTH then None
    else
      var segments := bytes[26];
      if |bytes| < HEADER_LENGTH + segments then None
      else
        var laces := bytes[HEADER_LENGTH..HEADER_LENGTH + segments];
        var end := HEADER_LENGTH + segments + LaceSum(laces);
        if |bytes| < end then None
        else Some(View(bytes[..HEADER_LENGTH], laces, bytes[HEADER_LENGTH + segments..end]))
  }

  lemma HeadExact(bytes: seq<byte>, v: View)
    ensures Head(bytes) == Some(v) <==> Shaped(v) && Wire(v) <= bytes
  {
    hide LaceSum;
    if Head(bytes) == Some(v) {
      assert Wire(v) == bytes[..|Wire(v)|];
    }
    if Shaped(v) && Wire(v) <= bytes {
      assert bytes[..HEADER_LENGTH] == v.header;
      assert bytes[HEADER_LENGTH..HEADER_LENGTH + |v.laces|] == v.laces;
      assert bytes[HEADER_LENGTH + |v.laces|..|Wire(v)|] == v.body;
    }
  }

  /** A stream cut into pages, if it consists of whole pages. */
  function Cut(bytes: seq<byte>): Option<seq<View>>
    decreases |bytes|
  {
    if bytes == [] then Some([])
    else
      match Head(bytes)
      case None => None
      case Some(v) =>
        HeadExact(bytes, v);
        match Cut(bytes[|Wire(v)|..])
        case None => None
        case Some(more) => Some([v] + more)
  }

  /** Pages tile a stream in exactly one way. */
  lemma {:induction false} CutExact(bytes: seq<byte>, views: seq<View>)
    ensures Cut(bytes) == Some(views) <==> AllShaped(views) && WireAll(views) == bytes
    decreases |bytes|
  {
    hide Head, Wire, Shaped;
    if bytes == [] {
      if views != [] && AllShaped(views) {
        WireNonempty(views[0]);
      }
    } else {
      var head := Head(bytes);
      if Cut(bytes) == Some(views) {
        var v := head.value;
        HeadExact(bytes, v);
        WireNonempty(v);
        CutExact(bytes[|Wire(v)|..], views[1..]);
        assert bytes == Wire(v) + bytes[|Wire(v)|..];
      }
      if AllShaped(views) && WireAll(views) == bytes {
        var v := views[0];
        HeadExact(bytes, v);
        WireNonempty(v);
        assert bytes[|Wire(v)|..] == WireAll(views[1..]);
        CutExact(bytes[|Wire(v)|..], views[1..]);
        assert [v] + views[1..] == views;
      }
    }
  }

  lemma WireNonempty(v: View)
    requires Shaped(v)
    ensures |Wire(v)| >= HEADER_LENGTH
  {
  }

  lemma {:induction false} WireAppend(views: seq<View>, v: View)
    ensures WireAll(views + [v]) == WireAll(views) + Wire(v)
    decreases |views|
  {
    hide Wire;
    var all := views + [v];
    if views == [] {
      assert all[1..] == [];
    } else {
      assert all[0] == views[0] && all[1..] == views[1..] + [v];
      WireAppend(views[1..], v);
    }
  }

  /** Cutting goes on after the pages already cut. */
  lemma {:induction false} CutAfter(views: seq<View>, rest: seq<byte>)
    requires AllShaped(views)
    ensures Cut(WireAll(views) + rest) == match Cut(rest) case None => None case Some(more) => Some(views + more)
    decreases |views|
  {
    hide Head, Wire, Shaped;
    var bytes := WireAll(views) + rest;
    if views == [] {
      assert bytes == rest;
      if Cut(rest).Some? {
        assert views + Cut(rest).value == Cut(rest).value;
      }
    } else {
      var v := views[0];
      var later := WireAll(views[1..]) + rest;
      assert bytes == Wire(v) + later;
      HeadExact(bytes, v);
      WireNonempty(v);
      assert bytes[|Wire(v)|..] == later;
      CutAfter(views[1..], rest);
      if Cut(rest).Some? {
        assert [v] + (views[1..] + Cut(rest).value) == views + Cut(rest).value;
      }
    }
  }

  /** The segment tables of pages, one after the other. */
  function Laces(views: seq<View>): seq<byte> {
    if views == [] then [] else Laces(views[..|views| - 1]) + views[|views| - 1].laces
  }

  // ---------- Lacing ----------

  /** A run of laces ends inside a packet when its last lace is full. */
  predicate Open(laces: seq<byte>) {
    laces != [] && laces[|laces| - 1] == 255
  }

  /** How many packets a run of laces completes. */
  function Count(laces: seq<byte>): nat {
    if laces == [] then 0 else Count(laces[..|laces| - 1]) + (if laces[|laces| - 1] < 255 then 1 else 0)
  }

  /** The bytes so far of the packet a run of laces ends in. */
  function Grown(laces: seq<byte>): nat {
    if laces == [] || laces[|laces| - 1] < 255 then 0 else Grown(laces[..|laces| - 1]) + 255
  }

  /** Packets as RFC 3533, section 6, laces them: full laces, then one that is not. */
  predicate IsPacket(laces: seq<byte>) {
    laces != [] && laces[|laces| - 1] < 255 && forall i :: 0 <= i < |laces| - 1 ==> laces[i] == 255
  }

  predicate IsUnfinished(laces: seq<byte>) {
    forall i :: 0 <= i < |laces| ==> laces[i] == 255
  }

  function Flat(packets: seq<seq<byte>>): seq<byte> {
    if packets == [] then [] else Flat(packets[..|packets| - 1]) + packets[|packets| - 1]
  }

  ghost predicate Splits(laces: seq<byte>, packets: seq<seq<byte>>, rest: seq<byte>) {
    && laces == Flat(packets) + rest
    && (forall i :: 0 <= i < |packets| ==> IsPacket(packets[i]))
    && IsUnfinished(rest)
  }

  /** Laces grouped into packets, and what is left of an unfinished one. */
  function Split(laces: seq<byte>): (seq<seq<byte>>, seq<byte>) {
    if laces == [] then ([], [])
    else
      var (packets, rest) := Split(laces[..|laces| - 1]);
      var last := laces[|laces| - 1];
      if last < 255 then (packets + [rest + [last]], []) else (packets, rest + [last])
  }

  lemma FlatAppend(packets: seq<seq<byte>>, g: seq<byte>)
    ensures Flat(packets + [g]) == Flat(packets) + g
  {
    var all := packets + [g];
    assert all[..|all| - 1] == packets;
  }

  lemma SplitsClose(laces: seq<byte>, packets: seq<seq<byte>>, rest: seq<byte>, lace: byte)
    requires Splits(laces, packets, rest) && lace < 255
    ensures Splits(laces + [lace], packets + [rest + [lace]], [])
  {
    FlatAppend(packets, rest + [lace]);
    hide Flat;
    assert laces + [lace] == Flat(packets) + (rest + [lace]) + [];
  }

  lemma SplitsGrow(laces: seq<byte>, packets: seq<seq<byte>>, rest: seq<byte>)
    requires Splits(laces, packets, rest)
    ensures Splits(laces + [255], packets, rest + [255])
  {
    hide Flat;
    assert laces + [255] == Flat(packets) + (rest + [255]);
  }

  lemma {:induction false} SplitSplits(laces: seq<byte>)
    ensures Splits(laces, Split(laces).0, Split(laces).1)
  {
    if laces != [] {
      var n := |laces| - 1;
      SplitSplits(laces[..n]);
      var (packets, rest) := Split(laces[..n]);
      assert laces == laces[..n] + [laces[n]];
      hide Splits;
      if laces[n] < 255 {
        SplitsClose(laces[..n], packets, rest, laces[n]);
      } else {
        SplitsGrow(laces[..n], packets, rest);
      }
    }
  }

  /** There is only one way to group laces into packets. */
  lemma {:induction false} SplitUnique(laces: seq<byte>, packets: seq<seq<byte>>, rest: seq<byte>)
    requires Splits(laces, packets, rest)
    ensures Split(laces) == (packets, rest)
    decreases |laces|
  {
    if laces != [] {
      var n := |laces| - 1;
      if rest != [] {
        var shorter := rest[..|rest| - 1];
        assert laces[..n] == Flat(packets) + shorter;
        SplitUnique(laces[..n], packets, shorter);
        assert shorter + [laces[n]] == rest;
      } else {
        FlatLast(packets);
        var m := |packets| - 1;
        var g := packets[m];
        var shorter := g[..|g| - 1];
        assert laces == Flat(packets[..m]) + g;
        assert laces[..n] == Flat(packets[..m]) + shorter;
        SplitUnique(laces[..n], packets[..m], shorter);
        assert shorter + [laces[n]] == g && packets[..m] + [g] == packets;
      }
    }
  }

  lemma FlatLast(packets: seq<seq<byte>>)
    requires Flat(packets) != []
    ensures packets != []
  {
  }

  /** The running count and size are those of the grouping. */
  lemma {:induction false} RunningSplit(laces: seq<byte>)
    ensures |Split(laces).0| == Count(laces) && LaceSum(Split(laces).1) == Grown(laces)
    ensures Split(laces).1 != [] <==> Open(laces)
  {
    if laces != [] {
      var n := |laces| - 1;
      RunningSplit(laces[..n]);
      var rest := Split(laces[..n]).1;
      assert (rest + [laces[n]])[..|rest|] == rest;
      SplitSplits(laces[..n]);
    }
  }

  lemma {:induction false} CountConcat(a: seq<byte>, b: seq<byte>)
    ensures Count(a + b) == Count(a) + Count(b)
  {
    if b == [] {
      assert a + b == a;
    } else {
      assert (a + b)[..|a| + |b| - 1] == a + b[..|b| - 1];
      CountConcat(a, b[..|b| - 1]);
    }
  }

  // ---------- Packet limits ----------

  /** Every lace keeps the packet it belongs to within that packet's limit. */
  predicate Within(before: seq<byte>, laces: seq<byte>, limit: nat -> U64) {
    forall n :: 0 <= n < |laces| ==> LaceWithin(before, laces, n, limit)
  }

  predicate LaceWithin(before: seq<byte>, laces: seq<byte>, n: nat, limit: nat -> U64)
    requires n < |laces|
  {
    Grown(before + laces[..n]) + laces[n] <= limit(Count(before + laces[..n]))
  }

  /** Checking page by page is checking the whole list. */
  lemma WithinConcat(a: seq<byte>, b: seq<byte>, limit: nat -> U64)
    ensures Within([], a + b, limit) <==> Within([], a, limit) && Within(a, b, limit)
  {
    hide Grown, Count;
    forall n | 0 <= n < |a| ensures LaceWithin([], a + b, n, limit) == LaceWithin([], a, n, limit) {
      assert (a + b)[..n] == a[..n];
    }
    forall n | 0 <= n < |b| ensures LaceWithin([], a + b, |a| + n, limit) == LaceWithin(a, b, n, limit) {
      assert [] + (a + b)[..|a| + n] == a + b[..n];
    }
    if Within([], a + b, limit) {
      forall n | 0 <= n < |b| ensures LaceWithin(a, b, n, limit) {
        assert LaceWithin([], a + b, |a| + n, limit);
      }
    }
    if Within([], a, limit) && Within(a, b, limit) {
      forall n | 0 <= n < |a + b| ensures LaceWithin([], a + b, n, limit) {
        if n >= |a| {
          assert LaceWithin(a, b, n - |a|, limit);
        }
      }
    }
  }

  ghost predicate PacketsWithin(packets: seq<seq<byte>>, limit: nat -> U64) {
    forall i :: 0 <= i < |packets| ==> LaceSum(packets[i]) <= limit(i)
  }

  /** Checking at every lace is checking the whole packets, and what there is of an unfinished one. */
  lemma {:induction false} WithinPackets(laces: seq<byte>, limit: nat -> U64)
    ensures var (packets, rest) := Split(laces);
      Within([], laces, limit) <==> PacketsWithin(packets, limit) && (rest != [] ==> LaceSum(rest) <= limit(|packets|))
  {
    if laces != [] {
      var n := |laces| - 1;
      var a, b := laces[..n], [laces[n]];
      assert a + b == laces;
      WithinPackets(a, limit);
      WithinConcat(a, b, limit);
      RunningSplit(a);
      var (packets, rest) := Split(a);
      hide Split, Grown, Count, Within;
      OneWithin(a, laces[n], limit);
      ExtendPackets(packets, rest, laces[n], limit);
      SumNext(rest, laces[n]);
      assert Split(laces) == if laces[n] < 255 then (packets + [rest + b], []) else (packets, rest + b) by {
        SplitNext(laces);
      }
    }
  }

  lemma SplitNext(laces: seq<byte>)
    requires laces != []
    ensures var n := |laces| - 1;
      var (packets, rest) := Split(laces[..n]);
      Split(laces) == if laces[n] < 255 then (packets + [rest + [laces[n]]], []) else (packets, rest + [laces[n]])
  {
  }

  lemma OneWithin(before: seq<byte>, lace: byte, limit: nat -> U64)
    ensures Within(before, [lace], limit) <==> Grown(before) + lace <= limit(Count(before))
  {
    hide Grown, Count;
    assert before + [lace][..0] == before;
    assert Within(before, [lace], limit) ==> LaceWithin(before, [lace], 0, limit);
  }

  lemma SumNext(laces: seq<byte>, lace: byte)
    ensures LaceSum(laces + [lace]) == LaceSum(laces) + lace
  {
    assert (laces + [lace])[..|laces|] == laces;
  }

  lemma ExtendPackets(packets: seq<seq<byte>>, rest: seq<byte>, lace: byte, limit: nat -> U64)
    ensures PacketsWithin(packets + [rest + [lace]], limit) <==>
      PacketsWithin(packets, limit) && LaceSum(rest) + lace <= limit(|packets|)
  {
    SumNext(rest, lace);
    hide LaceSum;
    var all := packets + [rest + [lace]];
    if PacketsWithin(all, limit) {
      assert LaceSum(all[|packets|]) <= limit(|packets|);
      forall i | 0 <= i < |packets| ensures LaceSum(packets[i]) <= limit(i) {
        assert all[i] == packets[i];
      }
    }
  }
}
