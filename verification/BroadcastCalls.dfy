/** What each call on the registry does, said on the channels, queues, batches and counters themselves. */
module BroadcastCalls {
  import opened Bytes
  import opened Outcome
  import opened Totals
  import opened BroadcastModel
  import opened BroadcastSteps

  /** The channels a post addresses. */
  function Addressee(source: Destination, origin: Text, name: Text): Channel -> bool {
    (c: Channel) => c.destination != source && c.origin == origin && c.name == name
  }

  /** The channels a post addresses in one tab. */
  function AddresseeIn(source: Destination, origin: Text, name: Text, tab: U64): Channel -> bool {
    (c: Channel) => c.destination != source && c.origin == origin && c.name == name && c.destination.tab == tab
  }

  /** The entry queued for a channel. */
  function EntryFor(id: U64): Channel -> QueuedDelivery {
    (c: Channel) => QueuedDelivery(c.destination.document, c.destination.channelId, id)
  }

  ghost predicate SamePayloads(s: State, t: State) {
    forall k :: k in t.batches ==>
      k in s.batches && t.batches[k].origin == s.batches[k].origin && t.batches[k].serialized == s.batches[k].serialized
  }

  // ---------- Targets and entries, place by place ----------

  lemma {:induction false} TargetsCount(channels: seq<Channel>, source: Destination, origin: Text, name: Text)
    ensures |Targets(channels, source, origin, name)| == |Places(channels, Addressee(source, origin, name))|
  {
    if channels == [] {
      assert Places(channels, Addressee(source, origin, name)) == {};
    } else {
      TargetsCount(channels[..|channels| - 1], source, origin, name);
      PlacesNext(channels, Addressee(source, origin, name));
    }
  }

  lemma InTabNext(targets: seq<Destination>, last: seq<Destination>, tab: U64, id: U64)
    requires |last| <= 1
    ensures InTab(targets + last, tab) == InTab(targets, tab) + (if last != [] && last[0].tab == tab then 1 else 0)
    ensures Entries(targets + last, tab, id) == Entries(targets, tab, id)
      + (if last != [] && last[0].tab == tab then [QueuedDelivery(last[0].document, last[0].channelId, id)] else [])
  {
    if last == [] {
      assert targets + last == targets;
    } else {
      assert (targets + last)[..|targets|] == targets;
    }
  }

  /** In each tab a post queues one entry for every channel it addresses there, in the order they were opened. */
  lemma {:induction false} EntriesFiltered(channels: seq<Channel>, source: Destination, origin: Text, name: Text,
      tab: U64, id: U64)
    ensures var targets, r := Targets(channels, source, origin, name),
        Filter(channels, AddresseeIn(source, origin, name, tab));
      && InTab(targets, tab) == |r| == |Entries(targets, tab, id)|
      && forall i :: 0 <= i < |r| ==>
        Entries(targets, tab, id)[i] == QueuedDelivery(r[i].destination.document, r[i].destination.channelId, id)
  {
    if channels != [] {
      var n := |channels| - 1;
      EntriesFiltered(channels[..n], source, origin, name, tab, id);
      var last := if Receives(channels[n], source, origin, name) then [channels[n].destination] else [];
      InTabNext(Targets(channels[..n], source, origin, name), last, tab, id);
    }
  }

  /** The same, place by place: each addressed channel finds its entry at its rank among them. */
  lemma EntriesRanked(channels: seq<Channel>, source: Destination, origin: Text, name: Text, tab: U64, id: U64)
    ensures var entries := Entries(Targets(channels, source, origin, name), tab, id);
      var there := AddresseeIn(source, origin, name, tab);
      && InTab(Targets(channels, source, origin, name), tab) == |entries| == |Places(channels, there)|
      && forall i :: i in Places(channels, there) ==>
        var rank := |Places(channels[..i], there)|;
        rank < |entries|
        && entries[rank] == QueuedDelivery(channels[i].destination.document, channels[i].destination.channelId, id)
  {
    EntriesFiltered(channels, source, origin, name, tab, id);
    FilterRanks(channels, AddresseeIn(source, origin, name, tab));
  }

  // ---------- Posting ----------

  ghost predicate TabsHaveRoom(s: State, source: Destination, origin: Text, name: Text) {
    forall tab: U64 :: Places(s.channels, AddresseeIn(source, origin, name, tab)) != {} ==>
      |QueueOf(s.pending, tab)| + |Places(s.channels, AddresseeIn(source, origin, name, tab))| <= 256
  }

  lemma RoomExact(s: State, source: Destination, origin: Text, name: Text)
    ensures FitsTabs(s.pending, Targets(s.channels, source, origin, name)) <==> TabsHaveRoom(s, source, origin, name)
  {
    var targets := Targets(s.channels, source, origin, name);
    forall tab: U64
      ensures InTab(targets, tab) == |Places(s.channels, AddresseeIn(source, origin, name, tab))|
    {
      EntriesRanked(s.channels, source, origin, name, tab, 0);
    }
    if FitsTabs(s.pending, targets) {
      forall tab: U64 | Places(s.channels, AddresseeIn(source, origin, name, tab)) != {}
        ensures |QueueOf(s.pending, tab)| + |Places(s.channels, AddresseeIn(source, origin, name, tab))| <= 256
      {
        var i := InTabWitness(targets, tab);
      }
    } else {
      var i :| 0 <= i < |targets| && |QueueOf(s.pending, targets[i].tab)| + InTab(targets, targets[i].tab) > 256;
      TabCounted(targets, i);
    }
  }

  lemma {:induction false} TabCounted(targets: seq<Destination>, i: nat)
    requires i < |targets|
    ensures InTab(targets, targets[i].tab) > 0
  {
    if i < |targets| - 1 {
      TabCounted(targets[..|targets| - 1], i);
    }
  }

  /** What every limit leaves room for. */
  ghost predicate Fits(s: State, source: Destination, origin: Text, name: Text, serialized: Text) {
    && TabsHaveRoom(s, source, origin, name)
    && s.pendingRecipients + |Places(s.channels, Addressee(source, origin, name))| <= 65_536
    && s.pendingBytes + |serialized| + |origin| <= 33_554_432
  }

  /**
    * Which posts are accepted, deferred and refused, by the number of addressed channels, the lengths
    * of the queues and the two totals.
    */
  lemma PostDecision(s: State, tab: U64, origin: Text, c: Command, p: nat)
    requires Sound(s) && ValidCommand(c) && c.operation.Post? && p < |s.channels|
    requires s.channels[p].destination == Destination(tab, c.document, c.channelId)
    ensures var r := Apply(s, tab, origin, c).1;
      var source, name, serialized := s.channels[p].destination, s.channels[p].name, c.operation.serialized;
      var n := |Places(s.channels, Addressee(source, origin, name))|;
      if s.channels[p].origin != origin then r == Err(OriginChanged)
      else
        && (r == Ok(true) <==>
             n == 0
             || (n <= 65_536 && Fits(s, source, origin, name, serialized) && s.nextBatchId < 0xFFFF_FFFF_FFFF_FFFF))
        && (r == Ok(false) <==> 0 < n <= 65_536 && !Fits(s, source, origin, name, serialized))
        && (r == Err(FanoutLimit) <==> n > 65_536)
        && (r == Err(BatchIdentifierExhausted) <==>
             0 < n <= 65_536 && Fits(s, source, origin, name, serialized) && s.nextBatchId == 0xFFFF_FFFF_FFFF_FFFF)
  {
    var source := s.channels[p].destination;
    SamePlace(s, p);
    RoomExact(s, source, origin, s.channels[p].name);
    TargetsCount(s.channels, source, origin, s.channels[p].name);
    hide Sound, ValidCommand, Targets, FitsTabs, TabsHaveRoom, Places, Posted;
  }

  lemma SamePlace(s: State, p: nat)
    requires Sound(s) && p < |s.channels|
    ensures Position(s.channels, s.channels[p].destination) == Some(p)
  {
    assert Distinct(s.channels);
    hide Sound;
  }

  /**
    * What an accepted post does: one new batch that counts its addressees, and in every tab one entry
    * for each channel it addresses there, behind what was queued and in the order the channels were opened.
    */
  lemma PostEffect(s: State, tab: U64, origin: Text, c: Command, p: nat, t: U64)
    requires Sound(s) && ValidCommand(c) && c.operation.Post? && p < |s.channels|
    requires s.channels[p].destination == Destination(tab, c.document, c.channelId)
    requires Apply(s, tab, origin, c).1 == Ok(true)
    ensures var s' := Apply(s, tab, origin, c).0;
      var source, name, serialized := s.channels[p].destination, s.channels[p].name, c.operation.serialized;
      var n, id := |Places(s.channels, Addressee(source, origin, name))|, s.nextBatchId + 1;
      var there := AddresseeIn(source, origin, name, t);
      var queue, queue' := QueueOf(s.pending, t), QueueOf(s'.pending, t);
      if n == 0 then s' == s
      else
        && s'.channels == s.channels && s'.nextBatchId == id && id !in s.batches
        && s'.batches == s.batches[id := Batch(origin, serialized, n)]
        && s'.pendingRecipients == s.pendingRecipients + n
        && s'.pendingBytes == s.pendingBytes + |origin| + |serialized|
        && |queue'| == |queue| + |Places(s.channels, there)| && queue <= queue'
        && forall i :: i in Places(s.channels, there) ==>
          var at := |queue| + |Places(s.channels[..i], there)|;
          && at < |queue'|
          && queue'[at] == QueuedDelivery(s.channels[i].destination.document, s.channels[i].destination.channelId, id)
  {
    var source, name := s.channels[p].destination, s.channels[p].name;
    SamePlace(s, p);
    TargetsCount(s.channels, source, origin, name);
    var targets := Targets(s.channels, source, origin, name);
    if targets != [] {
      EntriesRanked(s.channels, source, origin, name, t, s.nextBatchId + 1);
      EnqueueQueue(s.pending, targets, s.nextBatchId + 1, t);
    }
    hide Targets, FitsTabs, Places, Enqueue, Entries, QueueOf, ValidCommand;
  }

  // ---------- The other commands ----------

  /** The commands that are refused outright. */
  lemma InvalidExact(s: State, tab: U64, origin: Text, c: Command)
    requires Sound(s)
    ensures Apply(s, tab, origin, c).1 == Err(InvalidCommand) <==>
      || c.channelId == 0
      || (c.operation.Post? && |c.operation.serialized| > 131_072)
      || (c.operation.Open?
          && (|c.operation.name| > 4096 || |c.operation.name| % 4 != 0
              || exists i :: 0 <= i < |c.operation.name| && !Hex(c.operation.name[i])))
  {
    hide Sound, Targets, Closed;
  }

  /** The hexadecimal digits, in either case. */
  predicate Hex(b: byte) {
    b as int in {48, 49, 50, 51, 52, 53, 54, 55, 56, 57} || b as int in {65, 66, 67, 68, 69, 70}
    || b as int in {97, 98, 99, 100, 101, 102}
  }

  /** The channels of one document. */
  function OfDocument(tab: U64, document: U64): Channel -> bool {
    (c: Channel) => c.destination.tab == tab && c.destination.document == document
  }

  /** A channel is opened once, at the end of the list, while its document has fewer than 128. */
  lemma OpenExact(s: State, tab: U64, origin: Text, c: Command)
    requires Sound(s) && ValidCommand(c) && c.operation.Open?
    ensures var (s', r) := Apply(s, tab, origin, c);
      var d := Destination(tab, c.document, c.channelId);
      var taken := exists i :: 0 <= i < |s.channels| && s.channels[i].destination == d;
      var full := |Places(s.channels, OfDocument(tab, c.document))| >= 128;
      && r == (if taken then Err(DuplicateIdentifier) else if full then Err(MembershipLimit) else Ok(true))
      && s' == (if r.Ok? then s.(channels := s.channels + [Channel(d, origin, c.operation.name)]) else s)
  {
    FilterRanks(s.channels, OfDocument(tab, c.document));
    FilterAgree(s.channels, OfDocument(tab, c.document),
                (x: Channel) => x.destination.tab == tab && x.destination.document == c.document);
    assert Membership(s.channels, tab, c.document) == |Places(s.channels, OfDocument(tab, c.document))|;
    hide Sound, ValidCommand, Filter, Places;
  }

  /** The queue entries addressed to a channel. */
  function ForChannel(document: U64, channelId: U64): QueuedDelivery -> bool {
    (q: QueuedDelivery) => q.document == document && q.channelId == channelId
  }

  function ForOthers(document: U64, channelId: U64): QueuedDelivery -> bool {
    (q: QueuedDelivery) => !(q.document == document && q.channelId == channelId)
  }

  /** Closing takes the channel off the list and its entries out of its tab's queue, and nothing else. */
  lemma CloseExact(s: State, tab: U64, origin: Text, c: Command)
    requires Sound(s) && ValidCommand(c) && c.operation.Close?
    ensures var (s', r) := Apply(s, tab, origin, c);
      var d := Destination(tab, c.document, c.channelId);
      && r == Ok(true) && Sound(s') && SamePayloads(s, s') && s'.nextBatchId == s.nextBatchId
      && ((forall i :: 0 <= i < |s.channels| ==> s.channels[i].destination != d) ==> s' == s)
      && (forall p :: 0 <= p < |s.channels| && s.channels[p].destination == d ==>
           && s'.channels == s.channels[..p] + s.channels[p + 1..]
           && QueueOf(s'.pending, tab) == Filter(QueueOf(s.pending, tab), ForOthers(c.document, c.channelId))
           && forall t: U64 :: t != tab ==> QueueOf(s'.pending, t) == QueueOf(s.pending, t))
  {
    var d := Destination(tab, c.document, c.channelId);
    var position := Position(s.channels, d);
    if position.Some? {
      ClosedExact(s, d, position.value);
      OnlyPlace(s, position.value, d);
    }
    hide Sound, Closed, Filter, ValidCommand;
  }

  lemma ClosedExact(s: State, d: Destination, p: nat)
    requires Sound(s) && p < |s.channels| && s.channels[p].destination == d
    ensures var s' := Closed(s, d, p);
      && Sound(s') && SamePayloads(s, s') && s'.nextBatchId == s.nextBatchId
      && s'.channels == s.channels[..p] + s.channels[p + 1..]
      && QueueOf(s'.pending, d.tab) == Filter(QueueOf(s.pending, d.tab), ForOthers(d.document, d.channelId))
      && forall t: U64 :: t != d.tab ==> QueueOf(s'.pending, t) == QueueOf(s.pending, t)
  {
    SamePlace(s, p);
    UnlistedCounted(s, d, p);
    ReleaseAllPayloads(Unlisted(s, d, p), Dropped(s, d));
    ClosedSound(s, d, p);
    FilterAgree(QueueOf(s.pending, d.tab), ForOthers(d.document, d.channelId),
                (e: QueuedDelivery) => !Names(e, d.document, d.channelId));
    hide Sound, ReleaseAll;
  }

  lemma OnlyPlace(s: State, p: nat, d: Destination)
    requires Sound(s) && p < |s.channels| && s.channels[p].destination == d
    ensures forall i :: 0 <= i < |s.channels| && s.channels[i].destination == d ==> i == p
  {
    assert Distinct(s.channels);
    hide Sound;
  }

  lemma {:induction false} ReleaseAllPayloads(s: State, ids: seq<U64>)
    requires Counted(s, multiset(ids)) && Budgets(s) && BroadcastModel.Addressed(s)
    ensures SamePayloads(s, ReleaseAll(s, ids))
    ensures ReleaseAll(s, ids).pending == s.pending && ReleaseAll(s, ids).channels == s.channels
    ensures ReleaseAll(s, ids).nextBatchId == s.nextBatchId
    decreases |ids|
  {
    hide Counted, Budgets, BroadcastModel.Addressed;
    if ids != [] {
      assert Counted(s, multiset(ids));
      ReleaseCounted(s, multiset(ids), ids[0]);
      assert ids == [ids[0]] + ids[1..];
      assert multiset(ids) - multiset{ids[0]} == multiset(ids[1..]);
      ReleaseAllSound(s, ids);
      AddressedAfter(s, multiset(ids), ids[0]);
      ReleaseAllPayloads(Release(s, ids[0]), ids[1..]);
    }
  }

  lemma AddressedAfter(s: State, owed: multiset<U64>, id: U64)
    requires Counted(s, owed) && id in owed && BroadcastModel.Addressed(s)
    ensures CanRelease(s, id) && BroadcastModel.Addressed(Release(s, id))
  {
    ReleaseKeepsQueued(s, owed, id);
  }

  /** The channels of other tabs. */
  function Elsewhere(tab: U64): Channel -> bool {
    (c: Channel) => c.destination.tab != tab
  }

  /** Retiring a tab takes its channels and its queue, and nothing of any other tab. */
  lemma RetireExact(s: State, tab: U64)
    requires Sound(s)
    ensures var s' := Retired(s, tab);
      && Sound(s') && SamePayloads(s, s') && s'.nextBatchId == s.nextBatchId
      && s'.channels == Filter(s.channels, Elsewhere(tab))
      && QueueOf(s'.pending, tab) == []
      && forall t: U64 :: t != tab ==> QueueOf(s'.pending, t) == QueueOf(s.pending, t)
  {
    AbandonedCounted(s, tab);
    ReleaseAllPayloads(Abandoned(s, tab), Ids(QueueOf(s.pending, tab)));
    RetiredSound(s, tab);
    FilterAgree(s.channels, Elsewhere(tab), (c: Channel) => c.destination.tab != tab);
    hide Sound, ReleaseAll;
  }

  // ---------- Taking ----------

  /**
    * A take offers the oldest entry of the tab with the payload of its batch, and takes it exactly if
    * it is accepted.
    */
  lemma TakeExact(s: State, tab: U64, accepts: BroadcastDelivery -> bool)
    requires Sound(s)
    ensures var (s', delivery) := TakeIf(s, tab, accepts);
      var queue := QueueOf(s.pending, tab);
      if queue == [] then s' == s && delivery == None
      else
        && queue[0].batchId in s.batches
        && var batch := s.batches[queue[0].batchId];
          var offer := BroadcastDelivery(queue[0].document, queue[0].channelId, batch.origin, batch.serialized);
          && delivery == (if accepts(offer) then Some(offer) else None)
          && (!accepts(offer) ==> s' == s)
          && (accepts(offer) ==>
               && s'.pending == s.pending[tab := queue[1..]] && s'.channels == s.channels
               && Sound(s') && SamePayloads(s, s') && s'.nextBatchId == s.nextBatchId)
  {
    if QueueOf(s.pending, tab) != [] {
      PoppedCounted(s, tab);
      TakenSound(s, tab);
      hide Sound;
    }
  }
}
