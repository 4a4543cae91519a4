/** What every call on the registry does to its state, and the invariant every call keeps. */
module BroadcastSteps {
  import opened Bytes
  import opened Outcome
  import opened Totals
  import opened BroadcastModel

  // ---------- Opening and posting ----------

  function Opened(s: State, d: Destination, origin: Text, name: Text): State {
    s.(channels := s.channels + [Channel(d, origin, name)])
  }

  function Posted(s: State, targets: seq<Destination>, origin: Text, serialized: Text): State
    requires s.nextBatchId < U64_BOUND - 1
  {
    var id := s.nextBatchId + 1;
    s.(nextBatchId := id,
       batches := s.batches[id := Batch(origin, serialized, |targets|)],
       pendingBytes := s.pendingBytes + |serialized| + |origin|,
       pendingRecipients := s.pendingRecipients + |targets|,
       pending := Enqueue(s.pending, targets, id))
  }

  /** The decision on a post whose source channel is known and of the right origin. */
  function PostTo(s: State, targets: seq<Destination>, origin: Text, serialized: Text): (State, Result<bool, Error>) {
    if targets == [] then (s, Ok(true))
    else if |targets| > MAX_PENDING_RECIPIENTS_PER_BROWSER then (s, Err(FanoutLimit))
    else if !FitsTabs(s.pending, targets) then (s, Ok(false))
    else if s.pendingRecipients + |targets| > MAX_PENDING_RECIPIENTS_PER_BROWSER
         || s.pendingBytes + |serialized| + |origin| > MAX_PENDING_BYTES_PER_BROWSER then (s, Ok(false))
    else if s.nextBatchId == U64_BOUND - 1 then (s, Err(BatchIdentifierExhausted))
    else (Posted(s, targets, origin, serialized), Ok(true))
  }

  /** Queueing adds one reference per target, and lengthens each tab's queue by the targets in it. */
  lemma {:induction false} EnqueueCounts(pending: map<U64, Queue>, targets: seq<Destination>, id: U64, k: U64)
    ensures Sum(Enqueue(pending, targets, id), RefsTo(k)) ==
      Sum(pending, RefsTo(k)) + (if k == id then |targets| else 0)
    ensures Sum(Enqueue(pending, targets, id), Length()) == Sum(pending, Length()) + |targets|
  {
    if targets != [] {
      var n := |targets| - 1;
      EnqueueCounts(pending, targets[..n], id, k);
      var p := Enqueue(pending, targets[..n], id);
      var q := QueueOf(p, targets[n].tab);
      var entry := QueuedDelivery(targets[n].document, targets[n].channelId, id);
      assert Ids(q + [entry]) == Ids(q) + [id];
      SumUpdate(p, RefsTo(k), targets[n].tab, q + [entry]);
      SumUpdate(p, Length(), targets[n].tab, q + [entry]);
      assert Ids([]) == [];
    }
  }

  lemma {:induction false} EnqueueLengths(pending: map<U64, Queue>, targets: seq<Destination>, id: U64, tab: U64)
    ensures |QueueOf(Enqueue(pending, targets, id), tab)| == |QueueOf(pending, tab)| + InTab(targets, tab)
    ensures tab in Enqueue(pending, targets, id) <==> tab in pending || InTab(targets, tab) > 0
  {
    if targets != [] {
      EnqueueLengths(pending, targets[..|targets| - 1], id, tab);
    }
  }

  lemma {:induction false} InTabWitness(targets: seq<Destination>, tab: U64) returns (i: nat)
    requires InTab(targets, tab) > 0
    ensures i < |targets| && targets[i].tab == tab
  {
    var n := |targets| - 1;
    if targets[n].tab == tab {
      i := n;
    } else {
      i := InTabWitness(targets[..n], tab);
    }
  }

  /** The queue of one tab after a post: what it held, then one entry per target in the tab. */
  function Entries(targets: seq<Destination>, tab: U64, id: U64): (r: Queue) {
    if targets == [] then []
    else
      var last := targets[|targets| - 1];
      Entries(targets[..|targets| - 1], tab, id)
      + (if last.tab == tab then [QueuedDelivery(last.document, last.channelId, id)] else [])
  }

  lemma {:induction false} EnqueueQueue(pending: map<U64, Queue>, targets: seq<Destination>, id: U64, tab: U64)
    ensures QueueOf(Enqueue(pending, targets, id), tab) == QueueOf(pending, tab) + Entries(targets, tab, id)
  {
    if targets != [] {
      EnqueueQueue(pending, targets[..|targets| - 1], id, tab);
    }
  }

  lemma {:induction false} EntriesAre(targets: seq<Destination>, tab: U64, id: U64, i: nat)
    requires i < |Entries(targets, tab, id)|
    ensures var q := Entries(targets, tab, id)[i];
      q.batchId == id && Destination(tab, q.document, q.channelId) in targets
  {
    var n := |targets| - 1;
    if i < |Entries(targets[..n], tab, id)| {
      EntriesAre(targets[..n], tab, id, i);
    }
  }

  lemma PostedCounted(s: State, targets: seq<Destination>, origin: Text, serialized: Text)
    requires Sound(s) && targets != [] && s.nextBatchId < U64_BOUND - 1
    ensures Counted(Posted(s, targets, origin, serialized), multiset{})
  {
    hide Enqueue, Addressed, Sum;
    var s' := Posted(s, targets, origin, serialized);
    var id := s'.nextBatchId;
    var batch := Batch(origin, serialized, |targets|);
    assert id !in s.batches;
    forall k: U64 ensures Recipients(s', k) == Sum(s'.pending, RefsTo(k)) {
      EnqueueCounts(s.pending, targets, id, k);
      assert Recipients(s, k) == Sum(s.pending, RefsTo(k));
    }
    EnqueueCounts(s.pending, targets, id, id);
    SumUpdate(s.batches, Size(), id, batch);
    assert Size()(batch) == |serialized| + |origin|;
  }

  lemma PostedAddressed(s: State, targets: seq<Destination>, origin: Text, serialized: Text)
    requires Sound(s) && s.nextBatchId < U64_BOUND - 1
    requires forall i :: 0 <= i < |targets| ==> IsOpen(s.channels, targets[i], origin)
    ensures Addressed(Posted(s, targets, origin, serialized))
  {
    var s' := Posted(s, targets, origin, serialized);
    var id := s'.nextBatchId;
    forall tab, i | tab in s'.pending && 0 <= i < |s'.pending[tab]|
      ensures var q := s'.pending[tab][i];
        q.batchId in s'.batches
          && IsOpen(s'.channels, Destination(tab, q.document, q.channelId), s'.batches[q.batchId].origin)
    {
      EnqueueQueue(s.pending, targets, id, tab);
      var before := QueueOf(s.pending, tab);
      if i < |before| {
        assert s'.pending[tab][i] == s.pending[tab][i];
      } else {
        EntriesAre(targets, tab, id, i - |before|);
      }
    }
  }

  lemma PostToSound(s: State, targets: seq<Destination>, origin: Text, serialized: Text)
    requires Sound(s)
    requires forall i :: 0 <= i < |targets| ==> IsOpen(s.channels, targets[i], origin)
    ensures Sound(PostTo(s, targets, origin, serialized).0)
  {
    var s' := PostTo(s, targets, origin, serialized).0;
    if s' != s {
      PostedCounted(s, targets, origin, serialized);
      PostedAddressed(s, targets, origin, serialized);
      var id := s.nextBatchId + 1;
      forall tab | tab in s'.pending ensures |s'.pending[tab]| <= MAX_PENDING_PER_TAB {
        EnqueueLengths(s.pending, targets, id, tab);
        if InTab(targets, tab) > 0 {
          var i := InTabWitness(targets, tab);
        }
      }
    }
  }

  /** A post addresses exactly the other open channels of its origin and name, each once. */
  lemma {:induction false} TargetsExact(channels: seq<Channel>, source: Destination, origin: Text, name: Text,
      d: Destination)
    ensures d in Targets(channels, source, origin, name) <==>
      exists i :: 0 <= i < |channels| && channels[i].destination == d && Receives(channels[i], source, origin, name)
  {
    if channels != [] {
      var n := |channels| - 1;
      TargetsExact(channels[..n], source, origin, name, d);
      if d in Targets(channels[..n], source, origin, name) {
        var i :| 0 <= i < n && channels[..n][i].destination == d && Receives(channels[..n][i], source, origin, name);
        assert channels[i].destination == d && Receives(channels[i], source, origin, name);
      }
      forall i | 0 <= i < n && channels[i].destination == d && Receives(channels[i], source, origin, name)
        ensures d in Targets(channels[..n], source, origin, name)
      {
        assert channels[..n][i] == channels[i];
      }
    }
  }

  lemma {:induction false} TargetsDistinct(channels: seq<Channel>, source: Destination, origin: Text, name: Text)
    requires Distinct(channels)
    ensures var r := Targets(channels, source, origin, name); forall i, j :: 0 <= i < j < |r| ==> r[i] != r[j]
  {
    if channels != [] {
      var n := |channels| - 1;
      TargetsDistinct(channels[..n], source, origin, name);
      TargetsExact(channels[..n], source, origin, name, channels[n].destination);
    }
  }

  // ---------- Closing, retiring and taking ----------

  ghost function Kept(q: Queue, document: U64, channelId: U64): Queue {
    Filter(q, (e: QueuedDelivery) => !Names(e, document, channelId))
  }

  ghost function Removed(q: Queue, document: U64, channelId: U64): Queue {
    Filter(q, (e: QueuedDelivery) => Names(e, document, channelId))
  }

  lemma {:induction false} KeptAndRemoved(q: Queue, document: U64, channelId: U64)
    ensures multiset(Ids(q)) ==
      multiset(Ids(Kept(q, document, channelId))) + multiset(Ids(Removed(q, document, channelId)))
    ensures |q| == |Kept(q, document, channelId)| + |Removed(q, document, channelId)|
  {
    if q == [] {
      assert Ids(q) == [];
    } else {
      var n := |q| - 1;
      KeptAndRemoved(q[..n], document, channelId);
      var k, r := Kept(q[..n], document, channelId), Removed(q[..n], document, channelId);
      assert Ids(q) == Ids(q[..n]) + [q[n].batchId];
      if Names(q[n], document, channelId) {
        assert Kept(q, document, channelId) == k && Removed(q, document, channelId) == r + [q[n]];
        assert Ids(r + [q[n]]) == Ids(r) + [q[n].batchId];
      } else {
        assert Kept(q, document, channelId) == k + [q[n]] && Removed(q, document, channelId) == r;
        assert Ids(k + [q[n]]) == Ids(k) + [q[n].batchId];
      }
    }
  }

  /** Replacing one tab's queue turns the references it loses into debts. */
  lemma Unlink(s: State, tab: U64, kept: Queue, gone: multiset<U64>)
    requires Counted(s, multiset{}) && tab in s.pending
    requires multiset(Ids(s.pending[tab])) == multiset(Ids(kept)) + gone
    requires |s.pending[tab]| == |kept| + |gone|
    ensures Counted(s.(pending := s.pending[tab := kept]), gone)
  {
    var s' := s.(pending := s.pending[tab := kept]);
    forall k: U64 ensures Recipients(s', k) == Sum(s'.pending, RefsTo(k)) + gone[k] {
      assert Recipients(s, k) == Sum(s.pending, RefsTo(k));
      SumUpdate(s.pending, RefsTo(k), tab, kept);
      assert multiset(Ids(s.pending[tab]))[k] == multiset(Ids(kept))[k] + gone[k];
    }
    SumUpdate(s.pending, Length(), tab, kept);
  }

  lemma Forget(s: State, tab: U64)
    requires Counted(s, multiset{}) && tab in s.pending
    ensures Counted(s.(pending := s.pending - {tab}), multiset(Ids(s.pending[tab])))
  {
    var s' := s.(pending := s.pending - {tab});
    var gone := multiset(Ids(s.pending[tab]));
    forall k: U64 ensures Recipients(s', k) == Sum(s'.pending, RefsTo(k)) + gone[k] {
      assert Recipients(s, k) == Sum(s.pending, RefsTo(k));
      SumSplit(s.pending, RefsTo(k), tab);
    }
    SumSplit(s.pending, Length(), tab);
  }

  /** The state of a close once the queue has been filtered, before references are given back. */
  ghost function Unlisted(s: State, d: Destination, position: nat): State
    requires position < |s.channels|
  {
    s.(channels := RemoveAt(s.channels, position),
       pending := if d.tab in s.pending
                  then s.pending[d.tab := Kept(s.pending[d.tab], d.document, d.channelId)]
                  else s.pending)
  }

  ghost function Dropped(s: State, d: Destination): seq<U64> {
    Ids(Removed(QueueOf(s.pending, d.tab), d.document, d.channelId))
  }

  /** An open channel other than the removed one is still listed. */
  lemma RemoveAtKeeps(channels: seq<Channel>, position: nat, d: Destination, origin: Text)
    requires position < |channels| && channels[position].destination != d && IsOpen(channels, d, origin)
    ensures IsOpen(RemoveAt(channels, position), d, origin)
  {
    var c :| 0 <= c < |channels| && channels[c].destination == d && channels[c].origin == origin;
    assert RemoveAt(channels, position)[if c < position then c else c - 1] == channels[c];
  }

  lemma KeptEntry(q: Queue, document: U64, channelId: U64, i: nat)
    requires i < |Kept(q, document, channelId)|
    ensures var e := Kept(q, document, channelId)[i];
      !Names(e, document, channelId) && exists j :: 0 <= j < |q| && q[j] == e
  {
    FilterIn(q, (e: QueuedDelivery) => !Names(e, document, channelId), Kept(q, document, channelId)[i]);
  }

  lemma UnlistedAddressed(s: State, d: Destination, position: nat)
    requires Sound(s) && position < |s.channels| && s.channels[position].destination == d
    ensures Addressed(Unlisted(s, d, position))
  {
    var s' := Unlisted(s, d, position);
    forall tab, i | tab in s'.pending && 0 <= i < |s'.pending[tab]|
      ensures var q := s'.pending[tab][i];
        q.batchId in s'.batches
          && IsOpen(s'.channels, Destination(tab, q.document, q.channelId), s'.batches[q.batchId].origin)
    {
      var q := s'.pending[tab][i];
      if tab == d.tab {
        KeptEntry(s.pending[tab], d.document, d.channelId, i);
      }
      var j :| 0 <= j < |s.pending[tab]| && s.pending[tab][j] == q;
      RemoveAtKeeps(s.channels, position, Destination(tab, q.document, q.channelId), s.batches[q.batchId].origin);
    }
  }

  lemma UnlistedCounted(s: State, d: Destination, position: nat)
    requires Sound(s) && position < |s.channels| && s.channels[position].destination == d
    ensures Counted(Unlisted(s, d, position), multiset(Dropped(s, d)))
    ensures Budgets(Unlisted(s, d, position)) && Addressed(Unlisted(s, d, position))
  {
    if d.tab in s.pending {
      KeptAndRemoved(s.pending[d.tab], d.document, d.channelId);
      Unlink(s, d.tab, Kept(s.pending[d.tab], d.document, d.channelId), multiset(Dropped(s, d)));
      assert Unlisted(s, d, position).pending == s.pending[d.tab := Kept(s.pending[d.tab], d.document, d.channelId)];
    } else {
      assert Dropped(s, d) == [];
    }
    UnlistedAddressed(s, d, position);
  }

  ghost function Closed(s: State, d: Destination, position: nat): State
    requires Sound(s) && position < |s.channels| && s.channels[position].destination == d
  {
    UnlistedCounted(s, d, position);
    ReleaseAll(Unlisted(s, d, position), Dropped(s, d))
  }

  function Survivors(channels: seq<Channel>, tab: U64): seq<Channel> {
    Filter(channels, (c: Channel) => c.destination.tab != tab)
  }

  ghost function Abandoned(s: State, tab: U64): State {
    s.(channels := Survivors(s.channels, tab), pending := s.pending - {tab})
  }

  lemma {:induction false} SurvivorsDistinct(channels: seq<Channel>, tab: U64)
    requires Distinct(channels)
    ensures Distinct(Survivors(channels, tab))
  {
    if channels != [] {
      var n := |channels| - 1;
      SurvivorsDistinct(channels[..n], tab);
      var keep := (c: Channel) => c.destination.tab != tab;
      var r := Filter(channels[..n], keep);
      forall i | 0 <= i < |r| ensures r[i].destination != channels[n].destination {
        FilterIn(channels[..n], keep, r[i]);
      }
    }
  }

  lemma AbandonedCounted(s: State, tab: U64)
    requires Sound(s)
    ensures Counted(Abandoned(s, tab), multiset(Ids(QueueOf(s.pending, tab))))
    ensures Budgets(Abandoned(s, tab)) && Addressed(Abandoned(s, tab))
  {
    if tab in s.pending {
      Forget(s, tab);
    } else {
      assert s.pending - {tab} == s.pending;
      assert Ids([]) == [];
    }
    var s' := Abandoned(s, tab);
    SurvivorsDistinct(s.channels, tab);
    forall t, i | t in s'.pending && 0 <= i < |s'.pending[t]|
      ensures var q := s'.pending[t][i];
        q.batchId in s'.batches
          && IsOpen(s'.channels, Destination(t, q.document, q.channelId), s'.batches[q.batchId].origin)
    {
      var q := s.pending[t][i];
      var c :| 0 <= c < |s.channels| && s.channels[c].destination == Destination(t, q.document, q.channelId)
        && s.channels[c].origin == s.batches[q.batchId].origin;
      FilterIn(s.channels, (c: Channel) => c.destination.tab != tab, s.channels[c]);
    }
  }

  ghost function Retired(s: State, tab: U64): State
    requires Sound(s)
  {
    AbandonedCounted(s, tab);
    ReleaseAll(Abandoned(s, tab), Ids(QueueOf(s.pending, tab)))
  }

  /** The delivery at the front of a queue, with the payload its batch holds. */
  ghost function DeliveryOf(s: State, q: QueuedDelivery): BroadcastDelivery
    requires q.batchId in s.batches
  {
    BroadcastDelivery(q.document, q.channelId, s.batches[q.batchId].origin, s.batches[q.batchId].serialized)
  }

  ghost function Popped(s: State, tab: U64): State
    requires tab in s.pending && s.pending[tab] != []
  {
    s.(pending := s.pending[tab := s.pending[tab][1..]])
  }

  lemma PoppedCounted(s: State, tab: U64)
    requires Sound(s) && tab in s.pending && s.pending[tab] != []
    ensures s.pending[tab][0].batchId in s.batches
    ensures Counted(Popped(s, tab), multiset{s.pending[tab][0].batchId})
    ensures Budgets(Popped(s, tab)) && Addressed(Popped(s, tab))
  {
    var q := s.pending[tab];
    QueuedIsLive(s, multiset{}, tab, 0);
    assert Ids(q) == [q[0].batchId] + Ids(q[1..]);
    Unlink(s, tab, q[1..], multiset{q[0].batchId});
    forall i | 0 <= i < |q[1..]| ensures q[1..][i] == q[i + 1] {}
  }

  ghost function Taken(s: State, tab: U64): State
    requires Sound(s) && QueueOf(s.pending, tab) != []
  {
    PoppedCounted(s, tab);
    ReleaseCounted(Popped(s, tab), multiset{s.pending[tab][0].batchId}, s.pending[tab][0].batchId);
    Release(Popped(s, tab), s.pending[tab][0].batchId)
  }

  // ---------- The calls ----------

  ghost function Apply(s: State, tab: U64, origin: Text, c: Command): (State, Result<bool, Error>)
    requires Sound(s)
  {
    var source := Destination(tab, c.document, c.channelId);
    var position := Position(s.channels, source);
    if !ValidCommand(c) then (s, Err(InvalidCommand))
    else
      match c.operation
      case Open(name) =>
        if position.Some? then (s, Err(DuplicateIdentifier))
        else if Membership(s.channels, tab, c.document) >= MAX_CHANNELS_PER_DOCUMENT then (s, Err(MembershipLimit))
        else (Opened(s, source, origin, name), Ok(true))
      case Post(serialized) =>
        if position.None? then (s, Err(UnknownIdentifier))
        else if s.channels[position.value].origin != origin then (s, Err(OriginChanged))
        else PostTo(s, Targets(s.channels, source, origin, s.channels[position.value].name), origin, serialized)
      case Close =>
        if position.Some? then (Closed(s, source, position.value), Ok(true)) else (s, Ok(true))
  }

  ghost function TakeIf(s: State, tab: U64, accepts: BroadcastDelivery -> bool): (State, Option<BroadcastDelivery>)
    requires Sound(s)
  {
    if QueueOf(s.pending, tab) == [] then (s, None)
    else
      PoppedCounted(s, tab);
      var delivery := DeliveryOf(s, s.pending[tab][0]);
      if accepts(delivery) then (Taken(s, tab), Some(delivery)) else (s, None)
  }

  lemma ClosedSound(s: State, d: Destination, position: nat)
    requires Sound(s) && position < |s.channels| && s.channels[position].destination == d
    ensures Sound(Closed(s, d, position))
  {
    UnlistedCounted(s, d, position);
    ReleaseAllSound(Unlisted(s, d, position), Dropped(s, d));
  }

  lemma RetiredSound(s: State, tab: U64)
    requires Sound(s)
    ensures Sound(Retired(s, tab))
  {
    AbandonedCounted(s, tab);
    ReleaseAllSound(Abandoned(s, tab), Ids(QueueOf(s.pending, tab)));
  }

  lemma TakenSound(s: State, tab: U64)
    requires Sound(s) && QueueOf(s.pending, tab) != []
    ensures Sound(Taken(s, tab))
  {
    PoppedCounted(s, tab);
    var id := s.pending[tab][0].batchId;
    ReleaseCounted(Popped(s, tab), multiset{id}, id);
    ReleaseKeepsQueued(Popped(s, tab), multiset{id}, id);
    assert multiset{id} - multiset{id} == multiset{};
  }

  lemma OpenedSound(s: State, d: Destination, origin: Text, name: Text)
    requires Sound(s) && forall i :: 0 <= i < |s.channels| ==> s.channels[i].destination != d
    ensures Addressed(Opened(s, d, origin, name))
  {
    var s' := Opened(s, d, origin, name);
    forall t, i | t in s'.pending && 0 <= i < |s'.pending[t]|
      ensures var q := s'.pending[t][i];
        q.batchId in s'.batches
          && IsOpen(s'.channels, Destination(t, q.document, q.channelId), s'.batches[q.batchId].origin)
    {
      var q := s.pending[t][i];
      var c :| 0 <= c < |s.channels| && s.channels[c].destination == Destination(t, q.document, q.channelId)
        && s.channels[c].origin == s.batches[q.batchId].origin;
      assert s'.channels[c] == s.channels[c];
    }
  }

  /** Every command keeps the invariant, and one that is refused or deferred changes nothing. */
  lemma ApplySound(s: State, tab: U64, origin: Text, c: Command)
    requires Sound(s)
    ensures Sound(Apply(s, tab, origin, c).0)
    ensures Apply(s, tab, origin, c).1 != Ok(true) ==> Apply(s, tab, origin, c).0 == s
  {
    var source := Destination(tab, c.document, c.channelId);
    var position := Position(s.channels, source);
    match c.operation
    case Open(name) =>
      if position.None? {
        OpenedSound(s, source, origin, name);
        hide Addressed;
      }
    case Post(serialized) =>
      if position.Some? {
        var name := s.channels[position.value].name;
        var targets := Targets(s.channels, source, origin, name);
        forall i | 0 <= i < |targets| ensures IsOpen(s.channels, targets[i], origin) {
          TargetsExact(s.channels, source, origin, name, targets[i]);
        }
        PostToSound(s, targets, origin, serialized);
        hide Sound;
      }
    case Close =>
      if position.Some? {
        ClosedSound(s, source, position.value);
        hide Sound;
      }
  }

  lemma EmptySound()
    ensures Sound(Empty)
  {
  }
}
