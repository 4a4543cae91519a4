/** The BroadcastChannel registry as values: its state and what each call computes. */
module BroadcastModel {
  import opened Bytes
  import opened Outcome
  import opened Totals

  const MAX_CHANNELS_PER_DOCUMENT := 128
  const MAX_PENDING_PER_TAB := 256
  const MAX_PENDING_RECIPIENTS_PER_BROWSER := 65_536
  const MAX_PENDING_BYTES_PER_BROWSER := 32 * 1024 * 1024
  const MAX_BROADCAST_NAME_BYTES := 4 * 1024
  const MAX_BROADCAST_MESSAGE_BYTES := 128 * 1024

  type Text = seq<byte>

  datatype Destination = Destination(tab: U64, document: U64, channelId: U64)

  datatype Channel = Channel(destination: Destination, origin: Text, name: Text)

  datatype QueuedDelivery = QueuedDelivery(document: U64, channelId: U64, batchId: U64)

  datatype Batch = Batch(origin: Text, serialized: Text, recipients: nat)

  datatype BroadcastDelivery = BroadcastDelivery(document: U64, channelId: U64, origin: Text, serialized: Text)

  datatype Operation = Open(name: Text) | Post(serialized: Text) | Close

  datatype Command = Command(document: U64, channelId: U64, operation: Operation)

  datatype Error =
    | InvalidCommand
    | DuplicateIdentifier
    | MembershipLimit
    | UnknownIdentifier
    | OriginChanged
    | FanoutLimit
    | BatchIdentifierExhausted

  type Queue = seq<QueuedDelivery>

  datatype State = State(
    channels: seq<Channel>,
    pending: map<U64, Queue>,
    batches: map<U64, Batch>,
    nextBatchId: U64,
    pendingBytes: nat,
    pendingRecipients: nat)

  const Empty := State([], map[], map[], 0, 0, 0)

  predicate HexDigit(b: byte) {
    '0' as int <= b <= '9' as int || 'A' as int <= b <= 'F' as int || 'a' as int <= b <= 'f' as int
  }

  predicate ValidCommand(c: Command) {
    && c.channelId != 0
    && match c.operation
       case Open(name) =>
         && |name| <= MAX_BROADCAST_NAME_BYTES
         && |name| % 4 == 0
         && forall i :: 0 <= i < |name| ==> HexDigit(name[i])
       case Post(serialized) => |serialized| <= MAX_BROADCAST_MESSAGE_BYTES
       case Close => true
  }

  /** The index of the first channel with this destination. */
  function Position(channels: seq<Channel>, d: Destination): (r: Option<nat>)
    ensures r.Some? ==> r.value < |channels| && channels[r.value].destination == d
    ensures r.None? <==> forall i :: 0 <= i < |channels| ==> channels[i].destination != d
  {
    if channels == [] then None
    else if channels[0].destination == d then Some(0)
    else
      match Position(channels[1..], d)
      case None => None
      case Some(i) => Some(i + 1)
  }

  function Membership(channels: seq<Channel>, tab: U64, document: U64): nat {
    |Filter(channels, (c: Channel) => c.destination.tab == tab && c.destination.document == document)|
  }

  predicate Receives(c: Channel, source: Destination, origin: Text, name: Text) {
    c.destination != source && c.origin == origin && c.name == name
  }

  /** Whom a post from `source` addresses, in the order their channels were opened. */
  function Targets(channels: seq<Channel>, source: Destination, origin: Text, name: Text): (r: seq<Destination>)
    ensures |r| <= |channels|
  {
    if channels == [] then []
    else
      var last := channels[|channels| - 1];
      Targets(channels[..|channels| - 1], source, origin, name)
      + (if Receives(last, source, origin, name) then [last.destination] else [])
  }

  function QueueOf(pending: map<U64, Queue>, tab: U64): Queue {
    if tab in pending then pending[tab] else []
  }

  /** How many of the targets live in `tab`. */
  function InTab(targets: seq<Destination>, tab: U64): nat {
    if targets == [] then 0
    else InTab(targets[..|targets| - 1], tab) + (if targets[|targets| - 1].tab == tab then 1 else 0)
  }

  /** The per-tab bound: no addressed tab's queue would outgrow its limit. */
  predicate FitsTabs(pending: map<U64, Queue>, targets: seq<Destination>) {
    forall i :: 0 <= i < |targets| ==>
      |QueueOf(pending, targets[i].tab)| + InTab(targets, targets[i].tab) <= MAX_PENDING_PER_TAB
  }

  function EnqueueOne(pending: map<U64, Queue>, target: Destination, id: U64): map<U64, Queue> {
    pending[target.tab := QueueOf(pending, target.tab) + [QueuedDelivery(target.document, target.channelId, id)]]
  }

  function Enqueue(pending: map<U64, Queue>, targets: seq<Destination>, id: U64): map<U64, Queue> {
    if targets == [] then pending
    else EnqueueOne(Enqueue(pending, targets[..|targets| - 1], id), targets[|targets| - 1], id)
  }

  predicate Names(q: QueuedDelivery, document: U64, channelId: U64) {
    q.document == document && q.channelId == channelId
  }

  function BatchBytes(b: Batch): nat {
    |b.origin| + |b.serialized|
  }

  /** Whether the counters can give back one reference to `id` without underflow or a failing lookup. */
  predicate CanRelease(s: State, id: U64) {
    && s.pendingRecipients > 0
    && id in s.batches
    && s.batches[id].recipients > 0
    && (s.batches[id].recipients == 1 ==> BatchBytes(s.batches[id]) <= s.pendingBytes)
  }

  function Release(s: State, id: U64): State
    requires CanRelease(s, id)
  {
    var batch := s.batches[id].(recipients := s.batches[id].recipients - 1);
    if batch.recipients == 0 then
      s.(pendingRecipients := s.pendingRecipients - 1,
         batches := s.batches - {id},
         pendingBytes := s.pendingBytes - BatchBytes(batch))
    else
      s.(pendingRecipients := s.pendingRecipients - 1, batches := s.batches[id := batch])
  }

  // ---------- The invariant of the counters ----------

  ghost function Ids(q: Queue): seq<U64> {
    seq(|q|, i requires 0 <= i < |q| => q[i].batchId)
  }

  ghost function RefsTo(id: U64): Queue -> nat {
    q => multiset(Ids(q))[id]
  }

  ghost function Length(): Queue -> nat {
    q => |q|
  }

  ghost function Size(): Batch -> nat {
    b => BatchBytes(b)
  }

  function Recipients(s: State, id: U64): nat {
    if id in s.batches then s.batches[id].recipients else 0
  }

  /**
    * Every counter equals what it counts, once the references in `owed` are added: those are
    * references a call has already unlinked from the queues but not yet given back.
    */
  ghost predicate Counted(s: State, owed: multiset<U64>) {
    && (forall id: U64 :: Recipients(s, id) == Sum(s.pending, RefsTo(id)) + owed[id])
    && (forall id :: id in s.batches ==> s.batches[id].recipients > 0)
    && s.pendingRecipients == Sum(s.pending, Length()) + |owed|
    && s.pendingBytes == Sum(s.batches, Size())
  }

  predicate Budgets(s: State) {
    && (forall tab :: tab in s.pending ==> |s.pending[tab]| <= MAX_PENDING_PER_TAB)
    && s.pendingRecipients <= MAX_PENDING_RECIPIENTS_PER_BROWSER
    && s.pendingBytes <= MAX_PENDING_BYTES_PER_BROWSER
    && (forall id :: id in s.batches ==> 0 < id <= s.nextBatchId)
  }

  ghost predicate Distinct(channels: seq<Channel>) {
    forall i, j :: 0 <= i < j < |channels| ==> channels[i].destination != channels[j].destination
  }

  ghost predicate IsOpen(channels: seq<Channel>, d: Destination, origin: Text) {
    exists i :: 0 <= i < |channels| && channels[i].destination == d && channels[i].origin == origin
  }

  /** Every queued delivery names a channel that is open now, with the origin of its batch. */
  ghost predicate Addressed(s: State) {
    && Distinct(s.channels)
    && forall tab, i :: tab in s.pending && 0 <= i < |s.pending[tab]| ==>
         var q := s.pending[tab][i];
         q.batchId in s.batches
           && IsOpen(s.channels, Destination(tab, q.document, q.channelId), s.batches[q.batchId].origin)
  }

  ghost predicate Sound(s: State) {
    Counted(s, multiset{}) && Budgets(s) && Addressed(s)
  }

  // ---------- References ----------

  lemma QueuedIsLive(s: State, owed: multiset<U64>, tab: U64, i: nat)
    requires Counted(s, owed) && tab in s.pending && i < |s.pending[tab]|
    ensures s.pending[tab][i].batchId in s.batches
  {
    var id := s.pending[tab][i].batchId;
    SumSplit(s.pending, RefsTo(id), tab);
    assert Ids(s.pending[tab])[i] == id;
    assert id in multiset(Ids(s.pending[tab]));
    assert Recipients(s, id) > 0;
  }

  /** A counted state can give back any reference it owes; doing so settles that one debt. */
  lemma {:induction false} ReleaseCounted(s: State, owed: multiset<U64>, id: U64)
    requires Counted(s, owed) && id in owed
    ensures CanRelease(s, id)
    ensures Counted(Release(s, id), owed - multiset{id})
    ensures Budgets(s) ==> Budgets(Release(s, id))
  {
    assert Recipients(s, id) > 0;
    SumSplit(s.batches, Size(), id);
    var s' := Release(s, id);
    var owed' := owed - multiset{id};
    assert |owed| == |owed'| + 1;
    forall k: U64 ensures Recipients(s', k) == Sum(s'.pending, RefsTo(k)) + owed'[k] {
      assert Recipients(s, k) == Sum(s.pending, RefsTo(k)) + owed[k];
    }
    SumUpdate(s.batches, Size(), id, s.batches[id].(recipients := s.batches[id].recipients - 1));
  }

  /** Releasing never drops a batch that a queue still names. */
  lemma ReleaseKeepsQueued(s: State, owed: multiset<U64>, id: U64)
    requires Counted(s, owed) && id in owed
    ensures CanRelease(s, id)
    ensures forall tab, i :: tab in s.pending && 0 <= i < |s.pending[tab]| ==>
      var k := s.pending[tab][i].batchId;
      k in s.batches && k in Release(s, id).batches
      && Release(s, id).batches[k].origin == s.batches[k].origin
      && Release(s, id).batches[k].serialized == s.batches[k].serialized
  {
    ReleaseCounted(s, owed, id);
    forall tab, i | tab in s.pending && 0 <= i < |s.pending[tab]|
      ensures var k := s.pending[tab][i].batchId; k in s.batches && k in Release(s, id).batches
    {
      QueuedIsLive(s, owed, tab, i);
      QueuedIsLive(Release(s, id), owed - multiset{id}, tab, i);
    }
  }

  /** Giving back a list of references, front to back. */
  ghost function ReleaseAll(s: State, ids: seq<U64>): State
    requires Counted(s, multiset(ids))
    decreases |ids|
  {
    if ids == [] then s
    else
      ReleaseCounted(s, multiset(ids), ids[0]);
      assert ids == [ids[0]] + ids[1..];
      assert multiset(ids) - multiset{ids[0]} == multiset(ids[1..]);
      ReleaseAll(Release(s, ids[0]), ids[1..])
  }

  lemma {:induction false} ReleaseAllSound(s: State, ids: seq<U64>)
    requires Counted(s, multiset(ids)) && Budgets(s) && Addressed(s)
    ensures Sound(ReleaseAll(s, ids))
    ensures ReleaseAll(s, ids).pending == s.pending && ReleaseAll(s, ids).channels == s.channels
    ensures ReleaseAll(s, ids).nextBatchId == s.nextBatchId
    ensures forall tab, i :: tab in s.pending && 0 <= i < |s.pending[tab]| ==>
      var k := s.pending[tab][i].batchId;
      && k in s.batches && k in ReleaseAll(s, ids).batches
      && ReleaseAll(s, ids).batches[k].origin == s.batches[k].origin
      && ReleaseAll(s, ids).batches[k].serialized == s.batches[k].serialized
    decreases |ids|
  {
    if ids != [] {
      ReleaseCounted(s, multiset(ids), ids[0]);
      ReleaseKeepsQueued(s, multiset(ids), ids[0]);
      assert ids == [ids[0]] + ids[1..];
      assert multiset(ids) - multiset{ids[0]} == multiset(ids[1..]);
      ReleaseAllSound(Release(s, ids[0]), ids[1..]);
    }
  }
}
