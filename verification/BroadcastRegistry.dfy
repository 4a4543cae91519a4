/** The registry as the browser holds it: an object whose calls update its fields in place. */
module BroadcastRegistry {
  import opened Bytes
  import opened Outcome
  import opened Totals
  import opened BroadcastModel
  import S = BroadcastSteps

  class Registry {
    var channels: seq<Channel>
    var pending: map<U64, Queue>
    var batches: map<U64, Batch>
    var nextBatchId: U64
    var pendingBytes: nat
    var pendingRecipients: nat

    ghost function Contents(): State
      reads this
    {
      State(channels, pending, batches, nextBatchId, pendingBytes, pendingRecipients)
    }

    constructor ()
      ensures Contents() == Empty && Sound(Contents())
    {
      channels, pending, batches, nextBatchId, pendingBytes, pendingRecipients := [], map[], map[], 0, 0, 0;
      new;
      S.EmptySound();
    }

    method ReleaseBatchReference(batchId: U64, ghost owed: multiset<U64>)
      requires Counted(Contents(), owed) && batchId in owed
      modifies this
      ensures CanRelease(old(Contents()), batchId)
      ensures Contents() == Release(old(Contents()), batchId)
    {
      hide Counted, Budgets;
      ReleaseCounted(Contents(), owed, batchId);
      pendingRecipients := pendingRecipients - 1;
      var batch := batches[batchId];
      batch := batch.(recipients := batch.recipients - 1);
      batches := batches[batchId := batch];
      if batch.recipients == 0 {
        batches := batches - {batchId};
        pendingBytes := pendingBytes - (|batch.origin| + |batch.serialized|);
      }
    }

    /** Gives back a list of references, one call each. */
    method ReleaseReferences(ids: seq<U64>)
      requires Counted(Contents(), multiset(ids))
      modifies this
      ensures Contents() == ReleaseAll(old(Contents()), ids)
    {
      var rest := ids;
      while rest != []
        invariant Counted(Contents(), multiset(rest))
        invariant ReleaseAll(Contents(), rest) == ReleaseAll(old(Contents()), ids)
        decreases |rest|
      {
        assert rest == [rest[0]] + rest[1..];
        assert multiset(rest) - multiset{rest[0]} == multiset(rest[1..]);
        ReleaseCounted(Contents(), multiset(rest), rest[0]);
        ReleaseBatchReference(rest[0], multiset(rest));
        rest := rest[1..];
      }
    }

    method Apply(tab: U64, origin: Text, command: Command) returns (r: Result<bool, Error>)
      requires Sound(Contents())
      modifies this
      ensures Sound(Contents())
      ensures (Contents(), r) == S.Apply(old(Contents()), tab, origin, command)
    {
      S.ApplySound(Contents(), tab, origin, command);
      if !ValidCommand(command) {
        return Err(InvalidCommand);
      }
      var source := Destination(tab, command.document, command.channelId);
      var position := Position(channels, source);
      match command.operation {
        case Open(name) =>
          if position.Some? {
            return Err(DuplicateIdentifier);
          }
          if Membership(channels, tab, command.document) >= MAX_CHANNELS_PER_DOCUMENT {
            return Err(MembershipLimit);
          }
          channels := channels + [Channel(source, origin, name)];
          return Ok(true);
        case Post(serialized) =>
          if position.None? {
            return Err(UnknownIdentifier);
          }
          var sourceChannel := channels[position.value];
          if sourceChannel.origin != origin {
            return Err(OriginChanged);
          }
          r := PostTo(Targets(channels, source, origin, sourceChannel.name), origin, serialized);
        case Close =>
          if position.Some? {
            S.ClosedSound(Contents(), source, position.value);
            S.UnlistedCounted(Contents(), source, position.value);
            Close(source, position.value);
          }
          return Ok(true);
      }
    }

    /** The part of a post after its targets are known. */
    method PostTo(targets: seq<Destination>, origin: Text, serialized: Text) returns (r: Result<bool, Error>)
      modifies this
      ensures (Contents(), r) == S.PostTo(old(Contents()), targets, origin, serialized)
    {
      if targets == [] {
        return Ok(true);
      }
      if |targets| > MAX_PENDING_RECIPIENTS_PER_BROWSER {
        return Err(FanoutLimit);
      }
      var fits := TabsHaveRoom(targets);
      if !fits {
        return Ok(false);
      }
      var bytes := |serialized| + |origin|;
      if pendingRecipients + |targets| > MAX_PENDING_RECIPIENTS_PER_BROWSER
      || pendingBytes + bytes > MAX_PENDING_BYTES_PER_BROWSER {
        return Ok(false);
      }
      if nextBatchId == U64_BOUND - 1 {
        return Err(BatchIdentifierExhausted);
      }
      var batchId := nextBatchId + 1;
      nextBatchId := batchId;
      batches := batches[batchId := Batch(origin, serialized, |targets|)];
      pendingBytes := pendingBytes + bytes;
      pendingRecipients := pendingRecipients + |targets|;
      for i := 0 to |targets|
        invariant pending == Enqueue(old(pending), targets[..i], batchId)
        invariant channels == old(channels) && batches == old(batches)[batchId := Batch(origin, serialized, |targets|)]
        invariant nextBatchId == batchId && pendingBytes == old(pendingBytes) + bytes
        invariant pendingRecipients == old(pendingRecipients) + |targets|
      {
        assert targets[..i + 1][..i] == targets[..i];
        var queue := QueueOf(pending, targets[i].tab);
        pending := pending[targets[i].tab :=
          queue + [QueuedDelivery(targets[i].document, targets[i].channelId, batchId)]];
      }
      assert targets[..|targets|] == targets;
      return Ok(true);
    }

    /** Tallies the targets by tab, then checks each tally in no particular order. */
    method TabsHaveRoom(targets: seq<Destination>) returns (fits: bool)
      ensures fits <==> FitsTabs(pending, targets)
    {
      var perTab: map<U64, nat> := map[];
      for i := 0 to |targets|
        invariant forall t: U64 :: (if t in perTab then perTab[t] else 0) == InTab(targets[..i], t)
        invariant forall j :: 0 <= j < i ==> targets[j].tab in perTab
        invariant forall t :: t in perTab ==> exists j :: 0 <= j < i && targets[j].tab == t
      {
        assert targets[..i + 1][..i] == targets[..i];
        var tab := targets[i].tab;
        perTab := perTab[tab := (if tab in perTab then perTab[tab] else 0) + 1];
      }
      assert targets[..|targets|] == targets;
      var unchecked := perTab.Keys;
      while unchecked != {}
        invariant unchecked <= perTab.Keys
        invariant forall t :: t in perTab && t !in unchecked ==>
          |QueueOf(pending, t)| + perTab[t] <= MAX_PENDING_PER_TAB
        decreases |unchecked|
      {
        var tab :| tab in unchecked;
        unchecked := unchecked - {tab};
        if |QueueOf(pending, tab)| + perTab[tab] > MAX_PENDING_PER_TAB {
          return false;
        }
      }
      return true;
    }

    method Close(source: Destination, position: nat)
      requires Sound(Contents()) && position < |channels| && channels[position].destination == source
      modifies this
      ensures Contents() == S.Closed(old(Contents()), source, position)
    {
      S.UnlistedCounted(Contents(), source, position);
      var removedBatches: seq<U64> := [];
      channels := RemoveAt(channels, position);
      if source.tab in pending {
        var kept;
        kept, removedBatches := Retain(pending[source.tab], source.document, source.channelId);
        pending := pending[source.tab := kept];
      } else {
        assert S.Removed([], source.document, source.channelId) == [];
      }
      ReleaseReferences(removedBatches);
    }

    /** Splits a queue into what stays and the batches of what a closed channel leaves behind. */
    static method Retain(queue: Queue, document: U64, channelId: U64) returns (kept: Queue, removedBatches: seq<U64>)
      ensures kept == S.Kept(queue, document, channelId)
      ensures removedBatches == Ids(S.Removed(queue, document, channelId))
    {
      kept, removedBatches := [], [];
      for i := 0 to |queue|
        invariant kept == S.Kept(queue[..i], document, channelId)
        invariant removedBatches == Ids(S.Removed(queue[..i], document, channelId))
      {
        assert queue[..i + 1][..i] == queue[..i];
        ghost var gone := S.Removed(queue[..i], document, channelId);
        if Names(queue[i], document, channelId) {
          assert Ids(gone + [queue[i]]) == Ids(gone) + [queue[i].batchId];
          removedBatches := removedBatches + [queue[i].batchId];
        } else {
          kept := kept + [queue[i]];
        }
      }
      assert queue[..|queue|] == queue;
    }

    method RetireTab(tab: U64)
      requires Sound(Contents())
      modifies this
      ensures Sound(Contents())
      ensures Contents() == S.Retired(old(Contents()), tab)
    {
      S.AbandonedCounted(Contents(), tab);
      S.RetiredSound(Contents(), tab);
      channels := S.Survivors(channels, tab);
      var queue := QueueOf(pending, tab);
      pending := pending - {tab};
      var ids := seq(|queue|, i requires 0 <= i < |queue| => queue[i].batchId);
      assert ids == Ids(queue);
      ReleaseReferences(ids);
    }

    function HasPending(tab: U64): (r: bool)
      reads this
      ensures r <==> tab in pending && pending[tab] != []
    {
      QueueOf(pending, tab) != []
    }

    /** Offers the oldest delivery of a tab; it leaves the queue only if it is accepted. */
    method TakeIf(tab: U64, accepts: BroadcastDelivery -> bool)
        returns (taken: bool, ghost delivery: Option<BroadcastDelivery>)
      requires Sound(Contents())
      modifies this
      ensures Sound(Contents())
      ensures (Contents(), delivery) == S.TakeIf(old(Contents()), tab, accepts)
      ensures taken == delivery.Some?
      ensures QueueOf(old(pending), tab) == [] ==> !taken
      ensures QueueOf(old(pending), tab) != [] ==>
        var front := old(pending)[tab][0];
        && front.batchId in old(batches)
        && var batch := old(batches)[front.batchId];
          taken == accepts(BroadcastDelivery(front.document, front.channelId, batch.origin, batch.serialized))
      ensures !taken ==> Contents() == old(Contents())
      ensures taken ==> pending == old(pending)[tab := old(pending)[tab][1..]] && channels == old(channels)
    {
      if QueueOf(pending, tab) == [] {
        return false, None;
      }
      var front := pending[tab][0];
      S.PoppedCounted(Contents(), tab);
      S.TakenSound(Contents(), tab);
      var batch := batches[front.batchId];
      var offer := BroadcastDelivery(front.document, front.channelId, batch.origin, batch.serialized);
      if !accepts(offer) {
        return false, None;
      }
      pending := pending[tab := pending[tab][1..]];
      ReleaseBatchReference(front.batchId, multiset{front.batchId});
      return true, Some(offer);
    }
  }
}
