/**
  * The simple model: every accepted post writes one private letter per addressee into a log kept
  * per tab. A letter remembers which opening of its channel it was written to. Delivery walks the
  * log and hands over the letters whose channel has stayed open since.
  *
  * The registry stores each payload once and shares it; this module proves that over every run its
  * deliveries are exactly those of the letter log.
  */
module BroadcastLetters {
  import opened Bytes
  import opened Totals
  import opened BroadcastModel
  import opened BroadcastSteps

  datatype Letter = Letter(destination: Destination, opening: nat, origin: Text, serialized: Text)

  datatype Office = Office(
    openings: nat,                    // how many channels were ever opened
    openedAs: map<Destination, nat>,    // which opening each open channel stems from
    log: map<U64, seq<Letter>>,
    cursor: map<U64, nat>)

  function LogOf(o: Office, tab: U64): seq<Letter> {
    if tab in o.log then o.log[tab] else []
  }

  function CursorOf(o: Office, tab: U64): nat {
    if tab in o.cursor then o.cursor[tab] else 0
  }

  predicate StillOpen(o: Office, l: Letter) {
    l.destination in o.openedAs && o.openedAs[l.destination] == l.opening
  }

  function Live(openedAs: map<Destination, nat>): Letter -> bool {
    (l: Letter) => l.destination in openedAs && openedAs[l.destination] == l.opening
  }

  /** The letters of a tab that are still to be handed over. */
  function Waiting(o: Office, tab: U64): seq<Letter> {
    if CursorOf(o, tab) <= |LogOf(o, tab)| then Filter(LogOf(o, tab)[CursorOf(o, tab)..], Live(o.openedAs)) else []
  }

  function Content(l: Letter): BroadcastDelivery {
    BroadcastDelivery(l.destination.document, l.destination.channelId, l.origin, l.serialized)
  }

  // ---------- What each call does to the letter log ----------

  function NoteOpen(o: Office, d: Destination): Office {
    o.(openedAs := o.openedAs[d := o.openings], openings := o.openings + 1)
  }

  /** The letters one post writes to the channels of one tab. */
  function Letters(o: Office, targets: seq<Destination>, tab: U64, origin: Text, serialized: Text): (r: seq<Letter>)
    requires forall i :: 0 <= i < |targets| ==> targets[i] in o.openedAs
  {
    if targets == [] then []
    else
      var last := targets[|targets| - 1];
      Letters(o, targets[..|targets| - 1], tab, origin, serialized)
      + (if last.tab == tab then [Letter(last, o.openedAs[last], origin, serialized)] else [])
  }

  ghost function NotePost(o: Office, targets: seq<Destination>, origin: Text, serialized: Text): Office
    requires forall i :: 0 <= i < |targets| ==> targets[i] in o.openedAs
  {
    var tabs := o.log.Keys + (set i | 0 <= i < |targets| :: targets[i].tab);
    o.(log := map t | t in tabs :: LogOf(o, t) + Letters(o, targets, t, origin, serialized))
  }

  function NoteClose(o: Office, d: Destination): Office {
    o.(openedAs := o.openedAs - {d})
  }

  function NoteRetire(o: Office, tab: U64): Office {
    o.(openedAs := map d | d in o.openedAs && d.tab != tab :: o.openedAs[d])
  }

  /** The position of the first element that satisfies `keep`. */
  function First<T>(s: seq<T>, keep: T -> bool): (i: nat)
    ensures i <= |s|
    ensures i < |s| ==> keep(s[i])
    ensures forall j :: 0 <= j < i ==> !keep(s[j])
  {
    if s == [] || keep(s[0]) then 0 else 1 + First(s[1..], keep)
  }

  /** Where in the log the next letter of a tab stands. */
  function NextLetter(o: Office, tab: U64): nat {
    if CursorOf(o, tab) <= |LogOf(o, tab)|
    then CursorOf(o, tab) + First(LogOf(o, tab)[CursorOf(o, tab)..], Live(o.openedAs))
    else CursorOf(o, tab)
  }

  function NoteTake(o: Office, tab: U64): Office {
    o.(cursor := o.cursor[tab := NextLetter(o, tab) + 1])
  }

  // ---------- The registry agrees with the letter log ----------

  ghost predicate Parallel(s: State, tab: U64, queue: Queue, letters: seq<Letter>) {
    && |queue| == |letters|
    && forall i :: 0 <= i < |queue| ==>
         && queue[i].batchId in s.batches
         && letters[i].destination == Destination(tab, queue[i].document, queue[i].channelId)
         && DeliveryOf(s, queue[i]) == Content(letters[i])
  }

  ghost predicate Listed(channels: seq<Channel>, d: Destination) {
    exists i :: 0 <= i < |channels| && channels[i].destination == d
  }

  ghost predicate TabLedger(o: Office, t: U64) {
    && CursorOf(o, t) <= |LogOf(o, t)|
    && forall i :: 0 <= i < |LogOf(o, t)| ==>
         LogOf(o, t)[i].destination.tab == t && LogOf(o, t)[i].opening < o.openings
  }

  ghost predicate TabLinked(s: State, o: Office, t: U64) {
    Parallel(s, t, QueueOf(s.pending, t), Waiting(o, t))
  }

  ghost predicate Directory(s: State, o: Office) {
    && (forall d :: d in o.openedAs <==> Listed(s.channels, d))
    && (forall d :: d in o.openedAs ==> o.openedAs[d] < o.openings)
  }

  ghost predicate Linked(s: State, o: Office) {
    && Directory(s, o)
    && (forall t: U64 :: TabLedger(o, t))
    && (forall t: U64 :: TabLinked(s, o, t))
  }

  /** Filtering parallel sequences by matching conditions leaves them parallel. */
  lemma {:induction false} FilterParallel(s: State, tab: U64, q: Queue, w: seq<Letter>,
                                         p: QueuedDelivery -> bool, r: Letter -> bool)
    requires Parallel(s, tab, q, w)
    requires forall i :: 0 <= i < |q| ==> p(q[i]) == r(w[i])
    ensures Parallel(s, tab, Filter(q, p), Filter(w, r))
  {
    if q != [] {
      var n := |q| - 1;
      FilterParallel(s, tab, q[..n], w[..n], p, r);
    }
  }

  /** Parallelism only depends on the payloads of the batches the queue names. */
  lemma ParallelSame(s: State, s': State, tab: U64, q: Queue, w: seq<Letter>)
    requires Parallel(s, tab, q, w)
    requires forall i :: 0 <= i < |q| ==>
      q[i].batchId in s'.batches && s'.batches[q[i].batchId].origin == s.batches[q[i].batchId].origin
      && s'.batches[q[i].batchId].serialized == s.batches[q[i].batchId].serialized
    ensures Parallel(s', tab, q, w)
  {
  }

  lemma FilterCons<T>(s: seq<T>, keep: T -> bool)
    requires s != []
    ensures Filter(s, keep) == (if keep(s[0]) then [s[0]] else []) + Filter(s[1..], keep)
  {
    assert s == [s[0]] + s[1..];
    FilterConcat([s[0]], s[1..], keep);
    assert [s[0]][..0] == [];
  }

  /** The first surviving element of a sequence, and what survives after it. */
  lemma {:induction false} FilterFirst<T>(s: seq<T>, keep: T -> bool)
    requires Filter(s, keep) != []
    ensures First(s, keep) < |s|
    ensures Filter(s, keep) == [s[First(s, keep)]] + Filter(s[First(s, keep) + 1..], keep)
    decreases |s|
  {
    FilterCons(s, keep);
    if !keep(s[0]) {
      FilterFirst(s[1..], keep);
      assert s[1..][First(s[1..], keep) + 1..] == s[First(s, keep) + 1..];
    }
  }

  lemma ParallelConcat(s: State, tab: U64, q1: Queue, w1: seq<Letter>, q2: Queue, w2: seq<Letter>)
    requires Parallel(s, tab, q1, w1) && Parallel(s, tab, q2, w2)
    ensures Parallel(s, tab, q1 + q2, w1 + w2)
  {
  }

  // ---------- Opening a channel ----------

  lemma OpenedListed(channels: seq<Channel>, c: Channel, e: Destination)
    ensures Listed(channels + [c], e) <==> Listed(channels, e) || e == c.destination
  {
    var all := channels + [c];
    assert all[|channels|] == c;
    if Listed(channels, e) {
      var i :| 0 <= i < |channels| && channels[i].destination == e;
      assert all[i].destination == e;
    }
  }

  lemma OpenedTab(s: State, o: Office, d: Destination, origin: Text, name: Text, t: U64)
    requires TabLedger(o, t) && TabLinked(s, o, t) && d !in o.openedAs
    ensures TabLedger(NoteOpen(o, d), t) && TabLinked(Opened(s, d, origin, name), NoteOpen(o, d), t)
  {
    hide Filter;
    FilterAgree(LogOf(o, t)[CursorOf(o, t)..], Live(o.openedAs), Live(NoteOpen(o, d).openedAs));
  }

  lemma LinkedOpen(s: State, o: Office, d: Destination, origin: Text, name: Text)
    requires Sound(s) && Linked(s, o) && !Listed(s.channels, d)
    ensures Linked(Opened(s, d, origin, name), NoteOpen(o, d))
  {
    var s', o' := Opened(s, d, origin, name), NoteOpen(o, d);
    hide Sound, Listed, TabLedger, TabLinked;
    forall e ensures Listed(s'.channels, e) <==> Listed(s.channels, e) || e == d {
      OpenedListed(s.channels, Channel(d, origin, name), e);
    }
    forall t: U64 ensures TabLedger(o', t) && TabLinked(s', o', t) {
      assert TabLedger(o, t) && TabLinked(s, o, t);
      OpenedTab(s, o, d, origin, name, t);
    }
  }

  // ---------- Posting ----------

  lemma {:induction false} LettersParallel(s: State, o: Office, targets: seq<Destination>, tab: U64, id: U64,
      origin: Text, serialized: Text)
    requires forall i :: 0 <= i < |targets| ==> targets[i] in o.openedAs
    requires id in s.batches && s.batches[id].origin == origin && s.batches[id].serialized == serialized
    ensures Parallel(s, tab, Entries(targets, tab, id), Letters(o, targets, tab, origin, serialized))
  {
    if targets != [] {
      LettersParallel(s, o, targets[..|targets| - 1], tab, id, origin, serialized);
    }
  }

  ghost predicate AllOpen(o: Office, tab: U64, r: seq<Letter>) {
    forall i :: 0 <= i < |r| ==> r[i].destination.tab == tab && StillOpen(o, r[i])
  }

  lemma {:induction false} LettersLive(o: Office, targets: seq<Destination>, tab: U64, origin: Text, serialized: Text)
    requires forall i :: 0 <= i < |targets| ==> targets[i] in o.openedAs
    ensures AllOpen(o, tab, Letters(o, targets, tab, origin, serialized))
  {
    if targets != [] {
      var n := |targets| - 1;
      assert targets[n] in o.openedAs;
      LettersLive(o, targets[..n], tab, origin, serialized);
    }
  }

  lemma {:induction false} NoLetters(o: Office, targets: seq<Destination>, tab: U64, origin: Text, serialized: Text)
    requires forall i :: 0 <= i < |targets| ==> targets[i] in o.openedAs
    requires forall i :: 0 <= i < |targets| ==> targets[i].tab != tab
    ensures Letters(o, targets, tab, origin, serialized) == []
  {
    if targets != [] {
      NoLetters(o, targets[..|targets| - 1], tab, origin, serialized);
    }
  }

  lemma NotePostLog(o: Office, targets: seq<Destination>, origin: Text, serialized: Text, t: U64)
    requires forall i :: 0 <= i < |targets| ==> targets[i] in o.openedAs
    ensures LogOf(NotePost(o, targets, origin, serialized), t) ==
      LogOf(o, t) + Letters(o, targets, t, origin, serialized)
  {
    if t !in NotePost(o, targets, origin, serialized).log {
      forall i | 0 <= i < |targets| ensures targets[i].tab != t {
        assert targets[i].tab in (set i | 0 <= i < |targets| :: targets[i].tab);
      }
      NoLetters(o, targets, t, origin, serialized);
    }
  }

  lemma WaitingGrows(log: seq<Letter>, c: nat, written: seq<Letter>, live: Letter -> bool)
    requires c <= |log| && forall i :: 0 <= i < |written| ==> live(written[i])
    ensures Filter((log + written)[c..], live) == Filter(log[c..], live) + written
  {
    assert (log + written)[c..] == log[c..] + written;
    FilterConcat(log[c..], written, live);
    FilterAll(written, live);
  }

  lemma NotePostKeeps(o: Office, targets: seq<Destination>, origin: Text, serialized: Text, t: U64)
    requires forall i :: 0 <= i < |targets| ==> targets[i] in o.openedAs
    ensures var o' := NotePost(o, targets, origin, serialized);
      o'.openedAs == o.openedAs && o'.openings == o.openings && CursorOf(o', t) == CursorOf(o, t)
  {
  }

  /** The letters a post writes to one tab queue up behind those already waiting there. */
  lemma NotePostWaiting(s: State, o: Office, targets: seq<Destination>, origin: Text, serialized: Text, t: U64)
    requires Directory(s, o) && TabLedger(o, t)
    requires forall i :: 0 <= i < |targets| ==> targets[i] in o.openedAs
    ensures TabLedger(NotePost(o, targets, origin, serialized), t)
    ensures Waiting(NotePost(o, targets, origin, serialized), t) ==
      Waiting(o, t) + Letters(o, targets, t, origin, serialized)
  {
    hide NotePost, Letters, Filter, LogOf, CursorOf, Listed;
    NotePostKeeps(o, targets, origin, serialized, t);
    NotePostLog(o, targets, origin, serialized, t);
    LettersLive(o, targets, t, origin, serialized);
    WaitingGrows(LogOf(o, t), CursorOf(o, t), Letters(o, targets, t, origin, serialized), Live(o.openedAs));
  }

  lemma PostedTab(s: State, o: Office, targets: seq<Destination>, origin: Text, serialized: Text, t: U64)
    requires Sound(s) && s.nextBatchId < U64_BOUND - 1
    requires Directory(s, o) && TabLedger(o, t) && TabLinked(s, o, t)
    requires forall i :: 0 <= i < |targets| ==> targets[i] in o.openedAs
    ensures TabLinked(Posted(s, targets, origin, serialized), NotePost(o, targets, origin, serialized), t)
  {
    var s' := Posted(s, targets, origin, serialized);
    NotePostWaiting(s, o, targets, origin, serialized, t);
    LettersParallel(s', o, targets, t, s'.nextBatchId, origin, serialized);
    EnqueueQueue(s.pending, targets, s'.nextBatchId, t);
    PostedKept(s, targets, origin, serialized, t, Waiting(o, t));
    ParallelConcat(s', t, QueueOf(s.pending, t), Waiting(o, t),
                   Entries(targets, t, s'.nextBatchId), Letters(o, targets, t, origin, serialized));
  }

  lemma PostedKept(s: State, targets: seq<Destination>, origin: Text, serialized: Text, t: U64, w: seq<Letter>)
    requires Sound(s) && s.nextBatchId < U64_BOUND - 1
    requires Parallel(s, t, QueueOf(s.pending, t), w)
    ensures Parallel(Posted(s, targets, origin, serialized), t, QueueOf(s.pending, t), w)
  {
    QueueBatchesKept(s, Posted(s, targets, origin, serialized), t);
    ParallelSame(s, Posted(s, targets, origin, serialized), t, QueueOf(s.pending, t), w);
  }

  lemma LinkedPost(s: State, o: Office, targets: seq<Destination>, origin: Text, serialized: Text)
    requires Sound(s) && Linked(s, o) && s.nextBatchId < U64_BOUND - 1
    requires forall i :: 0 <= i < |targets| ==> targets[i] in o.openedAs
    ensures Linked(Posted(s, targets, origin, serialized), NotePost(o, targets, origin, serialized))
  {
    var s', o' := Posted(s, targets, origin, serialized), NotePost(o, targets, origin, serialized);
    forall t: U64 ensures TabLedger(o', t) && TabLinked(s', o', t) {
      NotePostWaiting(s, o, targets, origin, serialized, t);
      PostedTab(s, o, targets, origin, serialized, t);
    }
  }

  lemma QueueBatchesKept(s: State, s': State, t: U64)
    requires Sound(s)
    requires forall id :: id in s.batches && id <= s.nextBatchId ==> id in s'.batches && s'.batches[id] == s.batches[id]
    ensures forall i :: 0 <= i < |QueueOf(s.pending, t)| ==>
      var id := QueueOf(s.pending, t)[i].batchId;
      id in s.batches && id in s'.batches && s'.batches[id] == s.batches[id]
  {
  }

  // ---------- Closing a channel ----------

  lemma ClosedDirectory(s: State, o: Office, d: Destination, position: nat)
    requires Sound(s) && Directory(s, o) && position < |s.channels| && s.channels[position].destination == d
    ensures Directory(Unlisted(s, d, position), NoteClose(o, d))
  {
    var s', o' := Unlisted(s, d, position), NoteClose(o, d);
    forall e ensures e in o'.openedAs <==> Listed(s'.channels, e) {
      if e != d && Listed(s.channels, e) {
        var i :| 0 <= i < |s.channels| && s.channels[i].destination == e;
        assert s'.channels[if i < position then i else i - 1].destination == e;
      }
      if Listed(s'.channels, e) {
        var i :| 0 <= i < |s'.channels| && s'.channels[i].destination == e;
        assert s.channels[if i < position then i else i + 1].destination == e;
      }
    }
  }

  function Elsewhere(t: U64, d: Destination): QueuedDelivery -> bool {
    (e: QueuedDelivery) => Destination(t, e.document, e.channelId) != d
  }

  /** Closing a channel filters every queue by destination, though only one queue is touched. */
  lemma ClosedQueue(s: State, d: Destination, position: nat, t: U64)
    requires position < |s.channels|
    ensures QueueOf(Unlisted(s, d, position).pending, t) == Filter(QueueOf(s.pending, t), Elsewhere(t, d))
  {
    var q := QueueOf(s.pending, t);
    if t == d.tab {
      FilterAgree(q, Elsewhere(t, d), (e: QueuedDelivery) => !Names(e, d.document, d.channelId));
    } else {
      FilterAll(q, Elsewhere(t, d));
    }
  }

  lemma ClosedTab(s: State, o: Office, d: Destination, position: nat, t: U64)
    requires TabLedger(o, t) && TabLinked(s, o, t) && position < |s.channels|
    ensures Parallel(s, t, QueueOf(Unlisted(s, d, position).pending, t), Waiting(NoteClose(o, d), t))
  {
    var elsewhere := (l: Letter) => l.destination != d;
    FilterTwice(LogOf(o, t)[CursorOf(o, t)..], Live(o.openedAs), elsewhere, Live(o.openedAs - {d}));
    FilterParallel(s, t, QueueOf(s.pending, t), Waiting(o, t), Elsewhere(t, d), elsewhere);
    ClosedQueue(s, d, position, t);
  }

  lemma LinkedClose(s: State, o: Office, d: Destination, position: nat)
    requires Sound(s) && Linked(s, o) && position < |s.channels| && s.channels[position].destination == d
    ensures Linked(Closed(s, d, position), NoteClose(o, d))
  {
    var s', o' := Closed(s, d, position), NoteClose(o, d);
    UnlistedCounted(s, d, position);
    ReleaseAllSound(Unlisted(s, d, position), Dropped(s, d));
    ClosedDirectory(s, o, d, position);
    forall t: U64 ensures TabLedger(o', t) && TabLinked(s', o', t) {
      assert TabLedger(o, t) && TabLinked(s, o, t);
      ClosedTab(s, o, d, position, t);
      ParallelSame(s, s', t, QueueOf(s'.pending, t), Waiting(o', t));
    }
  }

  // ---------- Retiring a tab ----------

  lemma RetiredDirectory(s: State, o: Office, tab: U64)
    requires Directory(s, o)
    ensures Directory(Abandoned(s, tab), NoteRetire(o, tab))
  {
    var s', o' := Abandoned(s, tab), NoteRetire(o, tab);
    var stays := (c: Channel) => c.destination.tab != tab;
    forall e ensures e in o'.openedAs <==> Listed(s'.channels, e) {
      if e.tab != tab && Listed(s.channels, e) {
        var i :| 0 <= i < |s.channels| && s.channels[i].destination == e;
        FilterIn(s.channels, stays, s.channels[i]);
        var j :| 0 <= j < |s'.channels| && s'.channels[j] == s.channels[i];
      }
      if Listed(s'.channels, e) {
        var i :| 0 <= i < |s'.channels| && s'.channels[i].destination == e;
        FilterIn(s.channels, stays, s'.channels[i]);
        var j :| 0 <= j < |s.channels| && s.channels[j] == s'.channels[i];
      }
    }
  }

  lemma RetiredTab(s: State, o: Office, tab: U64, t: U64)
    requires TabLedger(o, t) && TabLinked(s, o, t)
    ensures Parallel(s, t, QueueOf(Abandoned(s, tab).pending, t), Waiting(NoteRetire(o, tab), t))
  {
    var o' := NoteRetire(o, tab);
    var suffix := LogOf(o, t)[CursorOf(o, t)..];
    if t == tab {
      FilterNone(suffix, Live(o'.openedAs));
    } else {
      FilterAgree(suffix, Live(o.openedAs), Live(o'.openedAs));
    }
  }

  lemma LinkedRetire(s: State, o: Office, tab: U64)
    requires Sound(s) && Linked(s, o)
    ensures Linked(Retired(s, tab), NoteRetire(o, tab))
  {
    var s', o' := Retired(s, tab), NoteRetire(o, tab);
    AbandonedCounted(s, tab);
    ReleaseAllSound(Abandoned(s, tab), Ids(QueueOf(s.pending, tab)));
    RetiredDirectory(s, o, tab);
    forall t: U64 ensures TabLedger(o', t) && TabLinked(s', o', t) {
      assert TabLedger(o, t) && TabLinked(s, o, t);
      RetiredTab(s, o, tab, t);
      ParallelSame(s, s', t, QueueOf(s'.pending, t), Waiting(o', t));
    }
  }

  // ---------- Taking a delivery ----------

  /** The letters the cursor skips belong to channels that are closed. */
  lemma SkippedClosed(o: Office, tab: U64, i: nat)
    requires TabLedger(o, tab) && CursorOf(o, tab) <= i < NextLetter(o, tab)
    ensures i < |LogOf(o, tab)| && !StillOpen(o, LogOf(o, tab)[i])
  {
    var suffix := LogOf(o, tab)[CursorOf(o, tab)..];
    assert !Live(o.openedAs)(suffix[i - CursorOf(o, tab)]);
  }

  /** The front of a tab's queue is its first letter still open; taking it moves the cursor past it. */
  lemma TakenTab(o: Office, tab: U64)
    requires TabLedger(o, tab) && Waiting(o, tab) != []
    ensures NextLetter(o, tab) < |LogOf(o, tab)| && StillOpen(o, LogOf(o, tab)[NextLetter(o, tab)])
    ensures TabLedger(NoteTake(o, tab), tab)
    ensures Waiting(o, tab) == [LogOf(o, tab)[NextLetter(o, tab)]] + Waiting(NoteTake(o, tab), tab)
  {
    var suffix := LogOf(o, tab)[CursorOf(o, tab)..];
    FilterFirst(suffix, Live(o.openedAs));
    assert LogOf(o, tab)[CursorOf(NoteTake(o, tab), tab)..] == suffix[First(suffix, Live(o.openedAs)) + 1..];
  }

  lemma TakenPayloads(s: State, tab: U64, t: U64, w: seq<Letter>)
    requires Sound(s) && QueueOf(s.pending, tab) != []
    requires Parallel(s, t, QueueOf(Popped(s, tab).pending, t), w)
    ensures Parallel(Taken(s, tab), t, QueueOf(Taken(s, tab).pending, t), w)
  {
    PoppedCounted(s, tab);
    var id := s.pending[tab][0].batchId;
    ReleaseKeepsQueued(Popped(s, tab), multiset{id}, id);
    ParallelSame(s, Taken(s, tab), t, QueueOf(Popped(s, tab).pending, t), w);
  }

  lemma OtherTabTake(o: Office, tab: U64, t: U64)
    requires t != tab && TabLedger(o, t)
    ensures TabLedger(NoteTake(o, tab), t) && Waiting(NoteTake(o, tab), t) == Waiting(o, t)
  {
    hide Filter, NextLetter;
  }

  lemma PoppedQueue(s: State, tab: U64, t: U64)
    requires QueueOf(s.pending, tab) != []
    ensures QueueOf(Popped(s, tab).pending, t) == if t == tab then QueueOf(s.pending, t)[1..] else QueueOf(s.pending, t)
  {
  }

  lemma ParallelTail(s: State, t: U64, q: Queue, x: Letter, w: seq<Letter>)
    requires Parallel(s, t, q, [x] + w)
    ensures q != [] && Parallel(s, t, q[1..], w)
  {
    var all := [x] + w;
    assert forall i :: 0 <= i < |w| ==> all[i + 1] == w[i];
  }

  /** Taking from one tab moves its queue and its letters on by one and no other tab's. */
  lemma PoppedTab(s: State, o: Office, tab: U64, t: U64)
    requires QueueOf(s.pending, tab) != []
    requires TabLedger(o, t) && TabLinked(s, o, t)
    ensures TabLedger(NoteTake(o, tab), t)
    ensures Parallel(s, t, QueueOf(Popped(s, tab).pending, t), Waiting(NoteTake(o, tab), t))
  {
    PoppedQueue(s, tab, t);
    if t == tab {
      assert Waiting(o, tab) != [];
      hide Parallel, Waiting, NoteTake, TabLedger, QueueOf, Popped, StillOpen, NextLetter, LogOf;
      TakenTab(o, tab);
      ParallelTail(s, t, QueueOf(s.pending, t), LogOf(o, tab)[NextLetter(o, tab)], Waiting(NoteTake(o, tab), tab));
    } else {
      OtherTabTake(o, tab, t);
    }
  }

  lemma LinkedTake(s: State, o: Office, tab: U64)
    requires Sound(s) && Linked(s, o) && QueueOf(s.pending, tab) != []
    ensures s.pending[tab][0].batchId in s.batches
    ensures NextLetter(o, tab) < |LogOf(o, tab)|
    ensures DeliveryOf(s, s.pending[tab][0]) == Content(LogOf(o, tab)[NextLetter(o, tab)])
    ensures Linked(Taken(s, tab), NoteTake(o, tab))
  {
    assert TabLedger(o, tab) && TabLinked(s, o, tab);
    TakenTab(o, tab);
    forall t: U64 ensures TabLedger(NoteTake(o, tab), t) && TabLinked(Taken(s, tab), NoteTake(o, tab), t) {
      PoppedTab(s, o, tab, t);
      TakenPayloads(s, tab, t, Waiting(NoteTake(o, tab), t));
    }
    assert Taken(s, tab).channels == s.channels;
  }
}
