/** Whole runs of the registry beside the letter log it is meant to act like. */
module BroadcastRuns {
  import opened Bytes
  import opened Outcome
  import opened Totals
  import opened BroadcastModel
  import opened BroadcastSteps
  import opened BroadcastLetters
  import BroadcastCalls

  datatype Call =
    | CallApply(tab: U64, origin: Text, command: Command)
    | CallRetire(tab: U64)
    | CallTake(tab: U64, accepts: BroadcastDelivery -> bool)

  datatype World = World(
    registry: State,
    office: Office,
    delivered: map<U64, seq<BroadcastDelivery>>,   // what the registry handed to each tab
    handed: map<U64, seq<nat>>)                    // which letters of the log those were

  function DeliveredTo(w: World, tab: U64): seq<BroadcastDelivery> {
    if tab in w.delivered then w.delivered[tab] else []
  }

  function HandedTo(w: World, tab: U64): seq<nat> {
    if tab in w.handed then w.handed[tab] else []
  }

  const Start := World(Empty, Office(0, map[], map[], map[]), map[], map[])

  /**
    * The deliveries to a tab are letters of its log, each once and in log order, and a letter the
    * cursor has passed was either handed over or belongs to a channel that is no longer open.
    */
  ghost predicate Accounted(w: World, tab: U64) {
    var log, c, handed, delivered :=
      LogOf(w.office, tab), CursorOf(w.office, tab), HandedTo(w, tab), DeliveredTo(w, tab);
    && c <= |log|
    && |delivered| == |handed|
    && (forall k :: 0 <= k < |handed| ==> handed[k] < c && delivered[k] == Content(log[handed[k]]))
    && (forall j, k :: 0 <= j < k < |handed| ==> handed[j] < handed[k])
    && (forall i :: 0 <= i < c ==> i in handed || !StillOpen(w.office, log[i]))
  }

  ghost predicate Good(w: World) {
    && Sound(w.registry)
    && Linked(w.registry, w.office)
    && forall tab: U64 :: Accounted(w, tab)
  }

  /** What one command writes into the letter log. */
  ghost function Note(s: State, o: Office, tab: U64, origin: Text, c: Command, r: Result<bool, Error>): Office
    requires Sound(s) && Linked(s, o)
  {
    var source := Destination(tab, c.document, c.channelId);
    var position := Position(s.channels, source);
    if r != Ok(true) then o
    else
      match c.operation
      case Open(_) => NoteOpen(o, source)
      case Post(serialized) =>
        if position.None? then o
        else
          var name := s.channels[position.value].name;
          TargetsOpen(s, o, source, origin, name);
          NotePost(o, Targets(s.channels, source, origin, name), origin, serialized)
      case Close => NoteClose(o, source)
  }

  ghost function Step(w: World, call: Call): World
    requires Good(w)
  {
    match call
    case CallApply(tab, origin, command) =>
      var (registry, r) := Apply(w.registry, tab, origin, command);
      w.(registry := registry, office := Note(w.registry, w.office, tab, origin, command, r))
    case CallRetire(tab) =>
      w.(registry := Retired(w.registry, tab), office := NoteRetire(w.office, tab))
    case CallTake(tab, accepts) =>
      var (registry, delivery) := TakeIf(w.registry, tab, accepts);
      if delivery.None? then w.(registry := registry)
      else
        World(registry, NoteTake(w.office, tab),
              w.delivered[tab := DeliveredTo(w, tab) + [delivery.value]],
              w.handed[tab := HandedTo(w, tab) + [NextLetter(w.office, tab)]])
  }

  ghost function Run(calls: seq<Call>): World
  {
    if calls == [] then Start
    else
      var w := Run(calls[..|calls| - 1]);
      if Good(w) then Step(w, calls[|calls| - 1]) else w
  }

  lemma TargetsOpen(s: State, o: Office, source: Destination, origin: Text, name: Text)
    requires Directory(s, o)
    ensures forall i :: 0 <= i < |Targets(s.channels, source, origin, name)| ==>
      Targets(s.channels, source, origin, name)[i] in o.openedAs
  {
    var r := Targets(s.channels, source, origin, name);
    forall i | 0 <= i < |r| ensures r[i] in o.openedAs {
      TargetsExact(s.channels, source, origin, name, r[i]);
      assert Listed(s.channels, r[i]);
    }
  }

  /** A letter whose channel was closed stays undeliverable: later openings get new numbers. */
  lemma AccountedLater(w: World, w': World, tab: U64)
    requires Accounted(w, tab) && TabLedger(w.office, tab)
    requires DeliveredTo(w', tab) == DeliveredTo(w, tab) && HandedTo(w', tab) == HandedTo(w, tab)
    requires CursorOf(w'.office, tab) == CursorOf(w.office, tab)
    requires LogOf(w.office, tab) <= LogOf(w'.office, tab)
    requires forall d :: d in w'.office.openedAs ==>
      (d in w.office.openedAs && w'.office.openedAs[d] == w.office.openedAs[d])
        || w'.office.openedAs[d] >= w.office.openings
    ensures Accounted(w', tab)
  {
  }

  lemma ApplyLinked(s: State, o: Office, tab: U64, origin: Text, c: Command)
    requires Sound(s) && Linked(s, o)
    ensures Linked(Apply(s, tab, origin, c).0, Note(s, o, tab, origin, c, Apply(s, tab, origin, c).1))
  {
    var source := Destination(tab, c.document, c.channelId);
    var position := Position(s.channels, source);
    var (s', r) := Apply(s, tab, origin, c);
    ApplySound(s, tab, origin, c);
    if r == Ok(true) {
      match c.operation
      case Open(name) => LinkedOpen(s, o, source, origin, name);
      case Post(serialized) =>
        var targets := Targets(s.channels, source, origin, s.channels[position.value].name);
        TargetsOpen(s, o, source, origin, s.channels[position.value].name);
        if targets == [] {
          NoTargetsNoLetters(s, o, origin, serialized);
        } else {
          LinkedPost(s, o, targets, origin, serialized);
        }
      case Close =>
        if position.Some? {
          LinkedClose(s, o, source, position.value);
        } else {
          assert source !in o.openedAs;
          assert o.openedAs - {source} == o.openedAs;
        }
    }
  }

  lemma NoTargetsNoLetters(s: State, o: Office, origin: Text, serialized: Text)
    requires Linked(s, o)
    ensures Linked(s, NotePost(o, [], origin, serialized))
  {
    var o' := NotePost(o, [], origin, serialized);
    forall t: U64 ensures LogOf(o', t) == LogOf(o, t) && TabLedger(o', t) && TabLinked(s, o', t) {
      NotePostLog(o, [], origin, serialized, t);
      assert TabLedger(o, t) && TabLinked(s, o, t);
    }
  }

  lemma ApplyAccounted(w: World, tab: U64, origin: Text, command: Command, t: U64)
    requires Good(w)
    ensures Accounted(Step(w, CallApply(tab, origin, command)), t)
  {
    var s := w.registry;
    var (_, r) := Apply(s, tab, origin, command);
    var source := Destination(tab, command.document, command.channelId);
    var position := Position(s.channels, source);
    assert Accounted(w, t) && TabLedger(w.office, t);
    if r == Ok(true) && command.operation.Post? && position.Some? {
      var name := s.channels[position.value].name;
      TargetsOpen(s, w.office, source, origin, name);
      NotePostLog(w.office, Targets(s.channels, source, origin, name), origin, command.operation.serialized, t);
    }
    AccountedLater(w, Step(w, CallApply(tab, origin, command)), t);
  }

  /** Handing over the next letter keeps the books of its tab. */
  lemma HandOver(w: World, w': World, tab: U64)
    requires Accounted(w, tab) && TabLedger(w.office, tab) && NextLetter(w.office, tab) < |LogOf(w.office, tab)|
    requires w'.office == NoteTake(w.office, tab)
    requires HandedTo(w', tab) == HandedTo(w, tab) + [NextLetter(w.office, tab)]
    requires DeliveredTo(w', tab) == DeliveredTo(w, tab) + [Content(LogOf(w.office, tab)[NextLetter(w.office, tab)])]
    ensures Accounted(w', tab)
  {
    var log, c, n := LogOf(w.office, tab), CursorOf(w.office, tab), NextLetter(w.office, tab);
    var handed, handed' := HandedTo(w, tab), HandedTo(w', tab);
    forall i | 0 <= i < n + 1 ensures i in handed' || !StillOpen(w'.office, log[i]) {
      if i == n {
        assert handed'[|handed|] == n;
      } else if i < c {
        assert i in handed || !StillOpen(w.office, log[i]);
      } else {
        SkippedClosed(w.office, tab, i);
      }
    }
  }

  /** A successful take hands over the next letter with its own content. */
  lemma TakeContent(w: World, tab: U64, accepts: BroadcastDelivery -> bool)
    requires Good(w) && TakeIf(w.registry, tab, accepts).1.Some?
    ensures NextLetter(w.office, tab) < |LogOf(w.office, tab)|
    ensures TakeIf(w.registry, tab, accepts).1 == Some(Content(LogOf(w.office, tab)[NextLetter(w.office, tab)]))
  {
    hide Sound, Linked, Accounted, NextLetter, Content, DeliveryOf, Taken;
    LinkedTake(w.registry, w.office, tab);
  }

  lemma TakeOwn(w: World, tab: U64, accepts: BroadcastDelivery -> bool)
    requires Good(w) && TakeIf(w.registry, tab, accepts).1.Some?
    ensures Accounted(Step(w, CallTake(tab, accepts)), tab)
  {
    assert Accounted(w, tab) && TabLedger(w.office, tab);
    hide Good, Accounted, TabLedger, NextLetter, NoteTake, TakeIf;
    TakeContent(w, tab, accepts);
    HandOver(w, Step(w, CallTake(tab, accepts)), tab);
  }

  lemma TakeOther(w: World, tab: U64, accepts: BroadcastDelivery -> bool, t: U64)
    requires Good(w) && t != tab
    ensures Accounted(Step(w, CallTake(tab, accepts)), t)
  {
    assert Accounted(w, t) && TabLedger(w.office, t);
    hide Good, Accounted, TabLedger, NextLetter, TakeIf;
    AccountedLater(w, Step(w, CallTake(tab, accepts)), t);
  }

  lemma TakeAccounted(w: World, tab: U64, accepts: BroadcastDelivery -> bool, t: U64)
    requires Good(w)
    ensures Accounted(Step(w, CallTake(tab, accepts)), t)
  {
    assert Accounted(w, t);
    hide Good, Accounted, TakeIf, NoteTake;
    if t != tab {
      TakeOther(w, tab, accepts, t);
    } else if TakeIf(w.registry, tab, accepts).1.Some? {
      TakeOwn(w, tab, accepts);
    } else {
      SameAccounted(w, Step(w, CallTake(tab, accepts)), t);
    }
  }

  lemma SameAccounted(w: World, w': World, tab: U64)
    requires Accounted(w, tab) && w'.office == w.office && w'.delivered == w.delivered && w'.handed == w.handed
    ensures Accounted(w', tab)
  {
  }

  lemma ApplyGood(w: World, tab: U64, origin: Text, command: Command)
    requires Good(w)
    ensures Good(Step(w, CallApply(tab, origin, command)))
  {
    hide Sound, Linked, Accounted, Apply, Note;
    ApplySound(w.registry, tab, origin, command);
    ApplyLinked(w.registry, w.office, tab, origin, command);
    forall t: U64 ensures Accounted(Step(w, CallApply(tab, origin, command)), t) {
      ApplyAccounted(w, tab, origin, command, t);
    }
  }

  lemma RetireGood(w: World, tab: U64)
    requires Good(w)
    ensures Good(Step(w, CallRetire(tab)))
  {
    RetiredSound(w.registry, tab);
    LinkedRetire(w.registry, w.office, tab);
    forall t: U64 ensures Accounted(Step(w, CallRetire(tab)), t) {
      assert Accounted(w, t) && TabLedger(w.office, t);
      hide Accounted, TabLedger, Sound, Linked, Retired;
      AccountedLater(w, Step(w, CallRetire(tab)), t);
    }
    hide Sound, Linked, Accounted, Retired;
  }

  lemma TakeGood(w: World, tab: U64, accepts: BroadcastDelivery -> bool)
    requires Good(w)
    ensures Good(Step(w, CallTake(tab, accepts)))
  {
    hide Sound, Linked, Accounted, NextLetter, NoteTake, Taken;
    if TakeIf(w.registry, tab, accepts).1.Some? {
      TakenSound(w.registry, tab);
      LinkedTake(w.registry, w.office, tab);
    }
    forall t: U64 ensures Accounted(Step(w, CallTake(tab, accepts)), t) {
      TakeAccounted(w, tab, accepts, t);
    }
  }

  /** Every call keeps the counters exact, the registry in line with the letter log, and the books straight. */
  lemma StepGood(w: World, call: Call)
    requires Good(w)
    ensures Good(Step(w, call))
  {
    hide Good, Step;
    match call
    case CallApply(tab, origin, command) => ApplyGood(w, tab, origin, command);
    case CallRetire(tab) => RetireGood(w, tab);
    case CallTake(tab, accepts) => TakeGood(w, tab, accepts);
  }

  /** The main result, over every sequence of calls from the empty registry. */
  lemma {:induction false} EveryRun(calls: seq<Call>)
    ensures Good(Run(calls))
  {
    if calls == [] {
      EmptySound();
      assert Linked(Start.registry, Start.office);
    } else {
      EveryRun(calls[..|calls| - 1]);
      StepGood(Run(calls[..|calls| - 1]), calls[|calls| - 1]);
    }
  }

  lemma OpenLetterWaits(w: World, tab: U64, i: nat)
    requires TabLedger(w.office, tab) && CursorOf(w.office, tab) <= i < |LogOf(w.office, tab)|
    requires StillOpen(w.office, LogOf(w.office, tab)[i])
    ensures LogOf(w.office, tab)[i] in Waiting(w.office, tab)
  {
    var c := CursorOf(w.office, tab);
    var suffix := LogOf(w.office, tab)[c..];
    assert suffix[i - c] == LogOf(w.office, tab)[i];
    FilterIn(suffix, Live(w.office.openedAs), suffix[i - c]);
  }

  /**
    * A letter in the log of a tab whose channel is still the one it was written to has been
    * delivered, or the registry's queue holds it, in step with the letters waiting there.
    */
  lemma LetterFate(calls: seq<Call>, tab: U64, i: nat)
    requires i < |LogOf(Run(calls).office, tab)|
    requires StillOpen(Run(calls).office, LogOf(Run(calls).office, tab)[i])
    ensures i in HandedTo(Run(calls), tab) <==> i < CursorOf(Run(calls).office, tab)
    ensures i !in HandedTo(Run(calls), tab) ==> LogOf(Run(calls).office, tab)[i] in Waiting(Run(calls).office, tab)
    ensures Parallel(Run(calls).registry, tab, QueueOf(Run(calls).registry.pending, tab),
      Waiting(Run(calls).office, tab))
  {
    var w := Run(calls);
    EveryRun(calls);
    assert Accounted(w, tab) && TabLedger(w.office, tab) && TabLinked(w.registry, w.office, tab);
    if i >= CursorOf(w.office, tab) {
      OpenLetterWaits(w, tab, i);
    }
  }

  // ---------- Letters to a channel that was closed ----------

  /** A letter whose channel is closed, or open again under the same id, and that was not handed over before. */
  ghost predicate Dead(w: World, tab: U64, i: nat) {
    i < |LogOf(w.office, tab)| && !StillOpen(w.office, LogOf(w.office, tab)[i]) && i !in HandedTo(w, tab)
  }

  /** Openings to come get numbers no letter has yet. */
  lemma DeadLater(w: World, w': World, tab: U64, i: nat)
    requires Dead(w, tab, i) && TabLedger(w.office, tab)
    requires HandedTo(w', tab) == HandedTo(w, tab) && LogOf(w.office, tab) <= LogOf(w'.office, tab)
    requires forall d :: d in w'.office.openedAs ==>
      (d in w.office.openedAs && w'.office.openedAs[d] == w.office.openedAs[d])
        || w'.office.openedAs[d] >= w.office.openings
    ensures Dead(w', tab, i)
  {
  }

  lemma ApplyDead(w: World, tab: U64, origin: Text, command: Command, t: U64, i: nat)
    requires Good(w) && Dead(w, t, i)
    ensures Dead(Step(w, CallApply(tab, origin, command)), t, i)
  {
    var s := w.registry;
    var (_, r) := Apply(s, tab, origin, command);
    var source := Destination(tab, command.document, command.channelId);
    var position := Position(s.channels, source);
    assert TabLedger(w.office, t);
    if r == Ok(true) && command.operation.Post? && position.Some? {
      var name := s.channels[position.value].name;
      TargetsOpen(s, w.office, source, origin, name);
      NotePostLog(w.office, Targets(s.channels, source, origin, name), origin, command.operation.serialized, t);
    }
    hide Dead, StillOpen, Sound, Accounted, Apply;
    DeadLater(w, Step(w, CallApply(tab, origin, command)), t, i);
  }

  /** A take that hands nothing over leaves the books; one that does hands over a letter that is still open. */
  lemma TakeHands(w: World, tab: U64, accepts: BroadcastDelivery -> bool)
    requires Good(w)
    ensures TakeIf(w.registry, tab, accepts).1.Some? ==>
      NextLetter(w.office, tab) < |LogOf(w.office, tab)|
      && StillOpen(w.office, LogOf(w.office, tab)[NextLetter(w.office, tab)])
  {
    if TakeIf(w.registry, tab, accepts).1.Some? {
      assert TabLedger(w.office, tab) && TabLinked(w.registry, w.office, tab);
      hide Sound, Accounted, NextLetter, StillOpen, TabLedger, Linked, Waiting;
      assert QueueOf(w.registry.pending, tab) != [];
      assert Waiting(w.office, tab) != [];
      TakenTab(w.office, tab);
    }
  }

  /** Only a letter whose channel is still open is ever the next one. */
  lemma TakeDead(w: World, tab: U64, accepts: BroadcastDelivery -> bool, t: U64, i: nat)
    requires Good(w) && Dead(w, t, i)
    ensures Dead(Step(w, CallTake(tab, accepts)), t, i)
  {
    hide Good, Sound, NextLetter, Taken;
    TakeHands(w, tab, accepts);
  }

  lemma StepDead(w: World, call: Call, t: U64, i: nat)
    requires Good(w) && Dead(w, t, i)
    ensures Dead(Step(w, call), t, i)
  {
    match call
    case CallApply(tab, origin, command) => ApplyDead(w, tab, origin, command, t, i);
    case CallTake(tab, accepts) => TakeDead(w, tab, accepts, t, i);
    case CallRetire(tab) =>
      assert TabLedger(w.office, t);
      hide Dead, StillOpen, Sound, Accounted, Retired;
      DeadLater(w, Step(w, call), t, i);
  }

  /**
    * A letter that was not handed over while its channel stayed open is never handed over: not after
    * a close, not after a retirement, and not to a channel opened again under the same id.
    */
  lemma {:induction false} ClosedNeverHanded(calls: seq<Call>, more: seq<Call>, tab: U64, i: nat)
    requires Dead(Run(calls), tab, i)
    ensures Dead(Run(calls + more), tab, i)
    decreases |more|
  {
    hide Dead, Step, Good;
    if more == [] {
      assert calls + more == calls;
    } else {
      var n := |more| - 1;
      var all := calls + more;
      assert all[..|all| - 1] == calls + more[..n] && all[|all| - 1] == more[n];
      ClosedNeverHanded(calls, more[..n], tab, i);
      EveryRun(calls + more[..n]);
      StepDead(Run(calls + more[..n]), more[n], tab, i);
    }
  }

  // ---------- Which letter a take offers, and when it goes ----------

  /** The oldest letter of a tab that was not handed over and whose channel is still the one it was written to. */
  ghost predicate Oldest(w: World, tab: U64, n: nat) {
    var log := LogOf(w.office, tab);
    && n < |log| && StillOpen(w.office, log[n]) && n !in HandedTo(w, tab)
    && forall i :: 0 <= i < n ==> i in HandedTo(w, tab) || !StillOpen(w.office, log[i])
  }

  lemma OldestIsNext(w: World, tab: U64, n: nat)
    requires Accounted(w, tab) && TabLedger(w.office, tab) && Oldest(w, tab, n)
    ensures n == NextLetter(w.office, tab) && Waiting(w.office, tab) != []
  {
    var log, c := LogOf(w.office, tab), CursorOf(w.office, tab);
    assert c <= n;
    var suffix, keep := log[c..], Live(w.office.openedAs);
    assert suffix[n - c] == log[n] && keep(suffix[n - c]);
    OpenLetterWaits(w, tab, n);
    forall i | 0 <= i < n - c ensures !keep(suffix[i]) {
      assert suffix[i] == log[c + i] && c + i !in HandedTo(w, tab);
    }
    hide Accounted, TabLedger, Oldest;
  }

  lemma WaitingIsOldest(w: World, tab: U64)
    requires Accounted(w, tab) && TabLedger(w.office, tab) && Waiting(w.office, tab) != []
    ensures Oldest(w, tab, NextLetter(w.office, tab))
  {
    TakenTab(w.office, tab);
    forall i | CursorOf(w.office, tab) <= i < NextLetter(w.office, tab)
      ensures !StillOpen(w.office, LogOf(w.office, tab)[i])
    {
      SkippedClosed(w.office, tab, i);
    }
    hide NextLetter, Waiting, TabLedger;
  }

  /** A take with a letter to offer hands it over exactly if it is accepted. */
  lemma TakeOffers(w: World, tab: U64, accepts: BroadcastDelivery -> bool)
    requires Good(w) && Waiting(w.office, tab) != []
    ensures var n := NextLetter(w.office, tab);
      && n < |LogOf(w.office, tab)|
      && TakeIf(w.registry, tab, accepts).1 ==
        (if accepts(Content(LogOf(w.office, tab)[n])) then Some(Content(LogOf(w.office, tab)[n])) else None)
  {
    assert Sound(w.registry) && Linked(w.registry, w.office) && TabLinked(w.registry, w.office, tab);
    assert QueueOf(w.registry.pending, tab) != [];
    hide Good, Sound, Accounted, NextLetter, Content, Taken, Linked, TakeIf;
    LinkedTake(w.registry, w.office, tab);
    BroadcastCalls.TakeExact(w.registry, tab, accepts);
  }

  function OfferOf(w: World, tab: U64, n: nat): BroadcastDelivery
    requires n < |LogOf(w.office, tab)|
  {
    var letter := LogOf(w.office, tab)[n];
    BroadcastDelivery(letter.destination.document, letter.destination.channelId, letter.origin, letter.serialized)
  }

  lemma StepOffers(w: World, tab: U64, accepts: BroadcastDelivery -> bool, n: nat)
    requires Good(w) && n < |LogOf(w.office, tab)|
    requires TakeIf(w.registry, tab, accepts).1 ==
      (if accepts(OfferOf(w, tab, n)) then Some(OfferOf(w, tab, n)) else None)
    requires n == NextLetter(w.office, tab)
    ensures var w', offer := Step(w, CallTake(tab, accepts)), OfferOf(w, tab, n);
      && HandedTo(w', tab) == HandedTo(w, tab) + (if accepts(offer) then [n] else [])
      && DeliveredTo(w', tab) == DeliveredTo(w, tab) + (if accepts(offer) then [offer] else [])
      && forall t: U64 :: t != tab ==> HandedTo(w', t) == HandedTo(w, t) && DeliveredTo(w', t) == DeliveredTo(w, t)
  {
    hide Good, Accounted, TabLedger, NextLetter, TakeIf, Run, OfferOf;
  }

  /**
    * After any run, a take offers the oldest letter whose channel is still open, with that letter's own
    * content, and hands it over exactly if it is accepted; another tab gets nothing.
    */
  lemma OfferedExactly(calls: seq<Call>, tab: U64, accepts: BroadcastDelivery -> bool, n: nat)
    requires Oldest(Run(calls), tab, n)
    ensures var w, w' := Run(calls), Run(calls + [CallTake(tab, accepts)]);
      var letter := LogOf(w.office, tab)[n];
      var offer := BroadcastDelivery(letter.destination.document, letter.destination.channelId, letter.origin,
                                     letter.serialized);
      && HandedTo(w', tab) == HandedTo(w, tab) + (if accepts(offer) then [n] else [])
      && DeliveredTo(w', tab) == DeliveredTo(w, tab) + (if accepts(offer) then [offer] else [])
      && forall t: U64 :: t != tab ==> HandedTo(w', t) == HandedTo(w, t) && DeliveredTo(w', t) == DeliveredTo(w, t)
  {
    var w := Run(calls);
    EveryRun(calls);
    assert Accounted(w, tab) && TabLedger(w.office, tab);
    RunTake(calls, tab, accepts);
    OldestIsNext(w, tab, n);
    hide Good, Accounted, TabLedger, Oldest, NextLetter, Waiting, TakeIf, Run, Step, HandedTo, DeliveredTo;
    TakeOffers(w, tab, accepts);
    StepOffers(w, tab, accepts, n);
  }

  /** With no letter to offer a take does nothing. */
  lemma NothingOffered(calls: seq<Call>, tab: U64, accepts: BroadcastDelivery -> bool)
    requires forall n: nat :: !Oldest(Run(calls), tab, n)
    ensures Run(calls + [CallTake(tab, accepts)]) == Run(calls)
  {
    var w := Run(calls);
    EveryRun(calls);
    assert Accounted(w, tab) && TabLedger(w.office, tab) && TabLinked(w.registry, w.office, tab);
    RunTake(calls, tab, accepts);
    if Waiting(w.office, tab) != [] {
      WaitingIsOldest(w, tab);
    }
    assert QueueOf(w.registry.pending, tab) == [];
    hide Good, Accounted, TabLedger, Oldest, NextLetter, Run, TakeIf, Waiting;
    assert Sound(w.registry);
    BroadcastCalls.TakeExact(w.registry, tab, accepts);
  }

  lemma RunTake(calls: seq<Call>, tab: U64, accepts: BroadcastDelivery -> bool)
    requires Good(Run(calls))
    ensures Run(calls + [CallTake(tab, accepts)]) == Step(Run(calls), CallTake(tab, accepts))
  {
    hide Good, Step;
    var all := calls + [CallTake(tab, accepts)];
    assert all[..|all| - 1] == calls;
  }
}
