/** The one-shot lifecycle of a capture: the child's control loop, and the browser's side of start and stop. */
module CaptureLifecycle {
  import opened Bytes
  import opened Outcome
  import opened CaptureCodec
  import opened CaptureMailbox

  // ---------- The child ----------

  /** What the child may hear from the browser. */
  datatype Received = Command(message: BrowserMessage) | Malformed | Closed | Timeout

  datatype Provided = Captured(sample: Sample) | Nothing | Broke(reason: Failure)

  /**
    * What the world does in one round of the loop: the reply to a command, the sample pipe, the device
    * and the report of its failure may each fail.
    */
  datatype Round = Round(received: Received, start: Result<(), Failure>, replies: bool, pipeFailed: bool,
                         provided: Provided, reports: bool, enqueues: bool)

  datatype Ending = Running | Finished | Broken

  /** Locals of the loop, and what an observer has seen: messages sent and samples offered to the pipe. */
  datatype Child = Child(active: Option<U64>, used: bool, capturing: bool, ending: Ending, sent: seq<WorkerMessage>,
      offered: seq<Sample>)

  function Sent(c: Child, m: WorkerMessage, writes: bool): Child {
    if writes then c.(sent := c.sent + [m]) else c.(ending := Broken)
  }

  function SentLast(c: Child, m: WorkerMessage, writes: bool): Child {
    if writes then c.(sent := c.sent + [m], ending := Finished) else c.(ending := Broken)
  }

  /** How a command is taken. */
  function Obey(c: Child, r: Round): Child {
    match r.received
    case Timeout => c
    case Malformed => c.(ending := Broken)
    case Closed => c.(ending := Broken)
    case Command(m) =>
      if m.Start? && !c.used && c.active.None? then
        var d := c.(used := true);
        match r.start
        case Ok(_) => Sent(d.(active := Some(m.captureId), capturing := true), Started(m.captureId), r.replies)
        case Err(reason) => SentLast(d, Failed(m.captureId, reason), r.replies)
      else if m.Stop? && c.active == Some(m.captureId) then
        SentLast(c.(capturing := false), Stopped(m.captureId), r.replies)
      else if m.Shutdown? then SentLast(c.(capturing := false), ShutdownComplete, r.replies)
      else c.(ending := Broken)
  }

  predicate OutsideGrant(d: Devices, id: U64, s: Sample) {
    s.captureId != id || (s.kind.VideoNv12? && !d.camera) || (s.kind.AudioPcm16? && !d.microphone)
  }

  /** What the rest of a round does with an active capture. */
  function Deliver(c: Child, d: Devices, r: Round): Child {
    if c.ending != Running || c.active.None? then c
    else if r.pipeFailed then c.(ending := Broken)
    else
      match r.provided
      case Nothing => c
      case Broke(reason) => SentLast(c.(capturing := false), Failed(c.active.value, reason), r.reports)
      case Captured(s) =>
        if OutsideGrant(d, c.active.value, s) then c.(ending := Broken)
        else if r.enqueues then c.(offered := c.offered + [s])
        else c.(offered := c.offered + [s], ending := Broken)
  }

  function Turn(c: Child, d: Devices, r: Round): Child {
    if c.ending != Running then c else Deliver(Obey(c, r), d, r)
  }

  function Turns(c: Child, d: Devices, rounds: seq<Round>): Child
    decreases |rounds|
  {
    if rounds == [] then c else Turn(Turns(c, d, rounds[..|rounds| - 1]), d, rounds[|rounds| - 1])
  }

  /** The first capture the browser asked for. */
  function FirstStart(rounds: seq<Round>): Option<U64>
    decreases |rounds|
  {
    if rounds == [] then None
    else
      var before := FirstStart(rounds[..|rounds| - 1]);
      var r := rounds[|rounds| - 1].received;
      if before.Some? then before else if r.Command? && r.message.Start? then Some(r.message.captureId) else None
  }

  function Greeted(nonce: seq<byte>, containment: Containment): Child {
    Child(None, false, false, Running, [Ready(nonce, containment)], [])
  }

  /** The only conversations there are: one capture at most, started or refused once, and one last word. */
  ghost predicate Conversation(sent: seq<WorkerMessage>, ready: WorkerMessage, id: Option<U64>) {
    || sent == [ready]
    || sent == [ready, ShutdownComplete]
    || (id.Some? && sent == [ready, Started(id.value)])
    || (id.Some? && exists reason :: sent == [ready, Failed(id.value, reason)])
    || (id.Some? && sent == [ready, Started(id.value), Stopped(id.value)])
    || (id.Some? && sent == [ready, Started(id.value), ShutdownComplete])
    || (id.Some? && exists reason :: sent == [ready, Started(id.value), Failed(id.value, reason)])
  }

  ghost predicate Orderly(c: Child, d: Devices, ready: WorkerMessage, first: Option<U64>) {
    && Conversation(c.sent, ready, first)
    && (c.used ==> first.Some?) && (c.ending == Running && first.Some? ==> c.used)
    && (|c.sent| > 1 && c.sent[1].Started? ==> c.used)
    && (c.active.Some? ==> c.used && c.active == first)
    && (c.ending == Running ==> c.sent == if c.active.Some? then [ready, Started(c.active.value)] else [ready])
    && (c.ending == Running ==> (c.used <==> c.active.Some?) && (c.capturing <==> c.active.Some?))
    && (c.ending == Finished ==> !c.capturing)
    && OnlyOf(c.offered, d, first)
  }

  /** A sample of this capture, from a granted device. */
  predicate OfGrant(d: Devices, id: U64, s: Sample) {
    s.captureId == id && (if s.kind.VideoNv12? then d.camera else d.microphone)
  }

  ghost predicate OnlyOf(offered: seq<Sample>, d: Devices, first: Option<U64>) {
    offered == [] || (first.Some? && forall i :: 0 <= i < |offered| ==> OfGrant(d, first.value, offered[i]))
  }

  lemma ObeyOrderly(c: Child, d: Devices, r: Round, ready: WorkerMessage, first: Option<U64>, later: Option<U64>)
    requires Orderly(c, d, ready, first) && c.ending == Running
    requires later == if first.Some? then first
      else if r.received.Command? && r.received.message.Start? then Some(r.received.message.captureId) else None
    ensures Orderly(Obey(c, r), d, ready, later)
  {
  }

  lemma DeliverOrderly(c: Child, d: Devices, r: Round, ready: WorkerMessage, first: Option<U64>)
    requires Orderly(c, d, ready, first)
    ensures Orderly(Deliver(c, d, r), d, ready, first)
  {
  }

  /**
    * Over every run of the control loop: one capture at most and only the first one asked for, every
    * message in its place, samples only of that capture and within the grant, and the device off at
    * every regular end.
    */
  lemma {:induction false} EveryConversation(nonce: seq<byte>, containment: Containment, d: Devices, rounds: seq<Round>)
    ensures Orderly(Turns(Greeted(nonce, containment), d, rounds), d, Ready(nonce, containment), FirstStart(rounds))
    decreases |rounds|
  {
    hide Orderly, Obey, Deliver;
    var c := Greeted(nonce, containment);
    if rounds == [] {
      GreetedOrderly(nonce, containment, d);
    } else {
      var n := |rounds| - 1;
      EveryConversation(nonce, containment, d, rounds[..n]);
      var before := Turns(c, d, rounds[..n]);
      if before.ending == Running {
        ObeyOrderly(before, d, rounds[n], Ready(nonce, containment), FirstStart(rounds[..n]), FirstStart(rounds));
        DeliverOrderly(Obey(before, rounds[n]), d, rounds[n], Ready(nonce, containment), FirstStart(rounds));
      } else {
        EndedOrderly(before, d, Ready(nonce, containment), FirstStart(rounds[..n]), FirstStart(rounds));
      }
    }
  }

  // ---------- Why the child says what it says ----------

  ghost predicate Asked(rounds: seq<Round>, m: BrowserMessage) {
    exists k :: 0 <= k < |rounds| && rounds[k].received == Command(m)
  }

  /** The device broke, or could not be started for this capture. */
  predicate Fails(r: Round, id: U64, reason: Failure) {
    r.provided == Broke(reason) || (r.received == Command(BrowserMessage.Start(id)) && r.start == Err(reason))
  }

  /** Every word after the greeting has its reason in some round. */
  ghost predicate Caused(word: WorkerMessage, rounds: seq<Round>) {
    match word
    case Ready(_, _) => true
    case Started(id) =>
      exists k :: 0 <= k < |rounds| && rounds[k].received == Command(BrowserMessage.Start(id)) && rounds[k].start.Ok?
    case Stopped(id) => Asked(rounds, BrowserMessage.Stop(id))
    case ShutdownComplete => Asked(rounds, Shutdown)
    case Failed(id, reason) => exists k :: 0 <= k < |rounds| && Fails(rounds[k], id, reason)
  }

  lemma CausedLater(word: WorkerMessage, rounds: seq<Round>, more: seq<Round>)
    requires Caused(word, rounds) && rounds <= more
    ensures Caused(word, more)
  {
  }

  lemma TurnCauses(c: Child, d: Devices, rounds: seq<Round>)
    requires rounds != []
    ensures var c' := Turn(c, d, rounds[|rounds| - 1]);
      c.sent <= c'.sent && forall i :: |c.sent| <= i < |c'.sent| ==> Caused(c'.sent[i], rounds)
  {
    var r := rounds[|rounds| - 1];
    if c.ending == Running {
      ObeyCauses(c, rounds);
      DeliverCauses(Obey(c, r), d, rounds);
      hide Obey, Deliver, Caused;
    }
  }

  lemma ObeyCauses(c: Child, rounds: seq<Round>)
    requires rounds != []
    ensures var c' := Obey(c, rounds[|rounds| - 1]);
      c.sent <= c'.sent && forall i :: |c.sent| <= i < |c'.sent| ==> Caused(c'.sent[i], rounds)
  {
  }

  lemma DeliverCauses(c: Child, d: Devices, rounds: seq<Round>)
    requires rounds != []
    ensures var c' := Deliver(c, d, rounds[|rounds| - 1]);
      c.sent <= c'.sent && forall i :: |c.sent| <= i < |c'.sent| ==> Caused(c'.sent[i], rounds)
  {
  }

  /**
    * Over every run, whatever the child says was asked for or reported: it claims a start only of a
    * capture the device started, a stop only of the capture it was told to stop, the end only when told
    * to shut down, and a failure only with the device's own reason.
    */
  lemma {:induction false} EveryWordCaused(nonce: seq<byte>, containment: Containment, d: Devices, rounds: seq<Round>)
    ensures var sent := Turns(Greeted(nonce, containment), d, rounds).sent;
      sent != [] && sent[0] == Ready(nonce, containment) && forall i :: 0 <= i < |sent| ==> Caused(sent[i], rounds)
    decreases |rounds|
  {
    if rounds != [] {
      var n := |rounds| - 1;
      EveryWordCaused(nonce, containment, d, rounds[..n]);
      var c := Turns(Greeted(nonce, containment), d, rounds[..n]);
      TurnCauses(c, d, rounds);
      hide Caused, Turn;
      var sent := Turns(Greeted(nonce, containment), d, rounds).sent;
      forall i | 0 <= i < |sent| ensures Caused(sent[i], rounds) {
        if i < |c.sent| {
          CausedLater(c.sent[i], rounds[..n], rounds);
        }
      }
    }
  }

  /** What one round makes of a child that still runs, by what is heard and whether a capture is active. */
  lemma TurnExact(c: Child, d: Devices, r: Round)
    requires c.ending == Running && (c.used <==> c.active.Some?) && (c.capturing <==> c.active.Some?)
    ensures var c' := Turn(c, d, r);
      && (r.received.Malformed? || r.received.Closed? ==> c'.ending == Broken && c'.sent == c.sent)
      && (r.received == Command(Shutdown) ==>
           && !c'.capturing && c'.offered == c.offered
           && c'.sent == (if r.replies then c.sent + [ShutdownComplete] else c.sent)
           && c'.ending == (if r.replies then Finished else Broken))
      && (r.received.Command? && r.received.message.Stop? ==>
           && c'.offered == c.offered
           && (if c.active == Some(r.received.message.captureId)
               then !c'.capturing && c'.ending == (if r.replies then Finished else Broken)
                 && c'.sent == (if r.replies then c.sent + [Stopped(c.active.value)] else c.sent)
               else c'.ending == Broken && c'.sent == c.sent))
      && (r.received.Command? && r.received.message.Hello? ==> c'.ending == Broken && c'.sent == c.sent)
      && (r.received.Command? && r.received.message.Start? ==>
           var id := r.received.message.captureId;
           if c.active.Some? then c'.ending == Broken && c'.sent == c.sent
           else if r.start.Err? then
             && !c'.capturing && c'.ending == (if r.replies then Finished else Broken)
             && c'.sent == (if r.replies then c.sent + [Failed(id, r.start.error)] else c.sent)
           else
             && c'.active == Some(id) && (c'.ending == Running ==> c'.capturing)
             && (if r.replies then c.sent + [Started(id)] <= c'.sent else c'.sent == c.sent && c'.ending == Broken))
      && (r.received.Timeout? && c.active.None? ==> c' == c)
  {
  }

  /** What one round makes of the sample path of a running capture when nothing was heard. */
  lemma SampleExact(c: Child, d: Devices, r: Round)
    requires c.ending == Running && c.active.Some? && r.received.Timeout?
    ensures var c', id := Turn(c, d, r), c.active.value;
      && (r.pipeFailed ==> c' == c.(ending := Broken))
      && (!r.pipeFailed && r.provided.Nothing? ==> c' == c)
      && (!r.pipeFailed && r.provided.Broke? ==>
           && !c'.capturing && c'.ending == (if r.reports then Finished else Broken)
           && c'.sent == (if r.reports then c.sent + [Failed(id, r.provided.reason)] else c.sent))
      && (!r.pipeFailed && r.provided.Captured? ==>
           var within := OfGrant(d, id, r.provided.sample);
           && c'.sent == c.sent && c'.offered == (if within then c.offered + [r.provided.sample] else c.offered)
           && (c'.ending == Running <==> within && r.enqueues))
  {
  }

  lemma GreetedOrderly(nonce: seq<byte>, containment: Containment, d: Devices)
    ensures Orderly(Greeted(nonce, containment), d, Ready(nonce, containment), None)
  {
  }

  /** A start asked for after the end changes nothing. */
  lemma EndedOrderly(c: Child, d: Devices, ready: WorkerMessage, first: Option<U64>, later: Option<U64>)
    requires Orderly(c, d, ready, first) && c.ending != Running && (first.Some? ==> later == first)
    ensures Orderly(c, d, ready, later)
  {
  }

  /** The loop itself, round by round until it ends or the rounds do. */
  method RunProtocol(nonce: seq<byte>, containment: Containment, d: Devices, hello: BrowserMessage, rounds: seq<Round>)
    returns (r: Result<Child, ()>)
    ensures r.Err? <==> hello != Hello(nonce, d)
    ensures r.Ok? ==> r.value == Turns(Greeted(nonce, containment), d, rounds)
  {
    if hello != Hello(nonce, d) {
      return Err(());
    }
    var active: Option<U64>, used, capturing, ending := None, false, false, Running;
    var sent: seq<WorkerMessage>, offered: seq<Sample> := [Ready(nonce, containment)], [];
    for i := 0 to |rounds|
      invariant Child(active, used, capturing, ending, sent, offered) ==
        Turns(Greeted(nonce, containment), d, rounds[..i])
    {
      assert rounds[..i + 1][..i] == rounds[..i];
      if ending != Running {
        continue;
      }
      var round := rounds[i];
      match round.received {
        case Timeout =>
        case Malformed =>
          ending := Broken;
        case Closed =>
          ending := Broken;
        case Command(m) =>
          if m.Start? && !used && active.None? {
            used := true;
            if round.start.Ok? {
              active, capturing := Some(m.captureId), true;
            }
            if !round.replies {
              ending := Broken;
            } else if round.start.Ok? {
              sent := sent + [Started(m.captureId)];
            } else {
              sent, ending := sent + [Failed(m.captureId, round.start.error)], Finished;
            }
          } else if m.Stop? && active == Some(m.captureId) {
            capturing := false;
            ending := if round.replies then Finished else Broken;
            sent := if round.replies then sent + [Stopped(m.captureId)] else sent;
          } else if m.Shutdown? {
            capturing := false;
            ending := if round.replies then Finished else Broken;
            sent := if round.replies then sent + [ShutdownComplete] else sent;
          } else {
            ending := Broken;
          }
      }
      if ending != Running || active.None? {
        continue;
      }
      if round.pipeFailed {
        ending := Broken;
        continue;
      }
      match round.provided {
        case Nothing =>
        case Broke(reason) =>
          capturing := false;
          ending := if round.reports then Finished else Broken;
          sent := if round.reports then sent + [Failed(active.value, reason)] else sent;
        case Captured(s) =>
          if OutsideGrant(d, active.value, s) {
            ending := Broken;
          } else {
            offered := offered + [s];
            ending := if round.enqueues then Running else Broken;
          }
      }
    }
    assert rounds[..|rounds|] == rounds;
    r := Ok(Child(active, used, capturing, ending, sent, offered));
  }

  // ---------- The browser ----------

  datatype StartError = NoDevice | AccessDenied | NotReadable

  /** What one wait for the child's next word gives, and whether the start was cancelled meanwhile. */
  datatype Heard = Event(message: WorkerMessage) | Garbled | Late | Hangup

  datatype Wait = Wait(cancelled: bool, heard: Heard, cancelledAfter: bool)

  function StartFailure(reason: Failure): StartError {
    match reason
    case NoDevice => StartError.NoDevice
    case AccessDenied => StartError.AccessDenied
    case _ => NotReadable
  }

  /** The verdict on a start: that of the first word, unless the wait is cancelled or runs out before. */
  function StartVerdict(waits: seq<Wait>, id: U64): Result<(), StartError> {
    if waits == [] || waits[0].cancelled then Err(NotReadable)
    else
      match waits[0].heard
      case Late => StartVerdict(waits[1..], id)
      case Garbled => Err(NotReadable)
      case Hangup => Err(NotReadable)
      case Event(m) =>
        if m == Started(id) then (if waits[0].cancelledAfter then Err(NotReadable) else Ok(()))
        else if m.Failed? && m.captureId == id then Err(StartFailure(m.reason))
        else Err(NotReadable)
  }

  /** The polling loop; `waits` lists what happens before the deadline. */
  method WaitForStart(waits: seq<Wait>, id: U64) returns (r: Result<(), StartError>)
    ensures r == StartVerdict(waits, id)
  {
    var i := 0;
    while i < |waits|
      invariant i <= |waits| && StartVerdict(waits, id) == StartVerdict(waits[i..], id)
    {
      var w := waits[i];
      assert waits[i..][0] == w && waits[i..][1..] == waits[i + 1..];
      if w.cancelled {
        return Err(NotReadable);
      }
      match w.heard {
        case Late =>
          i := i + 1;
        case Garbled =>
          return Err(NotReadable);
        case Hangup =>
          return Err(NotReadable);
        case Event(m) =>
          if m == Started(id) {
            return if w.cancelledAfter then Err(NotReadable) else Ok(());
          }
          return if m.Failed? && m.captureId == id then Err(StartFailure(m.reason)) else Err(NotReadable);
      }
    }
    return Err(NotReadable);
  }

  /** The words heard during the waits, in order. */
  function Words(waits: seq<Wait>): seq<WorkerMessage> {
    if waits == [] then []
    else (if waits[0].heard.Event? then [waits[0].heard.message] else []) + Words(waits[1..])
  }

  lemma {:induction false} StartedWasFirst(waits: seq<Wait>, id: U64)
    requires StartVerdict(waits, id).Ok?
    ensures Words(waits) != [] && Words(waits)[0] == Started(id)
  {
    if waits[0].heard.Late? {
      StartedWasFirst(waits[1..], id);
    }
  }

  lemma {:induction false} RefusalWasFirst(waits: seq<Wait>, id: U64)
    requires StartVerdict(waits, id) == Err(StartError.NoDevice)
      || StartVerdict(waits, id) == Err(StartError.AccessDenied)
    ensures Words(waits) != [] && Words(waits)[0].Failed? && Words(waits)[0].captureId == id
  {
    if waits[0].heard.Late? {
      RefusalWasFirst(waits[1..], id);
    }
  }

  /** A wait that only lets time pass. */
  predicate Idles(w: Wait) {
    !w.cancelled && w.heard.Late?
  }

  /** The verdict once the first wait that does not just pass is known. */
  lemma {:induction false} StartVerdictExact(waits: seq<Wait>, id: U64, k: nat)
    requires k <= |waits| && forall i :: 0 <= i < k ==> Idles(waits[i])
    ensures k == |waits| ==> StartVerdict(waits, id) == Err(NotReadable)
    ensures k < |waits| && !Idles(waits[k]) ==>
      var w := waits[k];
      StartVerdict(waits, id) ==
        if !w.cancelled && w.heard == Event(Started(id)) && !w.cancelledAfter then Ok(())
        else if !w.cancelled && w.heard == Event(Failed(id, Failure.NoDevice)) then Err(StartError.NoDevice)
        else if !w.cancelled && w.heard == Event(Failed(id, Failure.AccessDenied)) then Err(StartError.AccessDenied)
        else Err(NotReadable)
    decreases k
  {
    if k > 0 {
      assert Idles(waits[0]);
      assert forall i :: 0 <= i < k - 1 ==> waits[1..][i] == waits[i + 1];
      StartVerdictExact(waits[1..], id, k - 1);
    }
  }

  /** What the child said after its greeting. */
  function Answers(sent: seq<WorkerMessage>): seq<WorkerMessage> {
    if sent == [] then [] else sent[1..]
  }

  /**
    * Between the browser and any child run that was asked to start capture `id` first: if the browser
    * hears a prefix of what the child said after its greeting, then a successful start means that this
    * child started this capture, and a device refusal that this child refused this one.
    */
  lemma StartAgreed(nonce: seq<byte>, containment: Containment, d: Devices, rounds: seq<Round>, waits: seq<Wait>,
      id: U64)
    requires Words(waits) <= Answers(Turns(Greeted(nonce, containment), d, rounds).sent)
    ensures StartVerdict(waits, id).Ok? ==>
      FirstStart(rounds) == Some(id) && Turns(Greeted(nonce, containment), d, rounds).used
      && Started(id) in Turns(Greeted(nonce, containment), d, rounds).sent
    ensures StartVerdict(waits, id) in {Err(StartError.NoDevice), Err(StartError.AccessDenied)} ==>
      FirstStart(rounds) == Some(id) && Started(id) !in Turns(Greeted(nonce, containment), d, rounds).sent
  {
    var c := Turns(Greeted(nonce, containment), d, rounds);
    EveryConversation(nonce, containment, d, rounds);
    hide Turns, FirstStart, StartVerdict;
    if StartVerdict(waits, id).Ok? {
      StartedWasFirst(waits, id);
      assert c.sent[1] == Answers(c.sent)[0] == Started(id);
    }
    if StartVerdict(waits, id) == Err(StartError.NoDevice) || StartVerdict(waits, id) == Err(StartError.AccessDenied) {
      RefusalWasFirst(waits, id);
      assert c.sent[1] == Answers(c.sent)[0];
    }
  }

  /** A mailbox after more samples have arrived. */
  function Arrived(m: Mailbox, later: seq<Sample>): Mailbox
    decreases |later|
  {
    if later == [] then m else Push(Arrived(m, later[..|later| - 1]), later[|later| - 1]).0
  }

  /** Once retired, a mailbox stores nothing any more, whatever arrives. */
  lemma {:induction false} RetiredForGood(m: Mailbox, later: seq<Sample>)
    requires m.retired
    ensures Arrived(m, later) == m
    decreases |later|
  {
    if later != [] {
      RetiredForGood(m, later[..|later| - 1]);
    }
  }

  class CaptureSession {
    const mailbox: SampleMailbox
    var used: bool
    var commands: seq<BrowserMessage>
    var terminated: bool

    ghost predicate Valid()
      reads this, mailbox
    {
      (mailbox.captureId.Some? ==> used) && Sound(mailbox.State())
    }

    constructor (devices: Devices)
      ensures Valid() && fresh(mailbox) && !used && commands == [] && !terminated
      ensures mailbox.State() == NewMailbox(devices)
    {
      mailbox := new SampleMailbox(devices);
      used, commands, terminated := false, [], false;
    }

    /**
      * One capture per session. A start that fails ends the child and retires the mailbox: nothing is
      * stored in it later.
      */
    method Start(id: U64, cancelled: bool, writes: bool, waits: seq<Wait>) returns (r: Result<(), StartError>)
      requires Valid()
      modifies this`used, this`commands, this`terminated, mailbox`captureId, mailbox`retired
      ensures Valid()
      ensures id == 0 || old(used) ==> r == Err(NotReadable) && used == old(used) && commands == old(commands)
      ensures id == 0 || old(used) ==> terminated == old(terminated) && mailbox.State() == old(mailbox.State())
      ensures id != 0 && !old(used) ==> used && mailbox.captureId == Some(id)
      ensures id != 0 && !old(used) ==>
        r == (if cancelled || !writes then Err(NotReadable) else StartVerdict(waits, id))
        && mailbox.retired == (old(mailbox.retired) || r.Err?) && terminated == (old(terminated) || r.Err?)
        && commands == (if cancelled || !writes then old(commands) else old(commands) + [BrowserMessage.Start(id)])
      ensures id != 0 && !old(used) && r.Err? ==> forall later :: Arrived(mailbox.State(), later) == mailbox.State()
    {
      hide StartVerdict, ValidSample, Granted;
      if id == 0 || used {
        return Err(NotReadable);
      }
      used := true;
      var expected := mailbox.Expect(id);
      if cancelled {
        r := Err(NotReadable);
      } else if !writes {
        r := Err(NotReadable);
      } else {
        commands := commands + [BrowserMessage.Start(id)];
        r := WaitForStart(waits, id);
      }
      if r.Err? {
        mailbox.retired := true;
        terminated := true;
        ghost var still := mailbox.State();
        forall later ensures Arrived(still, later) == still {
          RetiredForGood(still, later);
        }
      }
    }

    /**
      * Stopping is believed only for the assigned capture, and hides every sample at once, whatever
      * the child answers.
      */
    method Stop(id: U64, writes: bool, answer: Heard) returns (r: Result<(), ()>)
      requires Valid()
      modifies this`commands, mailbox`retired, mailbox`video, mailbox`audio
      ensures Valid()
      ensures mailbox.captureId != Some(id) ==>
        r.Err? && commands == old(commands) && mailbox.State() == old(mailbox.State())
      ensures mailbox.captureId == Some(id) ==>
        mailbox.State() == old(mailbox.State()).(retired := true, video := None, audio := [])
        && commands == (if writes then old(commands) + [BrowserMessage.Stop(id)] else old(commands))
        && (r.Ok? <==> writes && answer == Event(Stopped(id)))
        && forall later :: Arrived(mailbox.State(), later) == mailbox.State()
    {
      hide ValidSample, Granted;
      if mailbox.captureId != Some(id) {
        return Err(());
      }
      mailbox.retired, mailbox.video, mailbox.audio := true, None, [];
      ghost var still := mailbox.State();
      forall later ensures Arrived(still, later) == still {
        RetiredForGood(still, later);
      }
      if !writes {
        return Err(());
      }
      commands := commands + [BrowserMessage.Stop(id)];
      return if answer == Event(Stopped(id)) then Ok(()) else Err(());
    }
  }
}
