/** In which order tasks run, whatever executors do between them and from inside them. */
module EventOrder {
  import Outcome
  import opened Totals
  import opened Agenda
  import opened EventLoop

  ghost predicate Runs<T>(w: Work<T>, handle: nat) {
    w.RunnableTask? && w.handle == handle
  }

  /** Where `b` runs before `a`, `a` has run before that. */
  ghost predicate FirstRunFirst<T>(ran: seq<Work<T>>, a: nat, b: nat) {
    forall i, j :: 0 <= i < j < |ran| && Runs(ran[i], b) && Runs(ran[j], a) ==> RunBy(ran, a, i)
  }

  ghost predicate RunBy<T>(ran: seq<Work<T>>, a: nat, i: nat) {
    exists k :: 0 <= k < i && k < |ran| && Runs(ran[k], a)
  }

  ghost predicate OnceAtMost<T>(ran: seq<Work<T>>, a: nat) {
    forall i, j :: 0 <= i < j < |ran| ==> !(Runs(ran[i], a) && Runs(ran[j], a))
  }

  /** Nothing of `a` runs after anything of `b`. */
  ghost predicate InOrder<T>(ran: seq<Work<T>>, a: nat, b: nat) {
    forall i, j :: 0 <= i < j < |ran| ==> !(Runs(ran[i], b) && Runs(ran[j], a))
  }

  /** While `t` waits for its first run, it stands before whatever is pending under `b`. */
  ghost predicate Ahead<T>(l: Loop<T>, t: Task<T>, b: nat) {
    t in l.agenda ==> forall j :: 0 <= j < |l.agenda| && l.agenda[j].handle == b ==> Before(t, l.agenda[j])
  }

  /**
    * What has become of a task `t` that was waiting for its first run: it still waits and neither it
    * nor `b` has run; or it is no longer pending, or repeats after having run, and before `b`.
    */
  ghost predicate Turned<T>(r: Result<T>, t: Task<T>, b: nat) {
    && Ahead(r.loop, t, b)
    && (t in r.loop.agenda ==> Absent(r.ran, t.handle) && Absent(r.ran, b))
    && FirstRunFirst(r.ran, t.handle, b)
    && (Pending(r.loop, t.handle) && t !in r.loop.agenda ==> t.repeat.Some? && !Absent(r.ran, t.handle))
    && (t.repeat.None? ==> OnceAtMost(r.ran, t.handle))
  }

  ghost predicate Waiting<T>(l: Loop<T>, t: Task<T>, b: nat) {
    Sound(l) && t in l.agenda && t.handle != b && Ahead(l, t, b)
  }

  lemma WaitingKnown<T>(l: Loop<T>, t: Task<T>)
    requires Sound(l) && t in l.agenda
    ensures t.handle < l.nextHandle && t.sequence < l.nextSequence && Pending(l, t.handle)
  {
    var i :| 0 <= i < |l.agenda| && l.agenda[i] == t;
  }

  lemma NothingRan<T>(r: Result<T>, t: Task<T>, b: nat)
    requires r.ran == [] && Ahead(r.loop, t, b) && (Pending(r.loop, t.handle) ==> t in r.loop.agenda)
    ensures Turned(r, t, b)
  {
  }

  // ---------- Single steps ----------

  lemma QueueTurned<T>(l: Loop<T>, source: TaskSource, delay: Time, repeat: Outcome.Option<Time>, payload: T,
      script: Script<T>, t: Task<T>, b: nat)
    requires Waiting(l, t, b) && b != l.nextHandle
    ensures Turned(Result(Queue(l, source, delay, repeat, payload), script, []), t, b)
  {
    var u := Task(SaturatingAdd(l.now, delay), l.nextSequence, l.nextHandle, source, repeat, payload);
    var s := Insert(l.agenda, u);
    InsertMembers(l.agenda, u);
    assert t in multiset(l.agenda) && t in multiset(s);
    InsertKeeps(l.agenda, u);
    NothingRan(Result(Queue(l, source, delay, repeat, payload), script, []), t, b);
  }

  lemma CancelledTurned<T>(l: Loop<T>, cancelled: nat, script: Script<T>, t: Task<T>, b: nat)
    requires Waiting(l, t, b)
    ensures Turned(Result(Cancelled(l, cancelled), script, []), t, b)
  {
    var s := Cancelled(l, cancelled).agenda;
    FilterIn(l.agenda, Other(cancelled), t);
    CancelledSound(l, cancelled);
    forall j | 0 <= j < |s| ensures s[j] in l.agenda {
      FilterIn(l.agenda, Other(cancelled), s[j]);
    }
    NothingRan(Result(Cancelled(l, cancelled), script, []), t, b);
  }

  /** The first of the agenda is `t` itself, or neither `t` nor `b`. */
  lemma FrontIs<T>(l: Loop<T>, t: Task<T>, b: nat)
    requires Waiting(l, t, b)
    ensures l.agenda != []
    ensures l.agenda[0] == t || (l.agenda[0].handle != t.handle && l.agenda[0].handle != b && t in l.agenda[1..])
  {
    var i :| 0 <= i < |l.agenda| && l.agenda[i] == t;
    if i > 0 {
      assert Before(l.agenda[0], t) && l.agenda[1..][i - 1] == t;
    }
  }

  /** Its first run is over; if it repeats it is pending again, under a new number. */
  lemma PoppedItself<T>(l: Loop<T>, script: Script<T>, t: Task<T>, b: nat)
    requires Waiting(l, t, b) && Ready(l) && l.agenda[0] == t
    ensures Turned(Result(Popped(l), script, [Runnable(t, l.now)]), t, b)
  {
    WaitingKnown(l, t);
    var rest := l.agenda[1..];
    if t.repeat.Some? {
      InsertKeeps(rest, Rescheduled(l, t));
    }
    assert Runs([Runnable(t, l.now)][0], t.handle);
  }

  lemma PoppedOnce<T>(l: Loop<T>, script: Script<T>, t: Task<T>, b: nat)
    requires Waiting(l, t, b) && Ready(l) && l.agenda[0] != t && l.agenda[0].repeat.None?
    ensures Turned(Result(Popped(l), script, [Runnable(l.agenda[0], l.now)]), t, b)
  {
    FrontIs(l, t, b);
    WaitingKnown(l, t);
    StillAhead(l, t, b);
    StillFirst(l, t, b);
  }

  lemma PoppedAgain<T>(l: Loop<T>, script: Script<T>, t: Task<T>, b: nat)
    requires Waiting(l, t, b) && Ready(l) && l.agenda[0] != t && l.agenda[0].repeat.Some?
    ensures Turned(Result(Popped(l), script, [Runnable(l.agenda[0], l.now)]), t, b)
  {
    FrontIs(l, t, b);
    WaitingKnown(l, t);
    var rest, u := l.agenda[1..], Rescheduled(l, l.agenda[0]);
    InsertMembers(rest, u);
    assert t in multiset(rest) && t in multiset(Insert(rest, u));
    StillAhead(l, t, b);
    StillFirst(l, t, b);
    forall j | 0 <= j < |Popped(l).agenda| ensures Popped(l).agenda[j] == u || Popped(l).agenda[j] in rest {
      assert Popped(l).agenda[j] in multiset(Insert(rest, u));
    }
    hide Insert, Sound;
  }

  /** What is left behind the front is what was there. */
  lemma StillAhead<T>(l: Loop<T>, t: Task<T>, b: nat)
    requires Waiting(l, t, b)
    ensures forall x :: x in l.agenda[1..] ==>
      (x.handle == b ==> Before(t, x)) && (x.handle == t.handle ==> x == t)
  {
    forall x | x in l.agenda[1..] ensures (x.handle == b ==> Before(t, x)) && (x.handle == t.handle ==> x == t) {
      var i :| 0 <= i < |l.agenda[1..]| && l.agenda[1..][i] == x;
      assert l.agenda[i + 1] == x;
      var k :| 0 <= k < |l.agenda| && l.agenda[k] == t;
    }
  }

  lemma StillFirst<T>(l: Loop<T>, t: Task<T>, b: nat)
    requires Waiting(l, t, b) && l.agenda[0] != t
    ensures var ran := [Runnable(l.agenda[0], l.now)];
      && Absent(ran, t.handle) && Absent(ran, b) && FirstRunFirst(ran, t.handle, b) && OnceAtMost(ran, t.handle)
  {
    FrontIs(l, t, b);
    hide Sound;
  }

  lemma PoppedBehind<T>(l: Loop<T>, script: Script<T>, t: Task<T>, b: nat)
    requires Waiting(l, t, b) && Ready(l) && l.agenda[0] != t
    ensures Turned(Result(Popped(l), script, [Runnable(l.agenda[0], l.now)]), t, b)
  {
    if l.agenda[0].repeat.None? {
      PoppedOnce(l, script, t, b);
    } else {
      PoppedAgain(l, script, t, b);
    }
  }

  lemma PoppedTurned<T>(l: Loop<T>, script: Script<T>, t: Task<T>, b: nat)
    requires Waiting(l, t, b) && Ready(l)
    ensures Turned(Result(Popped(l), script, [Runnable(l.agenda[0], l.now)]), t, b)
  {
    if l.agenda[0] == t {
      PoppedItself(l, script, t, b);
    } else {
      PoppedBehind(l, script, t, b);
    }
  }

  // ---------- One after the other ----------

  lemma AbsentThen<T>(x: seq<Work<T>>, y: seq<Work<T>>, a: nat)
    ensures Absent(x + y, a) <==> Absent(x, a) && Absent(y, a)
  {
    var all := x + y;
    assert forall i :: 0 <= i < |y| ==> all[|x| + i] == y[i];
    assert forall i :: 0 <= i < |x| ==> all[i] == x[i];
  }

  lemma RunByEarlier<T>(x: seq<Work<T>>, y: seq<Work<T>>, a: nat, i: nat)
    requires RunBy(x, a, i)
    ensures RunBy(x + y, a, i)
  {
    var k :| 0 <= k < i && k < |x| && Runs(x[k], a);
    assert (x + y)[k] == x[k];
  }

  /** Neither has run yet when the second part begins. */
  lemma FirstThen<T>(x: seq<Work<T>>, y: seq<Work<T>>, a: nat, b: nat)
    requires Absent(x, a) && Absent(x, b) && FirstRunFirst(y, a, b)
    ensures FirstRunFirst(x + y, a, b)
    ensures OnceAtMost(y, a) ==> OnceAtMost(x + y, a)
  {
    var all := x + y;
    forall i, j | 0 <= i < j < |all| && Runs(all[i], b) && Runs(all[j], a) ensures RunBy(all, a, i) {
      assert i >= |x| && RunBy(y, a, i - |x|);
      var k :| 0 <= k < i - |x| && k < |y| && Runs(y[k], a);
      assert all[|x| + k] == y[k];
    }
    if OnceAtMost(y, a) {
      forall i, j | 0 <= i < j < |all| ensures !(Runs(all[i], a) && Runs(all[j], a)) {
        if i >= |x| {
          assert all[i] == y[i - |x|] && all[j] == y[j - |x|];
        }
      }
    }
  }

  /** The second part holds no run of `a`, or `a` ran in the first. */
  lemma ThenLater<T>(x: seq<Work<T>>, y: seq<Work<T>>, a: nat, b: nat)
    requires a != b && FirstRunFirst(x, a, b) && (Absent(x, a) ==> Absent(y, a))
    ensures FirstRunFirst(x + y, a, b)
    ensures OnceAtMost(x, a) && Absent(y, a) ==> OnceAtMost(x + y, a)
  {
    var all := x + y;
    forall i, j | 0 <= i < j < |all| && Runs(all[i], b) && Runs(all[j], a) ensures RunBy(all, a, i) {
      if j >= |x| {
        assert all[j] == y[j - |x|] && !Absent(y, a);
        var k :| 0 <= k < |x| && Runs(x[k], a);
        assert Runs(all[k], a);
        if i < k {
          assert Runs(x[i], b);
          RunByEarlier(x, y, a, i);
        }
      } else {
        assert RunBy(x, a, i);
        RunByEarlier(x, y, a, i);
      }
    }
  }

  lemma TurnedThen<T>(x: Result<T>, y: Result<T>, t: Task<T>, b: nat)
    requires Turned(x, t, b) && Kept(x.loop, y, t.handle) && t.handle != b
    requires t.handle < x.loop.nextHandle && t.sequence < x.loop.nextSequence
    requires t in x.loop.agenda ==> Turned(y, t, b)
    ensures Turned(Result(y.loop, y.script, x.ran + y.ran), t, b)
  {
    AbsentThen(x.ran, y.ran, t.handle);
    AbsentThen(x.ran, y.ran, b);
    if t in x.loop.agenda {
      FirstThen(x.ran, y.ran, t.handle, b);
    } else {
      assert t !in y.loop.agenda;
      ThenLater(x.ran, y.ran, t.handle, b);
    }
  }

  // ---------- Whatever executors do ----------

  /** Either `b` is a handle that was given out before, or it is not given out yet. */
  ghost predicate Settled<T>(l: Loop<T>, r: Result<T>, b: nat) {
    b < l.nextHandle || r.loop.nextHandle <= b
  }

  lemma {:induction false} DispatchTurned<T>(l: Loop<T>, script: Script<T>, t: Task<T>, b: nat)
    requires Waiting(l, t, b) && Settled(l, Dispatch(l, script), b)
    ensures Turned(Dispatch(l, script), t, b)
    decreases |script|, 0, 0
  {
    if script == [] {
      NothingRan(Dispatch(l, script), t, b);
    } else {
      RunCommandsTurned(l, script[0], script[1..], t, b);
    }
  }

  lemma {:induction false} RunCommandsTurned<T>(l: Loop<T>, commands: seq<Command<T>>, script: Script<T>, t: Task<T>,
      b: nat)
    requires Waiting(l, t, b) && Settled(l, RunCommands(l, commands, script), b)
    ensures Turned(RunCommands(l, commands, script), t, b)
    decreases |script|, 3, |commands|
  {
    if commands == [] {
      NothingRan(RunCommands(l, commands, script), t, b);
    } else {
      var first := RunCommand(l, commands[0], script);
      WaitingKnown(l, t);
      RunCommandKept(l, commands[0], script, t.handle);
      RunCommandsKept(first.loop, commands[1..], first.script, t.handle);
      RunCommandTurned(l, commands[0], script, t, b);
      if t in first.loop.agenda {
        RunCommandsTurned(first.loop, commands[1..], first.script, t, b);
      }
      TurnedThen(first, RunCommands(first.loop, commands[1..], first.script), t, b);
    }
  }

  lemma {:induction false} RunCommandTurned<T>(l: Loop<T>, c: Command<T>, script: Script<T>, t: Task<T>, b: nat)
    requires Waiting(l, t, b) && Settled(l, RunCommand(l, c, script), b)
    ensures Turned(RunCommand(l, c, script), t, b)
    decreases |script|, 3, 0
  {
    match c
    case QueueTask(source, delay, payload) => QueueTurned(l, source, delay, Outcome.None, payload, script, t, b);
    case QueueRepeatingTask(source, delay, interval, payload) =>
      QueueTurned(l, source, delay, Outcome.Some(Later(interval, MINIMUM_REPEAT_INTERVAL)), payload, script, t, b);
    case Cancel(cancelled) => CancelledTurned(l, cancelled, script, t, b);
    case Checkpoint => DrainTurned(l, script, t, b);
    case RunTask => RunOneTurned(l, script, t, b);
    case _ => NothingRan(RunCommand(l, c, script), t, b);
  }

  lemma {:induction false} DrainTurned<T>(l: Loop<T>, script: Script<T>, t: Task<T>, b: nat)
    requires Waiting(l, t, b) && Settled(l, Drain(l, script), b)
    ensures Turned(Drain(l, script), t, b)
    decreases |script|, 1, |l.microtasks| + 1
  {
    if l.performing {
      NothingRan(Drain(l, script), t, b);
    } else {
      DrainAllTurned(l.(performing := true), script, t, b);
    }
  }

  lemma {:induction false} DrainAllTurned<T>(l: Loop<T>, script: Script<T>, t: Task<T>, b: nat)
    requires Waiting(l, t, b) && Settled(l, DrainAll(l, script), b)
    ensures Turned(DrainAll(l, script), t, b)
    decreases |script|, 1, |l.microtasks|
  {
    if l.microtasks == [] {
      NothingRan(DrainAll(l, script), t, b);
    } else {
      var l' := l.(microtasks := l.microtasks[1..]);
      var first := Dispatch(l', script);
      WaitingKnown(l, t);
      DispatchKept(l', script, t.handle);
      DrainAllKept(first.loop, first.script, t.handle);
      DispatchTurned(l', script, t, b);
      if t in first.loop.agenda {
        DrainAllTurned(first.loop, first.script, t, b);
      }
      var begun := Result(first.loop, first.script, [Microtask(l.microtasks[0])] + first.ran);
      MicrotaskFirst(l.microtasks[0], first, t, b);
      TurnedThen(begun, DrainAll(first.loop, first.script), t, b);
    }
  }

  lemma MicrotaskFirst<T>(microtask: T, r: Result<T>, t: Task<T>, b: nat)
    requires Turned(r, t, b)
    ensures Turned(Result(r.loop, r.script, [Microtask(microtask)] + r.ran), t, b)
  {
    AbsentThen([Microtask(microtask)], r.ran, t.handle);
    AbsentThen([Microtask(microtask)], r.ran, b);
    FirstThen([Microtask(microtask)], r.ran, t.handle, b);
  }

  lemma {:induction false} RunOneTurned<T>(l: Loop<T>, script: Script<T>, t: Task<T>, b: nat)
    requires Waiting(l, t, b) && Settled(l, RunOne(l, script), b)
    ensures Turned(RunOne(l, script), t, b)
    decreases |script|, 2, 0
  {
    if !Ready(l) {
      NothingRan(RunOne(l, script), t, b);
    } else {
      var first := Dispatch(Popped(l), script);
      var rest := Drain(first.loop, first.script);
      WaitingKnown(l, t);
      PoppedKept(l, script, t.handle);
      DispatchKept(Popped(l), script, t.handle);
      DrainKept(first.loop, first.script, t.handle);
      PoppedTurned(l, script, t, b);
      var popped := Result(Popped(l), script, [Runnable(l.agenda[0], l.now)]);
      if t in Popped(l).agenda {
        DispatchTurned(Popped(l), script, t, b);
        if t in first.loop.agenda {
          DrainTurned(first.loop, first.script, t, b);
        }
      }
      TurnedThen(popped, first, t, b);
      var begun := Result(first.loop, first.script, popped.ran + first.ran);
      if t in first.loop.agenda {
        assert t in Popped(l).agenda;
      }
      TurnedThen(begun, rest, t, b);
    }
  }

  // ---------- Queue order ----------

  /** The loop when the second of two tasks has just been queued, and everything that ran since the first was. */
  function BothQueued<T>(l: Loop<T>, source: TaskSource, delay: Time, repeat: Outcome.Option<Time>, payload: T,
                         commands: seq<Command<T>>, script: Script<T>,
                         source': TaskSource, delay': Time, repeat': Outcome.Option<Time>, payload': T): Result<T>
  {
    var between := RunCommands(Queue(l, source, delay, repeat, payload), commands, script);
    Result(Queue(between.loop, source', delay', repeat', payload'), between.script, between.ran)
  }

  lemma FirstQueued<T>(l: Loop<T>, t: Task<T>, b: nat)
    requires Sound(l) && t.handle == l.nextHandle && t.sequence == l.nextSequence
      && (t.repeat.Some? ==> t.repeat.value > 0)
    requires l.nextHandle < b
    ensures var queued :=
      l.(agenda := Insert(l.agenda, t), nextHandle := l.nextHandle + 1, nextSequence := l.nextSequence + 1);
      Sound(queued) ==> Waiting(queued, t, b)
  {
    InsertMembers(l.agenda, t);
    assert t in multiset(Insert(l.agenda, t));
  }

  /** A task queued later with no shorter a delay stands behind one that still waits for its first run. */
  lemma QueuedBehind<T>(r: Result<T>, t: Task<T>, u: Task<T>, b: nat)
    requires Sound(r.loop) && Turned(r, t, b) && b == r.loop.nextHandle && t.handle < b
    requires u.handle == b && Before(t, u) && u.sequence == r.loop.nextSequence
    ensures Turned(Result(r.loop.(agenda := Insert(r.loop.agenda, u), nextHandle := b + 1,
                          nextSequence := u.sequence + 1),
                          r.script, r.ran), t, b)
  {
    InsertKeeps(r.loop.agenda, u);
    InsertMembers(r.loop.agenda, u);
    var s := Insert(r.loop.agenda, u);
    assert multiset(s) == multiset(r.loop.agenda) + multiset{u};
    assert t in s <==> t in multiset(s);
    assert t in r.loop.agenda <==> t in multiset(r.loop.agenda);
    hide Insert, FirstRunFirst, OnceAtMost, Absent;
  }

  lemma AddedInOrder(now: Time, now': Time, delay: Time, delay': Time)
    requires now <= now' && delay <= delay'
    ensures SaturatingAdd(now, delay) <= SaturatingAdd(now', delay')
  {
  }

  lemma KeptOnward<T>(l: Loop<T>, r: Result<T>, handle: nat)
    requires Kept(l, r, handle)
    ensures Sound(r.loop) && l.now <= r.loop.now
    ensures l.nextHandle <= r.loop.nextHandle && l.nextSequence <= r.loop.nextSequence
  {
  }

  lemma SecondQueued<T>(l: Loop<T>, source: TaskSource, delay: Time, repeat: Outcome.Option<Time>, payload: T,
                        commands: seq<Command<T>>, script: Script<T>,
                        source': TaskSource, delay': Time, repeat': Outcome.Option<Time>, payload': T)
    returns (t: Task<T>)
    requires Sound(l) && delay <= delay'
    requires (repeat.Some? ==> repeat.value > 0) && (repeat'.Some? ==> repeat'.value > 0)
    ensures var r := BothQueued(l, source, delay, repeat, payload, commands, script, source', delay', repeat',
      payload');
      && t.handle == l.nextHandle && t.repeat == repeat && t.handle < r.loop.nextHandle - 1
      && t.sequence < r.loop.nextSequence && Sound(r.loop)
      && Turned(r, t, r.loop.nextHandle - 1)
  {
    hide Insert, Turned, Waiting, Sound, Kept, RunCommands, SaturatingAdd;
    t := Task(SaturatingAdd(l.now, delay), l.nextSequence, l.nextHandle, source, repeat, payload);
    var queued := Queue(l, source, delay, repeat, payload);
    QueueSound(l, source, delay, repeat, payload);
    var between := RunCommands(queued, commands, script);
    RunCommandsKept(queued, commands, script, t.handle);
    KeptOnward(queued, between, t.handle);
    var b := between.loop.nextHandle;
    FirstQueued(l, t, b);
    RunCommandsTurned(queued, commands, script, t, b);
    QueueSound(between.loop, source', delay', repeat', payload');
    AddedInOrder(l.now, between.loop.now, delay, delay');
    var due' := SaturatingAdd(between.loop.now, delay');
    QueuedBehind(between, t, Task(due', between.loop.nextSequence, b, source', repeat', payload'), b);
  }

  /**
    * Of two tasks, the one queued earlier with no longer a delay runs first: over everything that
    * runs from then on, for whatever the executors do before, between and within, the second never
    * runs before the first has run once, unless the first never runs. A first task that does not
    * repeat runs at most once, nothing of it runs after anything of the second, and once the second
    * has run it is no longer pending.
    */
  lemma QueueOrder<T>(l: Loop<T>, source: TaskSource, delay: Time, repeat: Outcome.Option<Time>, payload: T,
                      commands: seq<Command<T>>, script: Script<T>,
                      source': TaskSource, delay': Time, repeat': Outcome.Option<Time>, payload': T,
                      commands': seq<Command<T>>, script': Script<T>)
    requires Sound(l) && delay <= delay'
    requires (repeat.Some? ==> repeat.value > 0) && (repeat'.Some? ==> repeat'.value > 0)
    ensures var both := BothQueued(l, source, delay, repeat, payload, commands, script, source', delay', repeat',
      payload');
      var after := RunCommands(both.loop, commands', script');
      var a, b, ran := l.nextHandle, both.loop.nextHandle - 1, both.ran + after.ran;
      && a < b && FirstRunFirst(ran, a, b)
      && (repeat.None? ==> OnceAtMost(ran, a) && InOrder(ran, a, b))
      && (repeat.None? && !Absent(ran, b) ==> !Pending(after.loop, a))
  {
    var both := BothQueued(l, source, delay, repeat, payload, commands, script, source', delay', repeat', payload');
    var t := SecondQueued(l, source, delay, repeat, payload, commands, script, source', delay', repeat', payload');
    var b := both.loop.nextHandle - 1;
    var after := RunCommands(both.loop, commands', script');
    RunCommandsKept(both.loop, commands', script', t.handle);
    if t in both.loop.agenda {
      RunCommandsTurned(both.loop, commands', script', t, b);
    }
    TurnedThen(both, after, t, b);
    if repeat.None? {
      OnceInOrder(both.ran + after.ran, t.handle, b);
    }
  }

  lemma OnceInOrder<T>(ran: seq<Work<T>>, a: nat, b: nat)
    requires FirstRunFirst(ran, a, b) && OnceAtMost(ran, a)
    ensures InOrder(ran, a, b)
  {
  }
}
