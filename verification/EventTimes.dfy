/** When tasks run: what each run was scheduled for, what the clock was then, and what becomes of pending work. */
module EventTimes {
  import Outcome
  import opened Totals
  import opened Agenda
  import opened EventLoop
  import opened EventOrder

  /** A point in time, or the end of time if it lies beyond. */
  function Capped(time: nat): (r: Time) {
    if time < DURATION_MAX then time else DURATION_MAX
  }

  /** What a task was queued as: everything but when it is due and the number it has in the queue. */
  datatype Order<+T> = Order(handle: nat, source: TaskSource, repeat: Outcome.Option<Time>, payload: T)

  /** What a task is due for next, if it was due for `due` before the trace. */
  ghost function NextDue<T>(ran: seq<Work<T>>, o: Order<T>, due: Time): Time {
    if ran == [] then due
    else
      var last := ran[|ran| - 1];
      if Runs(last, o.handle) && o.repeat.Some? then Capped(last.startedAt + o.repeat.value)
      else NextDue(ran[..|ran| - 1], o, due)
  }

  /** Whatever is pending under the handle is the task itself, due at that time. */
  ghost predicate Carries<T>(l: Loop<T>, o: Order<T>, due: Time) {
    forall t :: t in l.agenda && t.handle == o.handle ==>
      t.due == due && t.source == o.source && t.repeat == o.repeat && t.payload == o.payload
  }

  /** Tasks run within the time that passes, one after the other, and none before it is due. */
  ghost predicate Clocked<T>(from: Time, ran: seq<Work<T>>, to: Time) {
    && from <= to
    && (forall i :: 0 <= i < |ran| && ran[i].RunnableTask? ==>
         from <= ran[i].startedAt <= to && ran[i].scheduledFor <= ran[i].startedAt)
    && (forall i, j :: 0 <= i < j < |ran| && ran[i].RunnableTask? && ran[j].RunnableTask? ==>
         ran[i].startedAt <= ran[j].startedAt)
  }

  /** Every run of the task is as it was queued, and for the time it was due. */
  ghost predicate Punctual<T>(ran: seq<Work<T>>, o: Order<T>, due: Time) {
    forall i :: 0 <= i < |ran| && Runs(ran[i], o.handle) ==>
      ran[i] == RunnableTask(o.handle, o.source, NextDue(ran[..i], o, due), o.repeat.Some?, o.payload, ran[i].startedAt)
  }

  ghost predicate Timed<T>(l: Loop<T>, r: Result<T>, o: Order<T>, due: Time) {
    && Clocked(l.now, r.ran, r.loop.now)
    && Punctual(r.ran, o, due)
    && Carries(r.loop, o, NextDue(r.ran, o, due))
  }

  // ---------- One after the other ----------

  lemma {:induction false} NextDueThen<T>(x: seq<Work<T>>, y: seq<Work<T>>, o: Order<T>, due: Time)
    ensures NextDue(x + y, o, due) == NextDue(y, o, NextDue(x, o, due))
    decreases |y|
  {
    if y == [] {
      assert x + y == x;
    } else {
      var n := |y| - 1;
      assert (x + y)[..|x| + n] == x + y[..n];
      NextDueThen(x, y[..n], o, due);
    }
  }

  lemma PunctualThen<T>(x: seq<Work<T>>, y: seq<Work<T>>, o: Order<T>, due: Time)
    requires Punctual(x, o, due) && Punctual(y, o, NextDue(x, o, due))
    ensures Punctual(x + y, o, due)
  {
    var all := x + y;
    forall i | 0 <= i < |all| && Runs(all[i], o.handle)
      ensures all[i] ==
        RunnableTask(o.handle, o.source, NextDue(all[..i], o, due), o.repeat.Some?, o.payload, all[i].startedAt)
    {
      if i < |x| {
        assert all[i] == x[i] && all[..i] == x[..i];
      } else {
        assert all[i] == y[i - |x|] && all[..i] == x + y[..i - |x|];
        NextDueThen(x, y[..i - |x|], o, due);
      }
    }
  }

  lemma ClockedThen<T>(a: Time, x: seq<Work<T>>, b: Time, y: seq<Work<T>>, c: Time)
    requires Clocked(a, x, b) && Clocked(b, y, c)
    ensures Clocked(a, x + y, c)
  {
    var all := x + y;
    assert forall i :: 0 <= i < |x| ==> all[i] == x[i];
    assert forall i :: |x| <= i < |all| ==> all[i] == y[i - |x|];
  }

  lemma ThenTimed<T>(l: Loop<T>, a: Result<T>, b: Result<T>, o: Order<T>, due: Time)
    requires Timed(l, a, o, due) && Timed(a.loop, b, o, NextDue(a.ran, o, due))
    ensures Timed(l, Result(b.loop, b.script, a.ran + b.ran), o, due)
  {
    hide Punctual, Clocked, NextDue, Carries;
    ClockedThen(l.now, a.ran, a.loop.now, b.ran, b.loop.now);
    PunctualThen(a.ran, b.ran, o, due);
    NextDueThen(a.ran, b.ran, o, due);
  }

  // ---------- Single steps ----------

  lemma NothingTimed<T>(l: Loop<T>, r: Result<T>, o: Order<T>, due: Time)
    requires r.ran == [] && l.now <= r.loop.now && Carries(r.loop, o, due)
    ensures Timed(l, r, o, due)
  {
  }

  lemma QueueTimed<T>(l: Loop<T>, source: TaskSource, delay: Time, repeat: Outcome.Option<Time>, payload: T,
                      script: Script<T>,
                      o: Order<T>, due: Time)
    requires Sound(l) && o.handle < l.nextHandle && Carries(l, o, due)
    ensures Timed(l, Result(Queue(l, source, delay, repeat, payload), script, []), o, due)
  {
    var u := Task(SaturatingAdd(l.now, delay), l.nextSequence, l.nextHandle, source, repeat, payload);
    var s := Insert(l.agenda, u);
    InsertMembers(l.agenda, u);
    forall t | t in s ensures t == u || t in l.agenda {
      assert t in multiset(s);
    }
  }

  lemma CancelledTimed<T>(l: Loop<T>, cancelled: nat, script: Script<T>, o: Order<T>, due: Time)
    requires Carries(l, o, due)
    ensures Timed(l, Result(Cancelled(l, cancelled), script, []), o, due)
  {
    forall t | t in Cancelled(l, cancelled).agenda ensures t in l.agenda {
      FilterIn(l.agenda, Other(cancelled), t);
    }
  }

  lemma PoppedTimed<T>(l: Loop<T>, script: Script<T>, o: Order<T>, due: Time)
    requires Sound(l) && Ready(l) && Carries(l, o, due)
    ensures Timed(l, Result(Popped(l), script, [Runnable(l.agenda[0], l.now)]), o, due)
  {
    var front, rest := l.agenda[0], l.agenda[1..];
    var ran := [Runnable(front, l.now)];
    assert ran[..0] == [];
    forall t | t in rest ensures t in l.agenda && t.handle != front.handle {
      var i :| 0 <= i < |rest| && rest[i] == t;
      assert l.agenda[i + 1] == t;
    }
    assert NextDue(ran, o, due) ==
      if front.handle == o.handle && o.repeat.Some? then Capped(l.now + o.repeat.value) else due;
    if front.repeat.Some? {
      var u := Rescheduled(l, front);
      InsertMembers(rest, u);
      forall t | t in Popped(l).agenda ensures t == u || t in rest {
        assert t in multiset(Popped(l).agenda);
      }
    }
  }

  lemma MicrotaskTimed<T>(l: Loop<T>, script: Script<T>, o: Order<T>, due: Time)
    requires l.microtasks != [] && Carries(l, o, due)
    ensures Timed(l, Result(l.(microtasks := l.microtasks[1..]), script, [Microtask(l.microtasks[0])]), o, due)
  {
    var ran: seq<Work<T>> := [Microtask(l.microtasks[0])];
    assert ran[..0] == [];
    assert NextDue(ran, o, due) == due;
  }

  // ---------- Whatever executors do ----------

  /** The task is known, and pending as it is or not at all. */
  ghost predicate Known<T>(l: Loop<T>, o: Order<T>, due: Time) {
    Sound(l) && o.handle < l.nextHandle && Carries(l, o, due)
  }

  lemma KnownAfter<T>(l: Loop<T>, r: Result<T>, o: Order<T>, due: Time)
    requires o.handle < l.nextHandle && Kept(l, r, o.handle) && Timed(l, r, o, due)
    ensures Known(r.loop, o, NextDue(r.ran, o, due))
  {
    hide Clocked, Punctual, NextDue;
  }

  lemma {:induction false} DispatchTimed<T>(l: Loop<T>, script: Script<T>, o: Order<T>, due: Time)
    requires Known(l, o, due)
    ensures Timed(l, Dispatch(l, script), o, due)
    decreases |script|, 0, 0
  {
    hide Known;
    if script == [] {
      assert Known(l, o, due);
      KnownNothing(l, Dispatch(l, script), o, due);
    } else {
      RunCommandsTimed(l, script[0], script[1..], o, due);
    }
  }

  lemma KnownNothing<T>(l: Loop<T>, r: Result<T>, o: Order<T>, due: Time)
    requires Known(l, o, due) && r.ran == [] && r.loop.agenda == l.agenda && l.now <= r.loop.now
    ensures Timed(l, r, o, due)
  {
    NothingTimed(l, r, o, due);
  }

  lemma {:induction false} RunCommandsTimed<T>(l: Loop<T>, commands: seq<Command<T>>, script: Script<T>, o: Order<T>,
                                               due: Time)
    requires Known(l, o, due)
    ensures Timed(l, RunCommands(l, commands, script), o, due)
    decreases |script|, 3, |commands|
  {
    assert Sound(l) && o.handle < l.nextHandle;
    hide Known, Timed, Kept, RunCommand;
    if commands == [] {
      KnownNothing(l, RunCommands(l, commands, script), o, due);
    } else {
      var first := RunCommand(l, commands[0], script);
      RunCommandKept(l, commands[0], script, o.handle);
      RunCommandTimed(l, commands[0], script, o, due);
      KnownAfter(l, first, o, due);
      RunCommandsTimed(first.loop, commands[1..], first.script, o, NextDue(first.ran, o, due));
      ThenTimed(l, first, RunCommands(first.loop, commands[1..], first.script), o, due);
    }
  }

  lemma {:induction false} RunCommandTimed<T>(l: Loop<T>, c: Command<T>, script: Script<T>, o: Order<T>, due: Time)
    requires Known(l, o, due)
    ensures Timed(l, RunCommand(l, c, script), o, due)
    decreases |script|, 3, 0
  {
    hide Timed, Drain, RunOne, Queue, Cancelled;
    match c
    case QueueTask(source, delay, payload) => QueueTimed(l, source, delay, Outcome.None, payload, script, o, due);
    case QueueRepeatingTask(source, delay, interval, payload) =>
      QueueTimed(l, source, delay, Outcome.Some(Later(interval, MINIMUM_REPEAT_INTERVAL)), payload, script, o, due);
    case Cancel(cancelled) => CancelledTimed(l, cancelled, script, o, due);
    case Clear => NothingTimed(l, RunCommand(l, c, script), o, due);
    case Checkpoint => DrainTimed(l, script, o, due);
    case RunTask => RunOneTimed(l, script, o, due);
    case _ => KnownNothing(l, RunCommand(l, c, script), o, due);
  }

  lemma {:induction false} DrainTimed<T>(l: Loop<T>, script: Script<T>, o: Order<T>, due: Time)
    requires Known(l, o, due)
    ensures Timed(l, Drain(l, script), o, due)
    decreases |script|, 1, |l.microtasks| + 1
  {
    if l.performing {
      KnownNothing(l, Drain(l, script), o, due);
    } else {
      var open := l.(performing := true);
      assert Known(open, o, due);
      DrainAllTimed(open, script, o, due);
      hide DrainAll, Known, Clocked, Punctual, NextDue;
    }
  }

  lemma {:induction false} DrainAllTimed<T>(l: Loop<T>, script: Script<T>, o: Order<T>, due: Time)
    requires Known(l, o, due)
    ensures Timed(l, DrainAll(l, script), o, due)
    decreases |script|, 1, |l.microtasks|
  {
    if l.microtasks == [] {
      KnownNothing(l, DrainAll(l, script), o, due);
    } else {
      var l' := l.(microtasks := l.microtasks[1..]);
      assert Known(l', o, due) && Sound(l') && o.handle < l'.nextHandle;
      MicrotaskTimed(l, script, o, due);
      hide Known, Timed, Kept, Dispatch, Sound, Carries;
      var first := Dispatch(l', script);
      DispatchKept(l', script, o.handle);
      DispatchTimed(l', script, o, due);
      KnownAfter(l', first, o, due);
      DrainAllTimed(first.loop, first.script, o, NextDue(first.ran, o, due));
      var microtask := Result(l', script, [Microtask(l.microtasks[0])]);
      assert NextDue(microtask.ran, o, due) == due by { NextDueMicrotask(l.microtasks[0], o, due); }
      ThenTimed(l, microtask, first, o, due);
      var begun := Result(first.loop, first.script, microtask.ran + first.ran);
      NextDueThen(microtask.ran, first.ran, o, due);
      hide NextDue;
      ThenTimed(l, begun, DrainAll(first.loop, first.script), o, due);
    }
  }

  lemma NextDueMicrotask<T>(microtask: T, o: Order<T>, due: Time)
    ensures NextDue([Microtask(microtask)], o, due) == due
  {
    var ran: seq<Work<T>> := [Microtask(microtask)];
    assert ran[..0] == [];
  }

  lemma {:induction false} RunOneTimed<T>(l: Loop<T>, script: Script<T>, o: Order<T>, due: Time)
    requires Known(l, o, due)
    ensures Timed(l, RunOne(l, script), o, due)
    decreases |script|, 2, 0
  {
    if !Ready(l) {
      KnownNothing(l, RunOne(l, script), o, due);
    } else {
      var popped := Result(Popped(l), script, [Runnable(l.agenda[0], l.now)]);
      PoppedTimed(l, script, o, due);
      PoppedKept(l, script, o.handle);
      KnownAfter(l, popped, o, due);
      var later := NextDue(popped.ran, o, due);
      hide Timed, Dispatch, Drain, Popped, Ready, NextDue;
      var first := Dispatch(popped.loop, script);
      assert Sound(popped.loop) && o.handle < popped.loop.nextHandle;
      DispatchKept(popped.loop, script, o.handle);
      DispatchTimed(popped.loop, script, o, later);
      KnownAfter(popped.loop, first, o, later);
      ThenTimed(l, popped, first, o, due);
      hide Known, Kept, Sound;
      var begun := Result(first.loop, first.script, popped.ran + first.ran);
      NextDueThen(popped.ran, first.ran, o, due);
      DrainTimed(first.loop, first.script, o, NextDue(first.ran, o, later));
      ThenTimed(l, begun, Drain(first.loop, first.script), o, due);
    }
  }

  // ---------- Nothing is lost ----------

  /** Neither cancels this handle nor clears everything. */
  predicate Spares<T>(c: Command<T>, handle: nat) {
    !c.Clear? && !(c.Cancel? && c.handle == handle)
  }

  ghost predicate SparesAll<T>(commands: seq<Command<T>>, handle: nat) {
    forall i :: 0 <= i < |commands| ==> Spares(commands[i], handle)
  }

  ghost predicate SparesScript<T>(script: Script<T>, handle: nat) {
    forall i :: 0 <= i < |script| ==> SparesAll(script[i], handle)
  }

  /** The last run of the handle: that of a task that does not repeat. */
  ghost predicate Spent<T>(ran: seq<Work<T>>, handle: nat) {
    exists i :: 0 <= i < |ran| && Runs(ran[i], handle) && !ran[i].repeating
  }

  /** The microtasks given to the executor, in order. */
  function Given<T>(ran: seq<Work<T>>): seq<T> {
    if ran == [] then []
    else
      var last := ran[|ran| - 1];
      Given(ran[..|ran| - 1]) + (if last.Microtask? then [last.payload] else [])
  }

  lemma {:induction false} GivenThen<T>(x: seq<Work<T>>, y: seq<Work<T>>)
    ensures Given(x + y) == Given(x) + Given(y)
    decreases |y|
  {
    if y == [] {
      assert x + y == x;
    } else {
      var n := |y| - 1;
      assert (x + y)[..|x| + n] == x + y[..n];
      GivenThen(x, y[..n]);
    }
  }

  /**
    * A pending task is still pending or has had its one run, and the microtasks that waited were given
    * out in order, before any that came later, or still wait in front of them.
    */
  ghost predicate Preserved<T>(l: Loop<T>, r: Result<T>, handle: nat) {
    && SparesScript(r.script, handle)
    && (Pending(l, handle) ==> Pending(r.loop, handle) || Spent(r.ran, handle))
    && l.microtasks <= Given(r.ran) + r.loop.microtasks
  }

  lemma SpentThen<T>(x: seq<Work<T>>, y: seq<Work<T>>, handle: nat)
    ensures Spent(x, handle) || Spent(y, handle) ==> Spent(x + y, handle)
  {
    if i :| 0 <= i < |x| && Runs(x[i], handle) && !x[i].repeating {
      assert (x + y)[i] == x[i];
    }
    if i :| 0 <= i < |y| && Runs(y[i], handle) && !y[i].repeating {
      assert (x + y)[|x| + i] == y[i];
    }
  }

  lemma ThenPreserved<T>(l: Loop<T>, a: Result<T>, b: Result<T>, handle: nat)
    requires Preserved(l, a, handle) && Preserved(a.loop, b, handle)
    ensures Preserved(l, Result(b.loop, b.script, a.ran + b.ran), handle)
  {
    hide Given, Spent, Pending, SparesScript;
    SpentThen(a.ran, b.ran, handle);
    GivenThen(a.ran, b.ran);
    assert Given(a.ran) + (Given(b.ran) + b.loop.microtasks) == Given(a.ran + b.ran) + b.loop.microtasks;
    assert Given(a.ran) + a.loop.microtasks <= Given(a.ran) + (Given(b.ran) + b.loop.microtasks);
  }

  lemma SamePreserved<T>(l: Loop<T>, r: Result<T>, handle: nat)
    requires SparesScript(r.script, handle) && r.ran == [] && l.microtasks <= r.loop.microtasks
    requires r.loop.agenda == l.agenda
    ensures Preserved(l, r, handle)
  {
    assert Given(r.ran) + r.loop.microtasks == r.loop.microtasks;
  }

  lemma QueuePreserved<T>(l: Loop<T>, source: TaskSource, delay: Time, repeat: Outcome.Option<Time>, payload: T,
                          script: Script<T>, handle: nat)
    requires SparesScript(script, handle)
    ensures Preserved(l, Result(Queue(l, source, delay, repeat, payload), script, []), handle)
  {
    var u := Task(SaturatingAdd(l.now, delay), l.nextSequence, l.nextHandle, source, repeat, payload);
    var s := Insert(l.agenda, u);
    InsertMembers(l.agenda, u);
    if Pending(l, handle) {
      var i :| 0 <= i < |l.agenda| && l.agenda[i].handle == handle;
      assert l.agenda[i] in multiset(s);
      var j :| 0 <= j < |s| && s[j] == l.agenda[i];
    }
    assert Given<T>([]) + l.microtasks == l.microtasks;
  }

  lemma CancelledPreserved<T>(l: Loop<T>, cancelled: nat, script: Script<T>, handle: nat)
    requires SparesScript(script, handle) && cancelled != handle
    ensures Preserved(l, Result(Cancelled(l, cancelled), script, []), handle)
  {
    var s := Cancelled(l, cancelled).agenda;
    if Pending(l, handle) {
      var i :| 0 <= i < |l.agenda| && l.agenda[i].handle == handle;
      FilterIn(l.agenda, Other(cancelled), l.agenda[i]);
      var j :| 0 <= j < |s| && s[j] == l.agenda[i];
    }
    assert Given<T>([]) + l.microtasks == l.microtasks;
  }

  lemma PoppedPreserved<T>(l: Loop<T>, script: Script<T>, handle: nat)
    requires SparesScript(script, handle) && Ready(l)
    ensures Preserved(l, Result(Popped(l), script, [Runnable(l.agenda[0], l.now)]), handle)
  {
    var front, rest := l.agenda[0], l.agenda[1..];
    var ran, s := [Runnable(front, l.now)], Popped(l).agenda;
    assert ran[..0] == [] && Given(ran) == [] && Given(ran) + l.microtasks == l.microtasks;
    if Pending(l, handle) {
      var i :| 0 <= i < |l.agenda| && l.agenda[i].handle == handle;
      if i == 0 && front.repeat.None? {
        assert Runs(ran[0], handle) && !ran[0].repeating;
      } else if front.repeat.Some? {
        var u := Rescheduled(l, front);
        InsertMembers(rest, u);
        var kept := if i == 0 then u else l.agenda[i];
        assert i == 0 || rest[i - 1] == kept;
        assert kept in multiset(s);
        var j :| 0 <= j < |s| && s[j] == kept;
      } else {
        assert s[i - 1] == l.agenda[i];
      }
    }
  }

  lemma MicrotaskPreserved<T>(l: Loop<T>, script: Script<T>, handle: nat)
    requires SparesScript(script, handle) && l.microtasks != []
    ensures Preserved(l, Result(l.(microtasks := l.microtasks[1..]), script, [Microtask(l.microtasks[0])]), handle)
  {
    var ran: seq<Work<T>> := [Microtask(l.microtasks[0])];
    assert ran[..0] == [] && Given(ran) == [l.microtasks[0]];
    assert Given(ran) + l.microtasks[1..] == l.microtasks;
  }

  lemma {:induction false} DispatchPreserved<T>(l: Loop<T>, script: Script<T>, handle: nat)
    requires SparesScript(script, handle)
    ensures Preserved(l, Dispatch(l, script), handle)
    decreases |script|, 0, 0
  {
    hide Preserved;
    if script == [] {
      SamePreserved(l, Dispatch(l, script), handle);
    } else {
      RunCommandsPreserved(l, script[0], script[1..], handle);
    }
  }

  lemma {:induction false} RunCommandsPreserved<T>(l: Loop<T>, commands: seq<Command<T>>, script: Script<T>,
      handle: nat)
    requires SparesAll(commands, handle) && SparesScript(script, handle)
    ensures Preserved(l, RunCommands(l, commands, script), handle)
    decreases |script|, 3, |commands|
  {
    hide Pending, Spent, Given;
    if commands == [] {
      SamePreserved(l, RunCommands(l, commands, script), handle);
    } else {
      var first := RunCommand(l, commands[0], script);
      RunCommandPreserved(l, commands[0], script, handle);
      RunCommandsPreserved(first.loop, commands[1..], first.script, handle);
      ThenPreserved(l, first, RunCommands(first.loop, commands[1..], first.script), handle);
    }
  }

  lemma {:induction false} RunCommandPreserved<T>(l: Loop<T>, c: Command<T>, script: Script<T>, handle: nat)
    requires Spares(c, handle) && SparesScript(script, handle)
    ensures Preserved(l, RunCommand(l, c, script), handle)
    decreases |script|, 3, 0
  {
    hide Preserved, Drain, RunOne, Queue, Cancelled;
    match c
    case QueueTask(source, delay, payload) => QueuePreserved(l, source, delay, Outcome.None, payload, script, handle);
    case QueueRepeatingTask(source, delay, interval, payload) =>
      QueuePreserved(l, source, delay, Outcome.Some(Later(interval, MINIMUM_REPEAT_INTERVAL)), payload, script, handle);
    case Cancel(cancelled) => CancelledPreserved(l, cancelled, script, handle);
    case Checkpoint => DrainPreserved(l, script, handle);
    case RunTask => RunOnePreserved(l, script, handle);
    case _ => SamePreserved(l, RunCommand(l, c, script), handle);
  }

  lemma {:induction false} DrainPreserved<T>(l: Loop<T>, script: Script<T>, handle: nat)
    requires SparesScript(script, handle)
    ensures Preserved(l, Drain(l, script), handle)
    decreases |script|, 1, |l.microtasks| + 1
  {
    if l.performing {
      SamePreserved(l, Drain(l, script), handle);
    } else {
      DrainAllPreserved(l.(performing := true), script, handle);
      hide DrainAll, Given, Spent, SparesScript;
    }
  }

  lemma {:induction false} DrainAllPreserved<T>(l: Loop<T>, script: Script<T>, handle: nat)
    requires SparesScript(script, handle)
    ensures Preserved(l, DrainAll(l, script), handle)
    decreases |script|, 1, |l.microtasks|
  {
    if l.microtasks == [] {
      SamePreserved(l, DrainAll(l, script), handle);
    } else {
      hide Given, Spent, Pending, Dispatch, SparesScript;
      var l' := l.(microtasks := l.microtasks[1..]);
      var first := Dispatch(l', script);
      MicrotaskPreserved(l, script, handle);
      DispatchPreserved(l', script, handle);
      DrainAllPreserved(first.loop, first.script, handle);
      hide Preserved;
      ThenPreserved(l, Result(l', script, [Microtask(l.microtasks[0])]), first, handle);
      var begun := Result(first.loop, first.script, [Microtask(l.microtasks[0])] + first.ran);
      ThenPreserved(l, begun, DrainAll(first.loop, first.script), handle);
    }
  }

  lemma {:induction false} RunOnePreserved<T>(l: Loop<T>, script: Script<T>, handle: nat)
    requires SparesScript(script, handle)
    ensures Preserved(l, RunOne(l, script), handle)
    decreases |script|, 2, 0
  {
    if !Ready(l) {
      SamePreserved(l, RunOne(l, script), handle);
    } else {
      hide Given, Spent, Pending, Dispatch, Drain, Popped, SparesScript;
      var popped := Result(Popped(l), script, [Runnable(l.agenda[0], l.now)]);
      PoppedPreserved(l, script, handle);
      var first := Dispatch(popped.loop, script);
      DispatchPreserved(popped.loop, script, handle);
      DrainPreserved(first.loop, first.script, handle);
      hide Preserved;
      ThenPreserved(l, popped, first, handle);
      var begun := Result(first.loop, first.script, popped.ran + first.ran);
      ThenPreserved(l, begun, Drain(first.loop, first.script), handle);
    }
  }

  // ---------- Checkpoints ----------

  /** Inside a checkpoint executors cannot open another: they run no microtask themselves. */
  ghost predicate Quiet<T>(ran: seq<Work<T>>) {
    forall i :: 0 <= i < |ran| ==> ran[i].RunnableTask?
  }

  lemma {:induction false} DispatchQuiet<T>(l: Loop<T>, script: Script<T>)
    requires l.performing
    ensures Quiet(Dispatch(l, script).ran)
    decreases |script|, 0, 0
  {
    if script != [] {
      RunCommandsQuiet(l, script[0], script[1..]);
    }
  }

  lemma {:induction false} RunCommandsQuiet<T>(l: Loop<T>, commands: seq<Command<T>>, script: Script<T>)
    requires l.performing
    ensures Quiet(RunCommands(l, commands, script).ran)
    decreases |script|, 3, |commands|
  {
    if commands != [] {
      var first := RunCommand(l, commands[0], script);
      RunCommandQuiet(l, commands[0], script);
      RunCommandsQuiet(first.loop, commands[1..], first.script);
      hide RunCommand;
    }
  }

  lemma {:induction false} RunCommandQuiet<T>(l: Loop<T>, c: Command<T>, script: Script<T>)
    requires l.performing
    ensures Quiet(RunCommand(l, c, script).ran)
    decreases |script|, 3, 0
  {
    match c
    case Checkpoint => assert Drain(l, script) == Result(l, script, []);
    case RunTask => RunOneQuiet(l, script);
    case _ =>
  }

  lemma {:induction false} RunOneQuiet<T>(l: Loop<T>, script: Script<T>)
    requires l.performing
    ensures Quiet(RunOne(l, script).ran)
    decreases |script|, 2, 0
  {
    if Ready(l) {
      DispatchQuiet(Popped(l), script);
    }
  }

  lemma {:induction false} GivenQuiet<T>(ran: seq<Work<T>>)
    requires Quiet(ran)
    ensures Given(ran) == []
  {
    if ran != [] {
      GivenQuiet(ran[..|ran| - 1]);
    }
  }

  lemma {:induction false} DrainGives<T>(l: Loop<T>, script: Script<T>)
    requires l.performing
    ensures |Given(DrainAll(l, script).ran)| == DrainCount(l, script)
    decreases |script|, |l.microtasks|
  {
    if l.microtasks == [] {
      DrainEnds(l, script);
    } else {
      DrainNext(l, script);
      var l' := l.(microtasks := l.microtasks[1..]);
      var first := Dispatch(l', script);
      DrainGives(first.loop, first.script);
      DispatchQuiet(l', script);
      GivenQuiet(first.ran);
      hide Dispatch, DrainAll, DrainCount;
      var rest := DrainAll(first.loop, first.script);
      var one: seq<Work<T>> := [Microtask(l.microtasks[0])];
      assert one[..0] == [];
      GivenThen(one, first.ran);
      GivenThen(one + first.ran, rest.ran);
      assert |Given(one)| == 1;
    }
  }

  /**
    * A checkpoint within a checkpoint does nothing; any other leaves no microtask behind, and reports
    * as many as it gave out.
    */
  lemma CheckpointExact<T>(l: Loop<T>, script: Script<T>)
    ensures var r := Drain(l, script);
      if l.performing then r == Result(l, script, []) && CheckpointCount(l, script) == 0
      else r.loop.microtasks == [] && !r.loop.performing && CheckpointCount(l, script) == |Given(r.ran)|
  {
    if !l.performing {
      DrainGives(l.(performing := true), script);
      DrainAllEmpties(l.(performing := true), script);
    }
  }

  // ---------- Render requests ----------

  function Requests<T>(scopes: seq<RenderScope>): seq<Command<T>> {
    seq(|scopes|, i requires 0 <= i < |scopes| => RequestRender(scopes[i]))
  }

  function Strongest(before: Outcome.Option<RenderScope>, scopes: seq<RenderScope>): Outcome.Option<RenderScope> {
    if before == Outcome.Some(Layout) || Layout in scopes then Outcome.Some(Layout)
    else if before == Outcome.Some(SurfacePixels) || SurfacePixels in scopes then Outcome.Some(SurfacePixels)
    else Outcome.None
  }

  lemma CoalesceOne<T>(l: Loop<T>, scope: RenderScope, scopes: seq<RenderScope>)
    ensures Strongest(Requested(l, scope).rendering, scopes) == Strongest(l.rendering, [scope] + scopes)
  {
  }

  /** Requests coalesce into one: for a layout if any of them asked for that. */
  lemma {:induction false} RequestsCoalesce<T>(l: Loop<T>, scopes: seq<RenderScope>, script: Script<T>)
    ensures var r := RunCommands(l, Requests(scopes), script);
      r == Result(l.(rendering := Strongest(l.rendering, scopes)), script, [])
    decreases |scopes|
  {
    var commands: seq<Command<T>> := Requests(scopes);
    if scopes != [] {
      assert commands != [] && commands[1..] == Requests(scopes[1..]) && commands[0] == RequestRender(scopes[0]);
      assert scopes == [scopes[0]] + scopes[1..];
      var first := RunCommand(l, commands[0], script);
      RequestsCoalesce(first.loop, scopes[1..], script);
      assert RunCommands(l, commands, script) == RunCommands(first.loop, commands[1..], script);
      CoalesceOne(l, scopes[0], scopes[1..]);
      assert first == Result(Requested(l, scopes[0]), script, []);
    } else {
      assert commands == [] && RunCommands(l, commands, script) == Result(l, script, []);
      match l.rendering
      case None =>
      case Some(Layout) =>
      case Some(SurfacePixels) =>
    }
  }

  /**
    * Microtasks run in the order they were queued and none is skipped: whatever executors do short of
    * clearing the loop, those waiting now are the next ones given out.
    */
  lemma MicrotasksInOrder<T>(l: Loop<T>, commands: seq<Command<T>>, script: Script<T>, handle: nat)
    requires SparesAll(commands, handle) && SparesScript(script, handle)
    ensures var r := RunCommands(l, commands, script);
      && (|Given(r.ran)| <= |l.microtasks| ==> Given(r.ran) <= l.microtasks)
      && (|Given(r.ran)| >= |l.microtasks| ==> l.microtasks <= Given(r.ran))
      && (|Given(r.ran)| <= |l.microtasks| ==> l.microtasks[|Given(r.ran)|..] <= r.loop.microtasks)
  {
    var r := RunCommands(l, commands, script);
    RunCommandsPreserved(l, commands, script, handle);
    hide RunCommands, Given, SparesAll, SparesScript, Pending, Spent;
    var given := Given(r.ran);
    assert forall i :: 0 <= i < |l.microtasks| ==> l.microtasks[i] == (given + r.loop.microtasks)[i];
  }

  // ---------- A queued task, from then on ----------

  lemma {:induction false} NextDueFirst<T>(ran: seq<Work<T>>, o: Order<T>, due: Time)
    requires Absent(ran, o.handle)
    ensures NextDue(ran, o, due) == due
  {
    if ran != [] {
      NextDueFirst(ran[..|ran| - 1], o, due);
    }
  }

  lemma {:induction false} NextDueLast<T>(ran: seq<Work<T>>, o: Order<T>, due: Time, i: nat)
    requires i < |ran| && Runs(ran[i], o.handle) && Absent(ran[i + 1..], o.handle) && o.repeat.Some?
    ensures NextDue(ran, o, due) == Capped(ran[i].startedAt + o.repeat.value)
    decreases |ran|
  {
    var n := |ran| - 1;
    if i < n {
      assert ran[i + 1..][n - i - 1] == ran[n];
      assert ran[..n][i + 1..] == ran[i + 1..][..n - i - 1];
      NextDueLast(ran[..n], o, due, i);
    }
  }

  predicate Asks<T>(c: Command<T>) {
    c.QueueTask? || c.QueueRepeatingTask?
  }

  /** The interval of a repeating task is at least one nanosecond. */
  function Interval<T>(c: Command<T>): Time
    requires c.QueueRepeatingTask?
  {
    if c.interval == 0 then 1 else c.interval
  }

  function OrderOf<T>(l: Loop<T>, c: Command<T>): Order<T>
    requires Asks(c)
  {
    Order(l.nextHandle, c.source, if c.QueueTask? then Outcome.None else Outcome.Some(Interval(c)), c.payload)
  }

  /** Queueing adds one task, due after its delay or at the end of time, and touches no other. */
  lemma QueuedExactly<T>(l: Loop<T>, c: Command<T>, script: Script<T>)
    requires Asks(c)
    ensures var r := RunCommand(l, c, script);
      var o := OrderOf(l, c);
      var t := Task(Capped(l.now + c.delay), l.nextSequence, o.handle, o.source, o.repeat, o.payload);
      && multiset(r.loop.agenda) == multiset(l.agenda) + multiset{t}
      && r.loop == l.(agenda := r.loop.agenda, nextHandle := l.nextHandle + 1, nextSequence := l.nextSequence + 1)
      && r.ran == [] && r.script == script
  {
    hide Insert, RunOne, Drain;
    var o := OrderOf(l, c);
    InsertMembers(l.agenda,
      Task(SaturatingAdd(l.now, c.delay), l.nextSequence, o.handle, o.source, o.repeat, o.payload));
  }

  lemma QueuedCarries<T>(l: Loop<T>, c: Command<T>, script: Script<T>) returns (t: Task<T>)
    requires Sound(l) && Asks(c)
    ensures var first := RunCommand(l, c, script).loop;
      && Known(first, OrderOf(l, c), Capped(l.now + c.delay)) && t in first.agenda
      && t.handle == l.nextHandle && t.repeat == OrderOf(l, c).repeat && Pending(first, l.nextHandle)
  {
    var first := RunCommand(l, c, script).loop;
    QueuedExactly(l, c, script);
    RunCommandKept(l, c, script, l.nextHandle);
    var o := OrderOf(l, c);
    t := Task(Capped(l.now + c.delay), l.nextSequence, o.handle, o.source, o.repeat, o.payload);
    hide RunCommand;
    assert t in multiset(first.agenda);
    forall x | x in first.agenda && x.handle == o.handle ensures x == t {
      assert x in multiset(first.agenda);
      assert x == t || x in l.agenda;
    }
  }

  lemma OneRun<T>(l: Loop<T>, commands: seq<Command<T>>, script: Script<T>, t: Task<T>)
    requires Sound(l) && t in l.agenda && t.repeat.None?
    ensures OnceAtMost(RunCommands(l, commands, script).ran, t.handle)
  {
    var b := RunCommands(l, commands, script).loop.nextHandle;
    RunCommandsKept(l, commands, script, t.handle);
    WaitingKnown(l, t);
    RunCommandsTurned(l, commands, script, t, b);
  }

  /** Every run is as the task was queued, within the time that passes, and not before it is due. */
  ghost predicate AsOrdered<T>(from: Time, r: Result<T>, o: Order<T>) {
    forall i :: 0 <= i < |r.ran| && Runs(r.ran[i], o.handle) ==>
      var w := r.ran[i];
      && w.source == o.source && w.payload == o.payload && w.repeating == o.repeat.Some?
      && from <= w.startedAt <= r.loop.now && w.scheduledFor <= w.startedAt
  }

  ghost predicate FirstFor<T>(ran: seq<Work<T>>, o: Order<T>, due: Time) {
    forall i :: 0 <= i < |ran| && Runs(ran[i], o.handle) && Absent(ran[..i], o.handle) ==> ran[i].scheduledFor == due
  }

  ghost predicate Consecutive<T>(ran: seq<Work<T>>, handle: nat, i: int, j: int) {
    0 <= i < j < |ran| && Runs(ran[i], handle) && Runs(ran[j], handle) && Absent(ran[i + 1..j], handle)
  }

  /** A run that follows another is scheduled for the clock of that one plus the interval. */
  ghost predicate Spaced<T>(ran: seq<Work<T>>, o: Order<T>) {
    forall i, j :: Consecutive(ran, o.handle, i, j) ==>
      o.repeat.Some? && ran[j].scheduledFor == Capped(ran[i].startedAt + o.repeat.value)
  }

  /** What is pending is due for `due`, or after a run for the clock of that run plus the interval. */
  ghost predicate DueNext<T>(r: Result<T>, o: Order<T>, due: Time) {
    && (Absent(r.ran, o.handle) ==> forall t :: t in r.loop.agenda && t.handle == o.handle ==> t.due == due)
    && (o.repeat.Some? ==>
         forall i :: 0 <= i < |r.ran| && Runs(r.ran[i], o.handle) && Absent(r.ran[i + 1..], o.handle) ==>
           forall t :: t in r.loop.agenda && t.handle == o.handle ==>
             t.due == Capped(r.ran[i].startedAt + o.repeat.value))
  }

  ghost predicate OnTime<T>(from: Time, r: Result<T>, o: Order<T>, due: Time) {
    AsOrdered(from, r, o) && FirstFor(r.ran, o, due) && Spaced(r.ran, o) && DueNext(r, o, due)
  }

  lemma FirstOnTime<T>(ran: seq<Work<T>>, o: Order<T>, due: Time)
    requires Punctual(ran, o, due)
    ensures FirstFor(ran, o, due)
  {
    forall i | 0 <= i < |ran| && Runs(ran[i], o.handle) && Absent(ran[..i], o.handle)
      ensures ran[i].scheduledFor == due
    {
      NextDueFirst(ran[..i], o, due);
    }
  }

  lemma LaterOnTime<T>(ran: seq<Work<T>>, o: Order<T>, due: Time, i: nat, j: nat)
    requires Punctual(ran, o, due) && (o.repeat.None? ==> OnceAtMost(ran, o.handle))
    requires Consecutive(ran, o.handle, i, j)
    ensures o.repeat.Some? && ran[j].scheduledFor == Capped(ran[i].startedAt + o.repeat.value)
  {
    if o.repeat.Some? {
      assert ran[..j][i + 1..] == ran[i + 1..j];
      NextDueLast(ran[..j], o, due, i);
    }
  }

  lemma AllSpaced<T>(ran: seq<Work<T>>, o: Order<T>, due: Time)
    requires Punctual(ran, o, due) && (o.repeat.None? ==> OnceAtMost(ran, o.handle))
    ensures Spaced(ran, o)
  {
    hide Punctual, OnceAtMost, Absent, NextDue;
    forall i, j | Consecutive(ran, o.handle, i, j)
      ensures o.repeat.Some? && ran[j].scheduledFor == Capped(ran[i].startedAt + o.repeat.value)
    {
      LaterOnTime(ran, o, due, i, j);
    }
  }

  lemma PendingOnTime<T>(r: Result<T>, o: Order<T>, due: Time)
    requires Carries(r.loop, o, NextDue(r.ran, o, due))
    ensures DueNext(r, o, due)
  {
    if Absent(r.ran, o.handle) {
      NextDueFirst(r.ran, o, due);
    }
    if o.repeat.Some? {
      forall i | 0 <= i < |r.ran| && Runs(r.ran[i], o.handle) && Absent(r.ran[i + 1..], o.handle)
        ensures NextDue(r.ran, o, due) == Capped(r.ran[i].startedAt + o.repeat.value)
      {
        NextDueLast(r.ran, o, due, i);
      }
    }
  }

  lemma FromTimed<T>(l: Loop<T>, r: Result<T>, o: Order<T>, due: Time)
    requires Timed(l, r, o, due) && (o.repeat.None? ==> OnceAtMost(r.ran, o.handle))
    ensures OnTime(l.now, r, o, due)
  {
    hide NextDue, Absent, OnceAtMost, Spaced, FirstFor, DueNext, Carries;
    FirstOnTime(r.ran, o, due);
    AllSpaced(r.ran, o, due);
    PendingOnTime(r, o, due);
  }

  /**
    * A queued task over everything that happens from then on: it runs on time, first for now plus its
    * delay; one that does not repeat runs at most once; and unless it is cancelled or everything is
    * cleared, it is still pending or has had its run.
    */
  lemma QueuedRuns<T>(l: Loop<T>, c: Command<T>, commands: seq<Command<T>>, script: Script<T>)
    requires Sound(l) && Asks(c)
    ensures var r := RunCommands(RunCommand(l, c, script).loop, commands, script);
      var repeat := if c.QueueTask? then Outcome.None else Outcome.Some(Interval(c));
      && OnTime(l.now, r, Order(l.nextHandle, c.source, repeat, c.payload), Capped(l.now + c.delay))
      && (c.QueueTask? ==> OnceAtMost(r.ran, l.nextHandle))
      && (SparesAll(commands, l.nextHandle) && SparesScript(script, l.nextHandle) ==>
           Pending(r.loop, l.nextHandle) || (c.QueueTask? && !Absent(r.ran, l.nextHandle)))
  {
    var o, due := OrderOf(l, c), Capped(l.now + c.delay);
    var first := RunCommand(l, c, script).loop;
    QueuedExactly(l, c, script);
    var t := QueuedCarries(l, c, script);
    assert Sound(first);
    hide RunCommand, Known, Sound;
    var r := RunCommands(first, commands, script);
    RunCommandsTimed(first, commands, script, o, due);
    if c.QueueTask? {
      OneRun(first, commands, script, t);
    }
    hide RunCommands, SparesAll, SparesScript, Given, OnTime;
    FromTimed(first, r, o, due);
    hide Timed, OnceAtMost;
    if SparesAll(commands, o.handle) && SparesScript(script, o.handle) {
      RunCommandsPreserved(first, commands, script, o.handle);
      if Spent(r.ran, o.handle) {
        LastRun(l.now, r, o, due);
      }
    }
  }

  lemma LastRun<T>(from: Time, r: Result<T>, o: Order<T>, due: Time)
    requires OnTime(from, r, o, due) && Spent(r.ran, o.handle)
    ensures o.repeat.None? && !Absent(r.ran, o.handle)
  {
  }
}
