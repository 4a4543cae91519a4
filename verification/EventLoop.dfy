/**
  * The event loop as values: an eager agenda, a microtask queue and a rendering request.
  *
  * An executor is arbitrary code that calls back into the scheduler. Any finite behaviour of one is
  * a script: the list of commands it issues at its first, second, ... invocation, and none after
  * the script has run out.
  */
module EventLoop {
  import opened Outcome
  import opened Totals
  import opened Agenda

  const MINIMUM_REPEAT_INTERVAL: Time := 1

  datatype RenderScope = Layout | SurfacePixels

  datatype Loop<+T> = Loop(
    now: Time,
    agenda: seq<Task<T>>,
    microtasks: seq<T>,
    nextHandle: nat,
    nextSequence: nat,
    performing: bool,
    rendering: Option<RenderScope>)

  datatype Command<+T> =
    | QueueTask(source: TaskSource, delay: Time, payload: T)
    | QueueRepeatingTask(source: TaskSource, delay: Time, interval: Time, payload: T)
    | Cancel(handle: nat)
    | QueueMicrotask(payload: T)
    | Clear
    | AdvanceTo(time: Time)
    | RequestRender(scope: RenderScope)
    | TakeRender
    | Checkpoint
    | RunTask

  type Script<+T> = seq<seq<Command<T>>>

  /** What an executor is given to run; for a task the trace also records what the clock was then. */
  datatype Work<+T> =
    | RunnableTask(handle: nat, source: TaskSource, scheduledFor: Time, repeating: bool, payload: T, startedAt: Time)
    | Microtask(payload: T)

  datatype Summary = Summary(task: nat, microtasksRun: nat)

  /** How a call leaves the loop, what is left of the script, and what ran, in order. */
  datatype Result<+T> = Result(loop: Loop<T>, script: Script<T>, ran: seq<Work<T>>)

  function Initial<T>(): Loop<T> {
    Loop(0, [], [], 1, 0, false, None)
  }

  /** Sound bookkeeping: the agenda is in order, and its handles and numbers were handed out. */
  ghost predicate Sound<T>(l: Loop<T>) {
    && Sorted(l.agenda) && Distinct(l.agenda)
    && forall i :: 0 <= i < |l.agenda| ==>
         && l.agenda[i].handle < l.nextHandle && l.agenda[i].sequence < l.nextSequence
         && (l.agenda[i].repeat.Some? ==> l.agenda[i].repeat.value > 0)
  }

  ghost predicate Pending<T>(l: Loop<T>, handle: nat) {
    exists i :: 0 <= i < |l.agenda| && l.agenda[i].handle == handle
  }

  function Queue<T>(l: Loop<T>, source: TaskSource, delay: Time, repeat: Option<Time>, payload: T): Loop<T> {
    l.(agenda := Insert(l.agenda,
       Task(SaturatingAdd(l.now, delay), l.nextSequence, l.nextHandle, source, repeat, payload)),
       nextHandle := l.nextHandle + 1,
       nextSequence := l.nextSequence + 1)
  }

  function Other<T>(handle: nat): Task<T> -> bool {
    (t: Task<T>) => t.handle != handle
  }

  function Cancelled<T>(l: Loop<T>, handle: nat): Loop<T> {
    l.(agenda := Filter(l.agenda, Other(handle)))
  }

  function Cleared<T>(l: Loop<T>): Loop<T> {
    l.(agenda := [], microtasks := [], rendering := None)
  }

  function Later(a: Time, b: Time): Time {
    if a < b then b else a
  }

  function Advanced<T>(l: Loop<T>, time: Time): Loop<T> {
    l.(now := Later(l.now, time))
  }

  function Requested<T>(l: Loop<T>, scope: RenderScope): Loop<T> {
    l.(rendering := if l.rendering == Some(Layout) then Some(Layout) else Some(scope))
  }

  predicate Ready<T>(l: Loop<T>) {
    l.agenda != [] && l.agenda[0].due <= l.now
  }

  function Rescheduled<T>(l: Loop<T>, t: Task<T>): Task<T>
    requires t.repeat.Some?
  {
    t.(due := SaturatingAdd(l.now, t.repeat.value), sequence := l.nextSequence)
  }

  /** The loop once the first task of its agenda has been taken off to run. */
  function Popped<T>(l: Loop<T>): Loop<T>
    requires Ready(l)
  {
    var t := l.agenda[0];
    if t.repeat.Some? then
      l.(agenda := Insert(l.agenda[1..], Rescheduled(l, t)), nextSequence := l.nextSequence + 1)
    else
      l.(agenda := l.agenda[1..])
  }

  function Runnable<T>(t: Task<T>, now: Time): Work<T> {
    RunnableTask(t.handle, t.source, t.due, t.repeat.Some?, t.payload, now)
  }

  // ---------- Running ----------

  /** One invocation of the executor: it issues the next list of commands of its script. */
  function Dispatch<T>(l: Loop<T>, script: Script<T>): (r: Result<T>)
    ensures |r.script| <= |script| && (script != [] ==> |r.script| < |script|)
    ensures script == [] ==> r == Result(l, [], [])
    ensures r.loop.performing == l.performing
    decreases |script|, 0, 0
  {
    if script == [] then Result(l, [], []) else RunCommands(l, script[0], script[1..])
  }

  function RunCommands<T>(l: Loop<T>, commands: seq<Command<T>>, script: Script<T>): (r: Result<T>)
    ensures |r.script| <= |script|
    ensures r.loop.performing == l.performing
    decreases |script|, 3, |commands|
  {
    if commands == [] then Result(l, script, [])
    else
      var first := RunCommand(l, commands[0], script);
      var rest := RunCommands(first.loop, commands[1..], first.script);
      Result(rest.loop, rest.script, first.ran + rest.ran)
  }

  function RunCommand<T>(l: Loop<T>, c: Command<T>, script: Script<T>): (r: Result<T>)
    ensures |r.script| <= |script|
    ensures r.loop.performing == l.performing
    decreases |script|, 3, 0
  {
    match c
    case QueueTask(source, delay, payload) => Result(Queue(l, source, delay, None, payload), script, [])
    case QueueRepeatingTask(source, delay, interval, payload) =>
      Result(Queue(l, source, delay, Some(Later(interval, MINIMUM_REPEAT_INTERVAL)), payload), script, [])
    case Cancel(handle) => Result(Cancelled(l, handle), script, [])
    case QueueMicrotask(payload) => Result(l.(microtasks := l.microtasks + [payload]), script, [])
    case Clear => Result(Cleared(l), script, [])
    case AdvanceTo(time) => Result(Advanced(l, time), script, [])
    case RequestRender(scope) => Result(Requested(l, scope), script, [])
    case TakeRender => Result(l.(rendering := None), script, [])
    case Checkpoint => Drain(l, script)
    case RunTask => RunOne(l, script)
  }

  /** A microtask checkpoint; one within another does nothing. */
  function Drain<T>(l: Loop<T>, script: Script<T>): (r: Result<T>)
    ensures |r.script| <= |script|
    ensures r.loop.performing == l.performing
    decreases |script|, 1, |l.microtasks| + 1
  {
    if l.performing then Result(l, script, [])
    else
      var r := DrainAll(l.(performing := true), script);
      r.(loop := r.loop.(performing := false))
  }

  function DrainAll<T>(l: Loop<T>, script: Script<T>): (r: Result<T>)
    ensures |r.script| <= |script|
    ensures r.loop.performing == l.performing
    decreases |script|, 1, |l.microtasks|
  {
    if l.microtasks == [] then Result(l, script, [])
    else
      var first := Dispatch(l.(microtasks := l.microtasks[1..]), script);
      var rest := DrainAll(first.loop, first.script);
      Result(rest.loop, rest.script, [Microtask(l.microtasks[0])] + first.ran + rest.ran)
  }

  /** How many microtasks a checkpoint itself takes off the queue. */
  function DrainCount<T>(l: Loop<T>, script: Script<T>): nat
    decreases |script|, |l.microtasks|
  {
    if l.microtasks == [] then 0
    else
      var first := Dispatch(l.(microtasks := l.microtasks[1..]), script);
      1 + DrainCount(first.loop, first.script)
  }

  /** One microtask on. */
  lemma DrainNext<T>(l: Loop<T>, script: Script<T>)
    requires l.microtasks != []
    ensures var first := Dispatch(l.(microtasks := l.microtasks[1..]), script);
      var rest := DrainAll(first.loop, first.script);
      && DrainAll(l, script) == Result(rest.loop, rest.script, [Microtask(l.microtasks[0])] + first.ran + rest.ran)
      && DrainCount(l, script) == 1 + DrainCount(first.loop, first.script)
  {
    hide Dispatch;
  }

  lemma DrainEnds<T>(l: Loop<T>, script: Script<T>)
    requires l.microtasks == []
    ensures DrainAll(l, script) == Result(l, script, []) && DrainCount(l, script) == 0
  {
  }

  function CheckpointCount<T>(l: Loop<T>, script: Script<T>): nat {
    if l.performing then 0 else DrainCount(l.(performing := true), script)
  }

  /** Runs the first ready task, then a microtask checkpoint. */
  function RunOne<T>(l: Loop<T>, script: Script<T>): (r: Result<T>)
    ensures |r.script| <= |script|
    ensures r.loop.performing == l.performing
    decreases |script|, 2, 0
  {
    if !Ready(l) then Result(l, script, [])
    else
      var first := Dispatch(Popped(l), script);
      var rest := Drain(first.loop, first.script);
      Result(rest.loop, rest.script, [Runnable(l.agenda[0], l.now)] + first.ran + rest.ran)
  }

  /** What a run reports: the task it ran and how many microtasks its checkpoint took. */
  function Summarized<T>(l: Loop<T>, script: Script<T>): Option<Summary> {
    if !Ready(l) then None
    else
      var first := Dispatch(Popped(l), script);
      Some(Summary(l.agenda[0].handle, CheckpointCount(first.loop, first.script)))
  }

  // ---------- Every step keeps the bookkeeping ----------

  lemma QueueSound<T>(l: Loop<T>, source: TaskSource, delay: Time, repeat: Option<Time>, payload: T)
    requires Sound(l) && (repeat.Some? ==> repeat.value > 0)
    ensures Sound(Queue(l, source, delay, repeat, payload))
  {
    var t := Task(SaturatingAdd(l.now, delay), l.nextSequence, l.nextHandle, source, repeat, payload);
    InsertKeeps(l.agenda, t);
    InsertSorted(l.agenda, t);
    forall i | 0 <= i < |l.agenda| + 1 ensures Insert(l.agenda, t)[i] in multiset(l.agenda + [t]) {
      InsertMembers(l.agenda, t);
      assert Insert(l.agenda, t)[i] in multiset(Insert(l.agenda, t));
      assert multiset(l.agenda + [t]) == multiset(l.agenda) + multiset{t};
    }
  }

  /** Inserting a task with a new handle and number keeps all of them distinct. */
  lemma {:induction false} InsertKeeps<T>(s: seq<Task<T>>, t: Task<T>)
    requires Distinct(s)
    requires forall i :: 0 <= i < |s| ==> s[i].handle != t.handle && s[i].sequence != t.sequence
    ensures Distinct(Insert(s, t))
    ensures forall i :: 0 <= i < |s| + 1 ==> Insert(s, t)[i] == t || exists j :: 0 <= j < |s| && s[j] == Insert(s, t)[i]
  {
    if s != [] && !Before(s[|s| - 1], t) {
      var n := |s| - 1;
      InsertKeeps(s[..n], t);
      forall i | 0 <= i < n + 1
        ensures Insert(s[..n], t)[i] == t || exists j :: 0 <= j < n && s[j] == Insert(s[..n], t)[i]
      {
        if Insert(s[..n], t)[i] != t {
          var j :| 0 <= j < n && s[..n][j] == Insert(s[..n], t)[i];
          assert s[j] == Insert(s[..n], t)[i];
        }
      }
    }
  }

  lemma PoppedSound<T>(l: Loop<T>)
    requires Sound(l) && Ready(l)
    ensures Sound(Popped(l))
  {
    var t := l.agenda[0];
    if t.repeat.Some? {
      InsertKeeps(l.agenda[1..], Rescheduled(l, t));
      InsertSorted(l.agenda[1..], Rescheduled(l, t));
    }
  }

  lemma {:induction false} FilterSorted<T>(s: seq<Task<T>>, keep: Task<T> -> bool)
    requires Sorted(s)
    ensures Sorted(Filter(s, keep))
  {
    if s != [] {
      var n := |s| - 1;
      FilterSorted(s[..n], keep);
      if n > 0 {
        FilteredBefore(s[..n], s[n], keep);
      }
    }
  }

  lemma CancelledSound<T>(l: Loop<T>, handle: nat)
    requires Sound(l)
    ensures Sound(Cancelled(l, handle)) && !Pending(Cancelled(l, handle), handle)
  {
    var r := Filter(l.agenda, Other(handle));
    FilterSorted(l.agenda, Other(handle));
    FilterDistinct(l.agenda, Other(handle));
    forall i | 0 <= i < |r| ensures r[i].handle != handle && exists j :: 0 <= j < |l.agenda| && l.agenda[j] == r[i] {
      FilterIn(l.agenda, Other(handle), r[i]);
    }
  }

  // ---------- Whatever executors do ----------

  /** No task with this handle is among the work. */
  ghost predicate Absent<T>(ran: seq<Work<T>>, handle: nat) {
    forall i :: 0 <= i < |ran| && ran[i].RunnableTask? ==> ran[i].handle != handle
  }

  /** The task was pending before; it is the very same one unless it repeats. */
  ghost predicate Stems<T>(t: Task<T>, agenda: seq<Task<T>>) {
    exists j :: 0 <= j < |agenda| && agenda[j].handle == t.handle && agenda[j].repeat == t.repeat
      && (t.repeat.None? ==> agenda[j] == t)
  }

  /**
    * The bookkeeping is sound, no handle or number is reused, clock and counters never go back, only
    * handles that were given out run, and a handle that is gone stays gone and never runs.
    */
  ghost predicate Kept<T>(l: Loop<T>, r: Result<T>, handle: nat) {
    && Sound(r.loop)
    && l.nextHandle <= r.loop.nextHandle && l.nextSequence <= r.loop.nextSequence && l.now <= r.loop.now
    && (forall i :: 0 <= i < |r.loop.agenda| && r.loop.agenda[i].handle < l.nextHandle ==>
         Stems(r.loop.agenda[i], l.agenda))
    && (forall i :: 0 <= i < |r.loop.agenda| && r.loop.agenda[i].sequence < l.nextSequence ==>
         r.loop.agenda[i] in l.agenda)
    && (forall i :: 0 <= i < |r.ran| && r.ran[i].RunnableTask? ==> r.ran[i].handle < r.loop.nextHandle)
    && (handle < l.nextHandle && !Pending(l, handle) ==> !Pending(r.loop, handle) && Absent(r.ran, handle))
  }

  lemma QueueKept<T>(l: Loop<T>, source: TaskSource, delay: Time, repeat: Option<Time>, payload: T, script: Script<T>,
      handle: nat)
    requires Sound(l) && (repeat.Some? ==> repeat.value > 0)
    ensures Kept(l, Result(Queue(l, source, delay, repeat, payload), script, []), handle)
  {
    QueueSound(l, source, delay, repeat, payload);
    InsertKeeps(l.agenda, Task(SaturatingAdd(l.now, delay), l.nextSequence, l.nextHandle, source, repeat, payload));
  }

  lemma PoppedKept<T>(l: Loop<T>, script: Script<T>, handle: nat)
    requires Sound(l) && Ready(l)
    ensures Kept(l, Result(Popped(l), script, [Runnable(l.agenda[0], l.now)]), handle)
  {
    PoppedSound(l);
    if l.agenda[0].repeat.Some? {
      InsertKeeps(l.agenda[1..], Rescheduled(l, l.agenda[0]));
    }
  }

  lemma CancelledKept<T>(l: Loop<T>, script: Script<T>, cancelled: nat, handle: nat)
    requires Sound(l)
    ensures Kept(l, Result(Cancelled(l, cancelled), script, []), handle)
  {
    CancelledSound(l, cancelled);
    forall i | 0 <= i < |Cancelled(l, cancelled).agenda|
      ensures exists j :: 0 <= j < |l.agenda| && l.agenda[j] == Cancelled(l, cancelled).agenda[i]
    {
      FilterIn(l.agenda, Other(cancelled), Cancelled(l, cancelled).agenda[i]);
    }
  }

  lemma KeptThen<T>(l: Loop<T>, a: Result<T>, b: Result<T>, handle: nat)
    requires Kept(l, a, handle) && Kept(a.loop, b, handle)
    ensures Kept(l, Result(b.loop, b.script, a.ran + b.ran), handle)
  {
    forall i | 0 <= i < |b.loop.agenda| && b.loop.agenda[i].handle < l.nextHandle
      ensures Stems(b.loop.agenda[i], l.agenda)
    {
      var t := b.loop.agenda[i];
      assert Stems(t, a.loop.agenda);
      var j :| 0 <= j < |a.loop.agenda| && a.loop.agenda[j].handle == t.handle && a.loop.agenda[j].repeat == t.repeat
        && (t.repeat.None? ==> a.loop.agenda[j] == t);
      assert Stems(a.loop.agenda[j], l.agenda);
    }
  }

  lemma {:induction false} DispatchKept<T>(l: Loop<T>, script: Script<T>, handle: nat)
    requires Sound(l)
    ensures Kept(l, Dispatch(l, script), handle)
    decreases |script|, 0, 0
  {
    if script != [] {
      RunCommandsKept(l, script[0], script[1..], handle);
    }
  }

  lemma {:induction false} RunCommandsKept<T>(l: Loop<T>, commands: seq<Command<T>>, script: Script<T>, handle: nat)
    requires Sound(l)
    ensures Kept(l, RunCommands(l, commands, script), handle)
    decreases |script|, 3, |commands|
  {
    if commands != [] {
      var first := RunCommand(l, commands[0], script);
      RunCommandKept(l, commands[0], script, handle);
      RunCommandsKept(first.loop, commands[1..], first.script, handle);
      KeptThen(l, first, RunCommands(first.loop, commands[1..], first.script), handle);
    }
  }

  lemma {:induction false} RunCommandKept<T>(l: Loop<T>, c: Command<T>, script: Script<T>, handle: nat)
    requires Sound(l)
    ensures Kept(l, RunCommand(l, c, script), handle)
    decreases |script|, 3, 0
  {
    match c
    case QueueTask(source, delay, payload) => QueueKept(l, source, delay, None, payload, script, handle);
    case QueueRepeatingTask(source, delay, interval, payload) =>
      QueueKept(l, source, delay, Some(Later(interval, MINIMUM_REPEAT_INTERVAL)), payload, script, handle);
    case Cancel(cancelled) => CancelledKept(l, script, cancelled, handle);
    case Checkpoint => DrainKept(l, script, handle);
    case RunTask => RunOneKept(l, script, handle);
    case _ =>
  }

  lemma {:induction false} DrainKept<T>(l: Loop<T>, script: Script<T>, handle: nat)
    requires Sound(l)
    ensures Kept(l, Drain(l, script), handle)
    decreases |script|, 1, |l.microtasks| + 1
  {
    if !l.performing {
      DrainAllKept(l.(performing := true), script, handle);
    }
  }

  lemma {:induction false} DrainAllKept<T>(l: Loop<T>, script: Script<T>, handle: nat)
    requires Sound(l)
    ensures Kept(l, DrainAll(l, script), handle)
    decreases |script|, 1, |l.microtasks|
  {
    if l.microtasks == [] {
      NothingKept(l, script, handle);
    } else {
      hide Dispatch, Kept, Sound;
      var l' := l.(microtasks := l.microtasks[1..]);
      var first := Dispatch(l', script);
      assert Sound(l') by { SameSound(l, l'); }
      DispatchKept(l', script, handle);
      KeptSound(l', first, handle);
      DrainAllKept(first.loop, first.script, handle);
      MicrotaskKept(l, script, handle);
      KeptThen(l, Result(l', script, [Microtask(l.microtasks[0])]), first, handle);
      var run := Result(first.loop, first.script, [Microtask(l.microtasks[0])] + first.ran);
      KeptThen(l, run, DrainAll(first.loop, first.script), handle);
    }
  }

  lemma SameSound<T>(l: Loop<T>, l': Loop<T>)
    requires Sound(l) && l' == l.(microtasks := l'.microtasks)
    ensures Sound(l')
  {
  }

  lemma KeptSound<T>(l: Loop<T>, r: Result<T>, handle: nat)
    requires Kept(l, r, handle)
    ensures Sound(r.loop)
  {
  }

  lemma NothingKept<T>(l: Loop<T>, script: Script<T>, handle: nat)
    requires Sound(l)
    ensures Kept(l, Result(l, script, []), handle)
  {
  }

  lemma MicrotaskKept<T>(l: Loop<T>, script: Script<T>, handle: nat)
    requires Sound(l) && l.microtasks != []
    ensures Kept(l, Result(l.(microtasks := l.microtasks[1..]), script, [Microtask(l.microtasks[0])]), handle)
  {
  }

  lemma {:induction false} RunOneKept<T>(l: Loop<T>, script: Script<T>, handle: nat)
    requires Sound(l)
    ensures Kept(l, RunOne(l, script), handle)
    decreases |script|, 2, 0
  {
    if Ready(l) {
      var first := Dispatch(Popped(l), script);
      PoppedKept(l, script, handle);
      DispatchKept(Popped(l), script, handle);
      DrainKept(first.loop, first.script, handle);
      KeptThen(l, Result(Popped(l), script, [Runnable(l.agenda[0], l.now)]), first, handle);
      var run := Result(first.loop, first.script, [Runnable(l.agenda[0], l.now)] + first.ran);
      KeptThen(l, run, Drain(first.loop, first.script), handle);
    }
  }

  /** A handle that was cancelled or cleared never runs again, whatever the executors go on to do. */
  lemma CancelledNeverRuns<T>(l: Loop<T>, handle: nat, commands: seq<Command<T>>, script: Script<T>)
    requires Sound(l) && handle < l.nextHandle
    ensures Absent(RunCommands(Cancelled(l, handle), commands, script).ran, handle)
    ensures Absent(RunCommands(Cleared(l), commands, script).ran, handle)
  {
    CancelledSound(l, handle);
    RunCommandsKept(Cancelled(l, handle), commands, script, handle);
    RunCommandsKept(Cleared(l), commands, script, handle);
  }

  lemma {:induction false} DrainAllEmpties<T>(l: Loop<T>, script: Script<T>)
    ensures DrainAll(l, script).loop.microtasks == []
    decreases |script|, |l.microtasks|
  {
    if l.microtasks != [] {
      var first := Dispatch(l.(microtasks := l.microtasks[1..]), script);
      DrainAllEmpties(first.loop, first.script);
    }
  }

  /** Outside a checkpoint, running a task leaves no microtask behind; inside one it leaves the checkpoint open. */
  lemma NoMicrotaskLeft<T>(l: Loop<T>, script: Script<T>)
    requires Ready(l) && !l.performing
    ensures RunOne(l, script).loop.microtasks == [] && !RunOne(l, script).loop.performing
  {
    var first := Dispatch(Popped(l), script);
    DrainAllEmpties(first.loop.(performing := true), first.script);
  }

  // ---------- Running everything that is ready ----------

  /** How many tasks of the agenda are due by now; they are its first ones. */
  function ReadyCount<T>(agenda: seq<Task<T>>, now: Time): (n: nat)
    ensures n <= |agenda|
  {
    if agenda == [] || agenda[0].due > now then 0 else 1 + ReadyCount(agenda[1..], now)
  }

  /** An executor that issues no commands. */
  ghost predicate Idle<T>(script: Script<T>) {
    forall i :: 0 <= i < |script| ==> script[i] == []
  }

  lemma {:induction false} ReadyCountExact<T>(agenda: seq<Task<T>>, now: Time)
    requires Sorted(agenda)
    ensures forall i :: 0 <= i < |agenda| ==> (agenda[i].due <= now <==> i < ReadyCount(agenda, now))
  {
    if agenda != [] && agenda[0].due <= now {
      ReadyCountExact(agenda[1..], now);
      forall i | 0 <= i < |agenda| ensures agenda[i].due <= now <==> i < ReadyCount(agenda, now) {
        if i > 0 {
          assert agenda[1..][i - 1] == agenda[i];
        }
      }
    } else if agenda != [] {
      forall i | 0 <= i < |agenda| ensures agenda[i].due > now {
        assert i == 0 || Before(agenda[0], agenda[i]);
      }
    }
  }

  /** A task inserted behind everything that is ready leaves the ready part alone. */
  lemma {:induction false} InsertAfterReady<T>(s: seq<Task<T>>, t: Task<T>, now: Time)
    requires Sorted(s) && t.due > now
    ensures ReadyCount(Insert(s, t), now) == ReadyCount(s, now)
    ensures Insert(s, t)[..ReadyCount(s, now)] == s[..ReadyCount(s, now)]
    decreases |s|
  {
    if s == [] {
      assert Insert(s, t) == [t];
    } else if s[0].due > now {
      InsertHead(s, t);
    } else {
      assert s == [s[0]] + s[1..];
      InsertBehind(s[0], s[1..], t);
      InsertAfterReady(s[1..], t, now);
      assert Insert(s, t)[1..] == Insert(s[1..], t);
    }
  }

  lemma {:induction false} InsertHead<T>(s: seq<Task<T>>, t: Task<T>)
    requires s != []
    ensures Insert(s, t)[0] == s[0] || Insert(s, t)[0] == t
  {
    if |s| > 1 && !Before(s[|s| - 1], t) {
      InsertHead(s[..|s| - 1], t);
    }
  }

  lemma {:induction false} IdleDispatch<T>(l: Loop<T>, script: Script<T>)
    requires Idle(script)
    ensures Dispatch(l, script).loop == l && Dispatch(l, script).ran == [] && Idle(Dispatch(l, script).script)
  {
  }

  lemma {:induction false} IdleDrain<T>(l: Loop<T>, script: Script<T>)
    requires Idle(script)
    ensures var r := DrainAll(l, script);
      r.loop == l.(microtasks := []) && Idle(r.script) && forall i :: 0 <= i < |r.ran| ==> r.ran[i].Microtask?
    decreases |l.microtasks|
  {
    if l.microtasks != [] {
      var l' := l.(microtasks := l.microtasks[1..]);
      IdleDispatch(l', script);
      IdleDrain(l', Dispatch(l', script).script);
    }
  }

  /** With an idle executor and the clock short of its end, one run consumes exactly one ready task. */
  lemma IdleRunOne<T>(l: Loop<T>, script: Script<T>)
    requires Sound(l) && Ready(l) && Idle(script) && l.now < DURATION_MAX
    ensures var r := RunOne(l, script);
      && r.loop.now == l.now && r.loop.agenda == Popped(l).agenda && Idle(r.script)
      && (forall i :: 1 <= i < |r.ran| ==> r.ran[i].Microtask?)
      && r.ran != [] && r.ran[0] == Runnable(l.agenda[0], l.now)
    ensures ReadyCount(Popped(l).agenda, l.now) == ReadyCount(l.agenda, l.now) - 1
    ensures Popped(l).agenda[..ReadyCount(l.agenda, l.now) - 1] == l.agenda[1..ReadyCount(l.agenda, l.now)]
  {
    IdleDispatch(Popped(l), script);
    IdleDrain(Popped(l).(performing := true), Dispatch(Popped(l), script).script);
    if l.agenda[0].repeat.Some? {
      InsertAfterReady(l.agenda[1..], Rescheduled(l, l.agenda[0]), l.now);
    }
  }

  /** Calls `RunOne` until it finds nothing ready. */
  ghost function RunReady<T>(l: Loop<T>, script: Script<T>): seq<Work<T>>
    requires Sound(l) && Idle(script) && l.now < DURATION_MAX
    decreases ReadyCount(l.agenda, l.now)
  {
    if !Ready(l) then []
    else
      var r := RunOne(l, script);
      IdleRunOne(l, script);
      PoppedSound(l);
      RunOneKept(l, script, 0);
      [r.ran[0]] + RunReady(r.loop, r.script)
  }

  lemma {:induction false} RunReadyPrefix<T>(l: Loop<T>, script: Script<T>)
    requires Sound(l) && Idle(script) && l.now < DURATION_MAX
    ensures |RunReady(l, script)| == ReadyCount(l.agenda, l.now)
    ensures forall i :: 0 <= i < ReadyCount(l.agenda, l.now) ==> RunReady(l, script)[i] == Runnable(l.agenda[i], l.now)
    decreases ReadyCount(l.agenda, l.now)
  {
    if Ready(l) {
      var r, n := RunOne(l, script), ReadyCount(l.agenda, l.now);
      IdleRunOne(l, script);
      RunOneKept(l, script, 0);
      RunReadyPrefix(r.loop, r.script);
      forall i | 0 <= i < n ensures RunReady(l, script)[i] == Runnable(l.agenda[i], l.now) {
        if i > 0 {
          assert r.loop.agenda[..n - 1][i - 1] == l.agenda[1..n][i - 1];
        }
      }
    }
  }

  /**
    * Running on with an idle executor ends, and runs every task that is due and no other, each once
    * and in agenda order: a repeating task comes due again only after the present instant.
    */
  lemma RunReadyExact<T>(l: Loop<T>, script: Script<T>)
    requires Sound(l) && Idle(script) && l.now < DURATION_MAX
    ensures forall t :: t in l.agenda ==> (t.due <= l.now <==> Runnable(t, l.now) in RunReady(l, script))
    ensures |RunReady(l, script)| <= |l.agenda|
    ensures forall i :: 0 <= i < |RunReady(l, script)| ==> RunReady(l, script)[i] == Runnable(l.agenda[i], l.now)
    ensures forall i, j :: 0 <= i < j < |RunReady(l, script)| ==>
      RunReady(l, script)[i].RunnableTask? && RunReady(l, script)[j].RunnableTask?
      && RunReady(l, script)[i].handle != RunReady(l, script)[j].handle
  {
    hide RunReady;
    RunReadyPrefix(l, script);
    DueExactlyRun(l, RunReady(l, script));
  }

  /** The ready part of the agenda is every task that is due, and no other. */
  lemma DueExactlyRun<T>(l: Loop<T>, ran: seq<Work<T>>)
    requires Sound(l) && |ran| == ReadyCount(l.agenda, l.now)
    requires forall i :: 0 <= i < |ran| ==> ran[i] == Runnable(l.agenda[i], l.now)
    ensures forall t :: t in l.agenda ==> (t.due <= l.now <==> Runnable(t, l.now) in ran)
  {
    ReadyCountExact(l.agenda, l.now);
    forall t | t in l.agenda ensures t.due <= l.now <==> Runnable(t, l.now) in ran {
      var i :| 0 <= i < |l.agenda| && l.agenda[i] == t;
      if i < |ran| {
        assert ran[i] == Runnable(t, l.now);
      }
    }
  }
}
