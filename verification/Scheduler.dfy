/**
  * The scheduler as the browser holds it: a heap whose cancelled entries are dropped lazily, and the
  * set of handles that are still active. Every call acts like the eager loop of `EventLoop`.
  *
  * The heap is a bag of entries; popping takes the greatest under `Ord`, that is, the first to run.
  */
module Scheduler {
  import opened Outcome
  import opened Totals
  import opened Agenda
  import opened EventLoop

  function IsActive<T>(active: set<nat>): Task<T> -> bool {
    (t: Task<T>) => t.handle in active
  }

  /** The agenda a heap stands for: its active entries in running order. */
  function Eager<T>(tasks: seq<Task<T>>, active: set<nat>): seq<Task<T>> {
    Sort(Filter(tasks, IsActive(active)))
  }

  /** Where the heap's greatest entry is. */
  function Front<T>(tasks: seq<Task<T>>): (k: nat)
    requires tasks != []
    ensures k < |tasks|
  {
    var n := |tasks| - 1;
    if n == 0 then 0
    else
      var k := Front(tasks[..n]);
      if Before(tasks[n], tasks[k]) then n else k
  }

  lemma {:induction false} FrontFirst<T>(tasks: seq<Task<T>>, i: nat)
    requires tasks != [] && Distinct(tasks) && i < |tasks| && i != Front(tasks)
    ensures Before(tasks[Front(tasks)], tasks[i])
  {
    var n := |tasks| - 1;
    if n > 0 {
      var k := Front(tasks[..n]);
      if i < n && i != k {
        FrontFirst(tasks[..n], i);
      }
    }
  }

  /** Dropping an entry that is not active changes nothing. */
  lemma EagerDrop<T>(tasks: seq<Task<T>>, active: set<nat>, k: nat)
    requires k < |tasks| && tasks[k].handle !in active
    ensures Eager(RemoveAt(tasks, k), active) == Eager(tasks, active)
  {
    FilterAround(tasks, k, IsActive(active));
    var f := Filter(tasks[..k], IsActive(active));
    assert f + [] == f;
  }

  /** If the heap's front is active, it heads the agenda, and removing it removes just that. */
  lemma EagerFront<T>(tasks: seq<Task<T>>, active: set<nat>)
    requires tasks != [] && Distinct(tasks) && tasks[Front(tasks)].handle in active
    ensures Eager(tasks, active) == [tasks[Front(tasks)]] + Eager(RemoveAt(tasks, Front(tasks)), active)
  {
    var k := Front(tasks);
    var keep := IsActive<T>(active);
    FilterAround(tasks, k, keep);
    FilteredAfter(tasks, tasks[..k], tasks[k], keep);
    FilteredAfter(tasks, tasks[k + 1..], tasks[k], keep);
    SortFront(Filter(tasks[..k], keep), tasks[k], Filter(tasks[k + 1..], keep));
  }

  lemma FilteredAfter<T>(tasks: seq<Task<T>>, part: seq<Task<T>>, x: Task<T>, keep: Task<T> -> bool)
    requires tasks != [] && Distinct(tasks) && x == tasks[Front(tasks)]
    requires forall i :: 0 <= i < |part| ==> exists j :: 0 <= j < |tasks| && j != Front(tasks) && tasks[j] == part[i]
    ensures forall i :: 0 <= i < |Filter(part, keep)| ==> Before(x, Filter(part, keep)[i])
  {
    forall i | 0 <= i < |Filter(part, keep)| ensures Before(x, Filter(part, keep)[i]) {
      FilterIn(part, keep, Filter(part, keep)[i]);
      var p :| 0 <= p < |part| && part[p] == Filter(part, keep)[i];
      var j :| 0 <= j < |tasks| && j != Front(tasks) && tasks[j] == part[p];
      FrontFirst(tasks, j);
    }
  }

  /** Pushing an active entry inserts it; no other entry carries its handle. */
  lemma EagerPush<T>(tasks: seq<Task<T>>, active: set<nat>, t: Task<T>)
    requires forall i :: 0 <= i < |tasks| ==> tasks[i].handle != t.handle
    ensures Eager(tasks + [t], active + {t.handle}) == Insert(Eager(tasks, active), t)
  {
    assert (tasks + [t])[..|tasks|] == tasks;
    FilterAgree(tasks, IsActive(active), IsActive(active + {t.handle}));
    SortPush(Filter(tasks, IsActive(active)), t);
  }

  lemma EagerReplace<T>(rest: seq<Task<T>>, active: set<nat>, t: Task<T>)
    requires t.handle in active && forall i :: 0 <= i < |rest| ==> rest[i].handle != t.handle
    ensures Eager(rest + [t], active) == Insert(Eager(rest, active), t)
  {
    EagerPush(rest, active, t);
    assert active + {t.handle} == active;
  }

  lemma EagerCancel<T>(tasks: seq<Task<T>>, active: set<nat>, handle: nat)
    requires Distinct(tasks)
    ensures Eager(tasks, active - {handle}) == Filter(Eager(tasks, active), Other(handle))
  {
    FilterTwice(tasks, IsActive(active), Other(handle), IsActive(active - {handle}));
    FilterDistinct(tasks, IsActive(active));
    FilterSort(Filter(tasks, IsActive(active)), Other(handle));
  }

  /** Deactivating a handle no entry carries changes nothing. */
  lemma EagerForget<T>(tasks: seq<Task<T>>, active: set<nat>, handle: nat)
    requires forall i :: 0 <= i < |tasks| ==> tasks[i].handle != handle
    ensures Eager(tasks, active - {handle}) == Eager(tasks, active)
  {
    FilterAgree(tasks, IsActive(active), IsActive(active - {handle}));
  }

  lemma EagerMember<T>(tasks: seq<Task<T>>, active: set<nat>, t: Task<T>)
    ensures t in Eager(tasks, active) <==> t in tasks && t.handle in active
  {
    var f := Filter(tasks, IsActive(active));
    SortMembers(f);
    FilterIn(tasks, IsActive(active), t);
    assert t in multiset(Sort(f)) <==> t in multiset(f);
  }

  lemma EagerOrdered<T>(tasks: seq<Task<T>>, active: set<nat>)
    requires Distinct(tasks)
    ensures Sorted(Eager(tasks, active)) && Distinct(Eager(tasks, active))
  {
    FilterDistinct(tasks, IsActive(active));
    SortSorted(Filter(tasks, IsActive(active)));
    SortedDistinct(Filter(tasks, IsActive(active)));
  }

  lemma {:induction false} SortedDistinct<T>(s: seq<Task<T>>)
    requires Distinct(s)
    ensures Distinct(Sort(s))
  {
    if s != [] {
      var n := |s| - 1;
      SortedDistinct(s[..n]);
      SortMembers(s[..n]);
      forall i | 0 <= i < n ensures Sort(s[..n])[i].handle != s[n].handle && Sort(s[..n])[i].sequence != s[n].sequence {
        var j := MemberOf(Sort(s[..n]), s[..n], i);
      }
      InsertKeeps(Sort(s[..n]), s[n]);
    }
  }

  class EventLoopScheduler<T(!new)> {
    var now: Time
    var tasks: seq<Task<T>>
    var activeTasks: set<nat>
    var microtasks: seq<T>
    var nextHandle: nat
    var nextSequence: nat
    var performingMicrotaskCheckpoint: bool
    var rendering: Option<RenderScope>

    ghost function Contents(): Loop<T>
      reads this
    {
      Loop(now, Eager(tasks, activeTasks), microtasks, nextHandle, nextSequence, performingMicrotaskCheckpoint,
        rendering)
    }

    /** Handles and numbers are unique and were handed out; every active handle has its one heap entry. */
    ghost predicate Valid()
      reads this
    {
      && Distinct(tasks)
      && (forall i :: 0 <= i < |tasks| ==>
           && tasks[i].handle < nextHandle && tasks[i].sequence < nextSequence
           && (tasks[i].repeat.Some? ==> tasks[i].repeat.value > 0))
      && (forall h :: h in activeTasks ==> exists i :: 0 <= i < |tasks| && tasks[i].handle == h)
    }

    lemma ContentsSound()
      requires Valid()
      ensures Sound(Contents())
    {
      EagerOrdered(tasks, activeTasks);
      var agenda := Contents().agenda;
      forall i | 0 <= i < |agenda| ensures agenda[i] in tasks {
        EagerMember(tasks, activeTasks, agenda[i]);
      }
    }

    lemma ActiveIsPending(handle: nat)
      requires Valid()
      ensures handle in activeTasks <==> Pending(Contents(), handle)
    {
      if handle in activeTasks {
        var j :| 0 <= j < |tasks| && tasks[j].handle == handle;
        EagerMember(tasks, activeTasks, tasks[j]);
        assert tasks[j] in Contents().agenda;
        var i :| 0 <= i < |Contents().agenda| && Contents().agenda[i] == tasks[j];
      }
      if Pending(Contents(), handle) {
        var i :| 0 <= i < |Contents().agenda| && Contents().agenda[i].handle == handle;
        EagerMember(tasks, activeTasks, Contents().agenda[i]);
        assert Contents().agenda[i] in Contents().agenda;
      }
    }

    constructor ()
      ensures Valid() && Contents() == Initial()
    {
      now, tasks, activeTasks, microtasks := 0, [], {}, [];
      nextHandle, nextSequence := 1, 0;
      performingMicrotaskCheckpoint, rendering := false, None;
    }

    method AdvanceTo(time: Time)
      requires Valid()
      modifies this`now
      ensures Valid() && Contents() == Advanced(old(Contents()), time)
      ensures now == if time > old(now) then time else old(now)
    {
      now := if now < time then time else now;
    }

    method QueueTask(source: TaskSource, delay: Time, payload: T) returns (handle: nat)
      requires Valid()
      modifies this
      ensures Valid() && Contents() == Queue(old(Contents()), source, delay, None, payload)
      ensures handle == old(nextHandle)
    {
      handle := QueueTaskInternal(source, delay, None, payload);
    }

    method QueueRepeatingTask(source: TaskSource, delay: Time, interval: Time, payload: T) returns (handle: nat)
      requires Valid()
      modifies this
      ensures Valid()
      ensures Contents() ==
        Queue(old(Contents()), source, delay, Some(Later(interval, MINIMUM_REPEAT_INTERVAL)), payload)
      ensures handle == old(nextHandle)
    {
      handle := QueueTaskInternal(source, delay, Some(Later(interval, MINIMUM_REPEAT_INTERVAL)), payload);
    }

    method QueueTaskInternal(source: TaskSource, delay: Time, repeat: Option<Time>, payload: T) returns (handle: nat)
      requires Valid() && (repeat.Some? ==> repeat.value > 0)
      modifies this
      ensures Valid() && Contents() == Queue(old(Contents()), source, delay, repeat, payload)
      ensures handle == old(nextHandle)
      ensures var due := if old(now) + delay < DURATION_MAX then old(now) + delay else DURATION_MAX;
        multiset(Contents().agenda) == multiset(old(Contents()).agenda)
          + multiset{Task(due, old(nextSequence), handle, source, repeat, payload)}
    {
      hide Eager, Insert;
      handle := nextHandle;
      var t := Task(SaturatingAdd(now, delay), nextSequence, handle, source, repeat, payload);
      Unused(nextHandle);
      EagerPush(tasks, activeTasks, t);
      InsertMembers(Eager(tasks, activeTasks), t);
      Push(t);
    }

    lemma Unused(handle: nat)
      requires Valid() && handle >= nextHandle
      ensures forall i :: 0 <= i < |tasks| ==> tasks[i].handle != handle
    {
    }

    /** Adds a heap entry under the next handle and number, and marks it active. */
    method Push(t: Task<T>)
      requires Valid() && t.handle == nextHandle && t.sequence == nextSequence
      requires t.repeat.Some? ==> t.repeat.value > 0
      modifies this`tasks, this`activeTasks, this`nextHandle, this`nextSequence
      ensures Valid() && tasks == old(tasks) + [t] && activeTasks == old(activeTasks) + {t.handle}
      ensures nextHandle == old(nextHandle) + 1 && nextSequence == old(nextSequence) + 1
    {
      ghost var before := tasks;
      nextHandle := nextHandle + 1;
      nextSequence := nextSequence + 1;
      tasks := tasks + [t];
      activeTasks := activeTasks + {t.handle};
      forall h | h in activeTasks ensures exists i :: 0 <= i < |tasks| && tasks[i].handle == h {
        if h == t.handle {
          assert tasks[|before|].handle == h;
        } else {
          var i :| 0 <= i < |before| && before[i].handle == h;
          assert tasks[i].handle == h;
        }
      }
    }

    /** Returns whether there was pending work under this handle. */
    method Cancel(handle: nat) returns (cancelled: bool)
      requires Valid()
      modifies this`activeTasks
      ensures Valid() && Contents() == Cancelled(old(Contents()), handle)
      ensures cancelled <==> Pending(old(Contents()), handle)
    {
      ActiveIsPending(handle);
      EagerCancel(tasks, activeTasks, handle);
      cancelled := handle in activeTasks;
      activeTasks := activeTasks - {handle};
    }

    method QueueMicrotask(payload: T)
      requires Valid()
      modifies this`microtasks
      ensures Valid() && Contents() == old(Contents()).(microtasks := old(microtasks) + [payload])
    {
      microtasks := microtasks + [payload];
    }

    method Clear()
      requires Valid()
      modifies this
      ensures Valid() && Contents() == Cleared(old(Contents()))
      ensures Contents().agenda == [] && microtasks == [] && rendering.None? && now == old(now)
      ensures nextHandle == old(nextHandle) && nextSequence == old(nextSequence)
      ensures performingMicrotaskCheckpoint == old(performingMicrotaskCheckpoint)
    {
      tasks, activeTasks, microtasks, rendering := [], {}, [], None;
    }

    /** Returns whether this is the first request since the last one was taken. */
    method RequestRender(scope: RenderScope) returns (first: bool)
      requires Valid()
      modifies this`rendering
      ensures Valid() && Contents() == Requested(old(Contents()), scope)
      ensures first <==> old(rendering).None?
    {
      first := rendering.None?;
      rendering := match rendering
        case Some(Layout) => Some(Layout)
        case _ => Some(scope);
    }

    method TakeRenderScope() returns (scope: Option<RenderScope>)
      requires Valid()
      modifies this`rendering
      ensures Valid() && Contents() == old(Contents()).(rendering := None)
      ensures scope == old(rendering)
    {
      scope := rendering;
      rendering := None;
    }

    /** Drops cancelled entries until the front is active; no pending work is lost. */
    method DiscardCancelledFront()
      requires Valid()
      modifies this`tasks
      ensures Valid() && Contents() == old(Contents())
      ensures tasks != [] ==> tasks[Front(tasks)].handle in activeTasks
      ensures tasks == [] <==> Contents().agenda == []
      ensures tasks != [] ==> Contents().agenda[0] == tasks[Front(tasks)]
    {
      while tasks != [] && tasks[Front(tasks)].handle !in activeTasks
        invariant Valid() && Contents() == old(Contents())
        decreases |tasks|
      {
        var k := Front(tasks);
        EagerDrop(tasks, activeTasks, k);
        RemovedOthers(k);
        tasks := RemoveAt(tasks, k);
      }
      if tasks != [] {
        EagerFront(tasks, activeTasks);
      }
    }

    /** Removing one entry keeps all others, so handles other than its own keep their entry. */
    lemma RemovedOthers(k: nat)
      requires Valid() && k < |tasks|
      ensures var rest := RemoveAt(tasks, k);
        && Distinct(rest)
        && (forall i :: 0 <= i < |rest| ==>
             && rest[i].handle != tasks[k].handle
             && rest[i].handle < nextHandle && rest[i].sequence < nextSequence
             && (rest[i].repeat.Some? ==> rest[i].repeat.value > 0))
        && (forall h :: h in activeTasks && h != tasks[k].handle ==> exists i :: 0 <= i < |rest| && rest[i].handle == h)
    {
      var rest := RemoveAt(tasks, k);
      forall h | h in activeTasks && h != tasks[k].handle ensures exists i :: 0 <= i < |rest| && rest[i].handle == h {
        var j :| 0 <= j < |tasks| && tasks[j].handle == h;
        assert rest[if j < k then j else j - 1].handle == h;
      }
    }

    method NextDueTime() returns (due: Option<Time>)
      requires Valid()
      modifies this`tasks
      ensures Valid() && Contents() == old(Contents())
      ensures due.None? <==> Contents().agenda == []
      ensures due.Some? ==> forall i :: 0 <= i < |Contents().agenda| ==> due.value <= Contents().agenda[i].due
      ensures due.Some? ==> exists i :: 0 <= i < |Contents().agenda| && Contents().agenda[i].due == due.value
    {
      DiscardCancelledFront();
      ContentsSound();
      if tasks == [] {
        return None;
      }
      due := Some(tasks[Front(tasks)].due);
      assert Contents().agenda[0].due == due.value;
    }

    /** The deadline of one pending task, found by scanning the heap. */
    method ScheduledFor(handle: nat) returns (due: Option<Time>)
      requires Valid()
      ensures due.Some? <==> Pending(Contents(), handle)
      ensures due.Some? ==>
        exists i :: 0 <= i < |Contents().agenda| && Contents().agenda[i].handle == handle
          && Contents().agenda[i].due == due.value
    {
      ActiveIsPending(handle);
      if handle !in activeTasks {
        return None;
      }
      due := None;
      ghost var found := 0;
      for i := 0 to |tasks|
        invariant due.None? ==> forall j :: 0 <= j < i ==> tasks[j].handle != handle
        invariant due.Some? ==> found < i && tasks[found].handle == handle && tasks[found].due == due.value
      {
        if tasks[i].handle == handle {
          found := if Keeps(due, tasks[i].due) then found else i;
          due := Some(Least(due, tasks[i].due));
        }
      }
      EagerMember(tasks, activeTasks, tasks[found]);
      assert tasks[found] in Contents().agenda;
    }

    static predicate Keeps(best: Option<Time>, due: Time) {
      best.Some? && best.value < due
    }

    static function Least(best: Option<Time>, due: Time): Time {
      if Keeps(best, due) then best.value else due
    }

    method PopRunnableTask() returns (work: Option<Work<T>>)
      requires Valid()
      modifies this
      ensures Valid()
      ensures work.Some? <==> Ready(old(Contents()))
      ensures work.Some? ==>
        work.value == Runnable(old(Contents()).agenda[0], old(now)) && Contents() == Popped(old(Contents()))
      ensures work.None? ==> Contents() == old(Contents())
    {
      DiscardCancelledFront();
      if tasks == [] || tasks[Front(tasks)].due > now {
        return None;
      }
      var t := tasks[Front(tasks)];
      EagerFront(tasks, activeTasks);
      if t.repeat.Some? {
        Requeue(Front(tasks));
      } else {
        Retire(Front(tasks));
      }
      return Some(RunnableTask(t.handle, t.source, t.due, t.repeat.Some?, t.payload, now));
    }

    /** Takes a repeating entry off the heap and schedules it again from the current time. */
    method Requeue(k: nat)
      requires Valid() && k < |tasks| && tasks[k].handle in activeTasks && tasks[k].repeat.Some?
      modifies this`tasks, this`nextSequence
      ensures Valid() && nextSequence == old(nextSequence) + 1
      ensures Contents().agenda ==
        Insert(Eager(RemoveAt(old(tasks), k), activeTasks), Rescheduled(old(Contents()), old(tasks)[k]))
    {
      var t := tasks[k];
      var again := t.(due := SaturatingAdd(now, t.repeat.value), sequence := nextSequence);
      ghost var rest := RemoveAt(tasks, k);
      RemovedOthers(k);
      EagerReplace(rest, activeTasks, again);
      nextSequence := nextSequence + 1;
      Replace(k, again);
    }

    method Replace(k: nat, again: Task<T>)
      requires Valid() && k < |tasks| && again.handle == tasks[k].handle
      requires again.sequence < nextSequence && (again.repeat.Some? ==> again.repeat.value > 0)
      requires forall i :: 0 <= i < |tasks| ==> tasks[i].sequence != again.sequence
      modifies this`tasks
      ensures Valid() && tasks == RemoveAt(old(tasks), k) + [again]
    {
      RemovedOthers(k);
      ghost var rest := RemoveAt(tasks, k);
      tasks := RemoveAt(tasks, k) + [again];
      forall h | h in activeTasks ensures exists i :: 0 <= i < |tasks| && tasks[i].handle == h {
        if h == again.handle {
          assert tasks[|rest|].handle == h;
        } else {
          var i :| 0 <= i < |rest| && rest[i].handle == h;
          assert tasks[i].handle == h;
        }
      }
    }

    /** Takes a one-shot entry off the heap; its handle is no longer active. */
    method Retire(k: nat)
      requires Valid() && k < |tasks| && tasks[k].handle in activeTasks
      modifies this`tasks, this`activeTasks
      ensures Valid() && Contents().agenda == Eager(RemoveAt(old(tasks), k), old(activeTasks))
    {
      RemovedOthers(k);
      EagerForget(RemoveAt(tasks, k), activeTasks, tasks[k].handle);
      activeTasks := activeTasks - {tasks[k].handle};
      tasks := RemoveAt(tasks, k);
    }

    // ---------- Running ----------

    /** Hands one piece of work to the executor, which issues the next commands of its script. */
    method Execute(script: Script<T>) returns (left: Script<T>, ghost ran: seq<Work<T>>)
      requires Valid()
      modifies this
      ensures Valid()
      ensures EventLoop.Result(Contents(), left, ran) == Dispatch(old(Contents()), script)
      decreases |script|, 0, 0
    {
      if script == [] {
        return [], [];
      }
      left, ran := Issue(script[0], script[1..]);
    }

    method Issue(commands: seq<Command<T>>, script: Script<T>) returns (left: Script<T>, ghost ran: seq<Work<T>>)
      requires Valid()
      modifies this
      ensures Valid()
      ensures EventLoop.Result(Contents(), left, ran) == RunCommands(old(Contents()), commands, script)
      decreases |script|, 3, |commands|
    {
      if commands == [] {
        return script, [];
      }
      ghost var first, rest;
      left, first := IssueOne(commands[0], script);
      left, rest := Issue(commands[1..], left);
      ran := first + rest;
    }

    method IssueOne(c: Command<T>, script: Script<T>) returns (left: Script<T>, ghost ran: seq<Work<T>>)
      requires Valid()
      modifies this
      ensures Valid()
      ensures EventLoop.Result(Contents(), left, ran) == RunCommand(old(Contents()), c, script)
      decreases |script|, 3, 0
    {
      left, ran := script, [];
      match c {
        case QueueTask(source, delay, payload) => var _ := QueueTask(source, delay, payload);
        case QueueRepeatingTask(source, delay, interval, payload) =>
          var _ := QueueRepeatingTask(source, delay, interval, payload);
        case Cancel(handle) => var _ := Cancel(handle);
        case QueueMicrotask(payload) => QueueMicrotask(payload);
        case Clear => Clear();
        case AdvanceTo(time) => AdvanceTo(time);
        case RequestRender(scope) => var _ := RequestRender(scope);
        case TakeRender => var _ := TakeRenderScope();
        case Checkpoint =>
          var count;
          count, left, ran := PerformMicrotaskCheckpoint(script);
        case RunTask =>
          var summary;
          summary, left, ran := RunOneTask(script);
      }
    }

    lemma Appended(a: seq<Work<T>>, b: seq<Work<T>>, c: seq<Work<T>>)
      ensures a + (b + c) == a + b + c
    {
    }

    /** Drains the microtask queue, including what the executor adds to it; nested calls do nothing. */
    method PerformMicrotaskCheckpoint(script: Script<T>)
        returns (executed: nat, left: Script<T>, ghost ran: seq<Work<T>>)
      requires Valid()
      modifies this
      ensures Valid()
      ensures EventLoop.Result(Contents(), left, ran) == Drain(old(Contents()), script)
      ensures executed == CheckpointCount(old(Contents()), script)
      decreases |script|, 1, |microtasks| + 1
    {
      hide Eager, Dispatch, DrainAll, DrainCount;
      executed, left, ran := 0, script, [];
      if performingMicrotaskCheckpoint {
        return;
      }
      performingMicrotaskCheckpoint := true;
      ghost var start := Contents();
      while microtasks != []
        invariant Valid() && |left| <= |script| && Contents().performing
        invariant left == script ==> |microtasks| <= |old(microtasks)|
        invariant executed + DrainCount(Contents(), left) == DrainCount(start, script)
        invariant var whole, rest := DrainAll(start, script), DrainAll(Contents(), left);
          whole == EventLoop.Result(rest.loop, rest.script, ran + rest.ran)
        decreases |left|, |microtasks|
      {
        ghost var before, had := Contents(), left;
        DrainNext(before, had);
        var microtask := microtasks[0];
        microtasks := microtasks[1..];
        ghost var more;
        left, more := Execute(left);
        Appended(ran, [Microtask(microtask)] + more, DrainAll(Contents(), left).ran);
        ran := ran + ([Microtask(microtask)] + more);
        executed := executed + 1;
      }
      DrainEnds(Contents(), left);
      assert ran + [] == ran;
      performingMicrotaskCheckpoint := false;
    }

    /** Runs one ready task and the checkpoint that follows it. */
    method RunOneTask(script: Script<T>) returns (summary: Option<Summary>, left: Script<T>, ghost ran: seq<Work<T>>)
      requires Valid()
      modifies this
      ensures Valid()
      ensures EventLoop.Result(Contents(), left, ran) == RunOne(old(Contents()), script)
      ensures summary == Summarized(old(Contents()), script)
      ensures summary.Some? <==> old(Contents()).agenda != [] && old(Contents()).agenda[0].due <= old(now)
      ensures summary.Some? ==>
        var t := old(Contents()).agenda[0];
        && summary.value.task == t.handle && ran != []
        && ran[0] == RunnableTask(t.handle, t.source, t.due, t.repeat.Some?, t.payload, old(now))
      ensures summary.None? ==> ran == [] && left == script && Contents() == old(Contents())
      decreases |script|, 2, 0
    {
      var work := PopRunnableTask();
      if work.None? {
        return None, script, [];
      }
      ghost var first, rest;
      left, first := Execute(script);
      var microtasksRun;
      microtasksRun, left, rest := PerformMicrotaskCheckpoint(left);
      ran := [work.value] + first + rest;
      summary := Some(Summary(work.value.handle, microtasksRun));
    }
  }
}
