/** An eager agenda: the pending tasks of an event loop, always in running order. */
module Agenda {
  import opened Outcome
  import opened Totals

  datatype TaskSource =
    | Timer | IdleTask | Networking | MediaElement | FontLoading | PerformanceTimeline
    | UserInteraction | Lifecycle | DomManipulation | Rendering

  /** Times are nanoseconds; the largest representable one is u64::MAX seconds and 999,999,999 ns. */
  const DURATION_MAX: nat := 18_446_744_073_709_551_615_999_999_999

  type Time = t: int | 0 <= t <= DURATION_MAX

  datatype Task<+T> = Task(
    due: Time,
    sequence: nat,
    handle: nat,
    source: TaskSource,
    repeat: Option<Time>,
    payload: T)

  function SaturatingAdd(time: Time, delay: Time): (r: Time)
    ensures r >= time
    ensures time < DURATION_MAX && delay > 0 ==> r > time
  {
    if time + delay <= DURATION_MAX then time + delay else DURATION_MAX
  }

  predicate Before<T>(a: Task<T>, b: Task<T>) {
    a.due < b.due || (a.due == b.due && a.sequence < b.sequence)
  }

  ghost predicate Sorted<T>(s: seq<Task<T>>) {
    forall i, j :: 0 <= i < j < |s| ==> Before(s[i], s[j])
  }

  /** No two tasks share a handle or a sequence number. */
  ghost predicate Distinct<T>(s: seq<Task<T>>) {
    forall i, j :: 0 <= i < j < |s| ==> s[i].handle != s[j].handle && s[i].sequence != s[j].sequence
  }

  /** Puts `t` behind every task that is to run before it. */
  function Insert<T>(s: seq<Task<T>>, t: Task<T>): (r: seq<Task<T>>)
    ensures |r| == |s| + 1
  {
    if s == [] || Before(s[|s| - 1], t) then s + [t]
    else Insert(s[..|s| - 1], t) + [s[|s| - 1]]
  }

  function Sort<T>(s: seq<Task<T>>): (r: seq<Task<T>>)
    ensures |r| == |s|
  {
    if s == [] then [] else Insert(Sort(s[..|s| - 1]), s[|s| - 1])
  }

  lemma {:induction false} InsertMembers<T>(s: seq<Task<T>>, t: Task<T>)
    ensures multiset(Insert(s, t)) == multiset(s) + multiset{t}
  {
    if s != [] && !Before(s[|s| - 1], t) {
      InsertMembers(s[..|s| - 1], t);
      assert s == s[..|s| - 1] + [s[|s| - 1]];
    }
  }

  lemma {:induction false} SortMembers<T>(s: seq<Task<T>>)
    ensures multiset(Sort(s)) == multiset(s)
  {
    if s != [] {
      SortMembers(s[..|s| - 1]);
      InsertMembers(Sort(s[..|s| - 1]), s[|s| - 1]);
      assert s == s[..|s| - 1] + [s[|s| - 1]];
    }
  }

  lemma MemberOf<T>(s: seq<T>, r: seq<T>, i: nat) returns (j: nat)
    requires multiset(s) == multiset(r) && i < |s|
    ensures j < |r| && r[j] == s[i]
  {
    assert s[i] in multiset(s);
    assert s[i] in multiset(r);
    j :| 0 <= j < |r| && r[j] == s[i];
  }

  lemma {:induction false} InsertSorted<T>(s: seq<Task<T>>, t: Task<T>)
    requires Sorted(s)
    requires forall i :: 0 <= i < |s| ==> s[i].sequence != t.sequence
    ensures Sorted(Insert(s, t))
  {
    if s != [] && !Before(s[|s| - 1], t) {
      var n := |s| - 1;
      InsertSorted(s[..n], t);
      var r := Insert(s[..n], t);
      forall i | 0 <= i < |r| ensures Before(r[i], s[n]) {
        InsertMembers(s[..n], t);
        assert multiset(s[..n] + [t]) == multiset(s[..n]) + multiset{t};
        var j := MemberOf(r, s[..n] + [t], i);
      }
    }
  }

  lemma {:induction false} SortSorted<T>(s: seq<Task<T>>)
    requires Distinct(s)
    ensures Sorted(Sort(s))
  {
    if s != [] {
      var n := |s| - 1;
      SortSorted(s[..n]);
      SortMembers(s[..n]);
      forall i | 0 <= i < n ensures Sort(s[..n])[i].sequence != s[n].sequence {
        var j := MemberOf(Sort(s[..n]), s[..n], i);
      }
      InsertSorted(Sort(s[..n]), s[n]);
    }
  }

  /** A task that is to run before all others goes first. */
  lemma {:induction false} InsertFirst<T>(s: seq<Task<T>>, t: Task<T>)
    requires forall i :: 0 <= i < |s| ==> Before(t, s[i])
    ensures Insert(s, t) == [t] + s
  {
    if s != [] {
      InsertFirst(s[..|s| - 1], t);
    }
  }

  /** Inserting behind a first element that is to run earlier. */
  lemma {:induction false} InsertBehind<T>(x: Task<T>, s: seq<Task<T>>, t: Task<T>)
    requires Before(x, t)
    ensures Insert([x] + s, t) == [x] + Insert(s, t)
  {
    var r := [x] + s;
    if s != [] {
      InsertBehind(x, s[..|s| - 1], t);
      assert r[..|r| - 1] == [x] + s[..|s| - 1];
    } else {
      assert r == [x];
    }
  }

  /** Wherever the first task to run is stored, sorting puts it in front of the others sorted. */
  lemma {:induction false} SortFront<T>(a: seq<Task<T>>, x: Task<T>, b: seq<Task<T>>)
    requires forall i :: 0 <= i < |a| ==> Before(x, a[i])
    requires forall i :: 0 <= i < |b| ==> Before(x, b[i])
    ensures Sort(a + [x] + b) == [x] + Sort(a + b)
    decreases |b|
  {
    if b == [] {
      assert a + b == a && a + [x] + b == a + [x];
      SortMembers(a);
      forall i | 0 <= i < |a| ensures Before(x, Sort(a)[i]) {
        var j := MemberOf(Sort(a), a, i);
      }
      InsertFirst(Sort(a), x);
      SortPush(a, x);
    } else {
      var c, y := b[..|b| - 1], b[|b| - 1];
      SortFront(a, x, c);
      assert a + [x] + b == (a + [x] + c) + [y] && a + b == (a + c) + [y];
      SortPush(a + [x] + c, y);
      SortPush(a + c, y);
      InsertBehind(x, Sort(a + c), y);
    }
  }

  lemma SortPush<T>(s: seq<Task<T>>, t: Task<T>)
    ensures Sort(s + [t]) == Insert(Sort(s), t)
  {
    assert (s + [t])[..|s|] == s;
  }

  lemma {:induction false} FilterInsert<T>(s: seq<Task<T>>, t: Task<T>, keep: Task<T> -> bool)
    requires Sorted(s)
    ensures Filter(Insert(s, t), keep) == if keep(t) then Insert(Filter(s, keep), t) else Filter(s, keep)
  {
    if s == [] {
      assert Insert(s, t) == [t];
      assert [t][..0] == [];
    } else {
      var n := |s| - 1;
      if Before(s[n], t) {
        assert (s + [t])[..|s|] == s;
        if keep(t) {
          FilteredBefore(s, t, keep);
          InsertLast(Filter(s, keep), t);
        }
      } else {
        FilterInsert(s[..n], t, keep);
        var r, f := Insert(s[..n], t), Filter(s[..n], keep);
        var last := if keep(s[n]) then [s[n]] else [];
        assert Insert(s, t) == r + [s[n]] && (r + [s[n]])[..|r|] == r;
        assert Filter(r + [s[n]], keep) == Filter(r, keep) + last;
        assert Filter(s, keep) == f + last;
        if keep(s[n]) {
          assert (f + last)[..|f|] == f && (f + last)[|f|] == s[n];
        } else {
          assert f + last == f && Filter(r, keep) + last == Filter(r, keep);
        }
      }
    }
  }

  lemma FilteredBefore<T>(s: seq<Task<T>>, t: Task<T>, keep: Task<T> -> bool)
    requires Sorted(s) && s != [] && Before(s[|s| - 1], t)
    ensures forall i :: 0 <= i < |Filter(s, keep)| ==> Before(Filter(s, keep)[i], t)
  {
    forall i | 0 <= i < |Filter(s, keep)| ensures Before(Filter(s, keep)[i], t) {
      FilterIn(s, keep, Filter(s, keep)[i]);
      var j :| 0 <= j < |s| && s[j] == Filter(s, keep)[i];
      assert j == |s| - 1 || Before(s[j], s[|s| - 1]);
    }
  }

  lemma InsertLast<T>(s: seq<Task<T>>, t: Task<T>)
    requires forall i :: 0 <= i < |s| ==> Before(s[i], t)
    ensures Insert(s, t) == s + [t]
  {
  }

  /** Filtering commutes with sorting. */
  lemma {:induction false} FilterSort<T>(s: seq<Task<T>>, keep: Task<T> -> bool)
    requires Distinct(s)
    ensures Filter(Sort(s), keep) == Sort(Filter(s, keep))
  {
    if s != [] {
      var n := |s| - 1;
      FilterSort(s[..n], keep);
      SortSorted(s[..n]);
      FilterInsert(Sort(s[..n]), s[n], keep);
      var f := Filter(s[..n], keep);
      if keep(s[n]) {
        SortPush(f, s[n]);
      } else {
        assert f + [] == f;
      }
    }
  }

  lemma {:induction false} FilterDistinct<T>(s: seq<Task<T>>, keep: Task<T> -> bool)
    requires Distinct(s)
    ensures Distinct(Filter(s, keep))
  {
    if s != [] {
      var n := |s| - 1;
      FilterDistinct(s[..n], keep);
      var f := Filter(s[..n], keep);
      forall i | 0 <= i < |f| ensures f[i].handle != s[n].handle && f[i].sequence != s[n].sequence {
        FilterIn(s[..n], keep, f[i]);
        var j :| 0 <= j < n && s[j] == f[i];
      }
    }
  }
}
