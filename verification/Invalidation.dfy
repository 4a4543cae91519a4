/** Rendering work that several mutations leave behind, merged before it is done. */
module Invalidation {
  import opened Totals
  import opened Impacts

  const MAX_COUNT: nat := 0xFFFF_FFFF_FFFF_FFFF

  /** Class tokens and attribute names that changed on one element; kept sorted and unique, so sets. */
  datatype Change = Change(node: nat, tokens: set<string>, attributes: set<string>)

  datatype Work = Work(
    roots: seq<nat>,
    impact: bv8,
    mutations: nat,
    rebuild: bool,
    removed: seq<nat>,
    removalsLocal: bool,
    changes: seq<Change>,
    childLists: seq<nat>,
    elements: seq<nat>)

  const NOTHING: Work := Work([], 0, 0, false, [], false, [], [], [])

  predicate IsEmpty(w: Work) {
    w.roots == [] && w.changes == []
  }

  // ---------- Sorted lists without repetition ----------

  function InsertOnce(s: seq<nat>, x: nat): seq<nat> {
    if s == [] || s[|s| - 1] < x then s + [x]
    else if s[|s| - 1] == x then s
    else InsertOnce(s[..|s| - 1], x) + [s[|s| - 1]]
  }

  /** A list sorted, and every repetition dropped. */
  function Ordered(s: seq<nat>): seq<nat> {
    if s == [] then [] else InsertOnce(Ordered(s[..|s| - 1]), s[|s| - 1])
  }

  predicate Increasing(s: seq<nat>) {
    forall i, j :: 0 <= i < j < |s| ==> s[i] < s[j]
  }

  lemma {:induction false} InsertOnceIn(s: seq<nat>, x: nat, y: nat)
    ensures y in InsertOnce(s, x) <==> y in s || y == x
  {
    if s != [] && x < s[|s| - 1] {
      var front, last := s[..|s| - 1], s[|s| - 1];
      assert s == front + [last];
      InsertOnceIn(front, x, y);
      hide InsertOnce;
      assert y in InsertOnce(front, x) + [last] <==> y in InsertOnce(front, x) || y == last;
    }
  }

  lemma {:induction false} InsertOnceExact(s: seq<nat>, x: nat)
    requires Increasing(s)
    ensures Increasing(InsertOnce(s, x))
    ensures forall y :: y in InsertOnce(s, x) <==> y in s || y == x
  {
    forall y ensures y in InsertOnce(s, x) <==> y in s || y == x {
      InsertOnceIn(s, x, y);
    }
    if s != [] && x < s[|s| - 1] {
      var front, last := s[..|s| - 1], s[|s| - 1];
      InsertOnceExact(front, x);
      var r := InsertOnce(front, x);
      forall i | 0 <= i < |r| ensures r[i] < last {
        assert r[i] in r;
      }
    }
  }

  lemma {:induction false} OrderedExact(s: seq<nat>)
    ensures Increasing(Ordered(s))
    ensures forall y :: y in Ordered(s) <==> y in s
  {
    if s != [] {
      var front := s[..|s| - 1];
      assert s == front + [s[|s| - 1]];
      OrderedExact(front);
      InsertOnceExact(Ordered(front), s[|s| - 1]);
    }
  }

  lemma OrderedEmpty(s: seq<nat>)
    ensures Ordered(s) == [] <==> s == []
  {
  }

  function Members(s: seq<nat>): set<nat> {
    set x | x in s
  }

  lemma {:induction false} IncreasingCount(s: seq<nat>)
    requires Increasing(s)
    ensures |Members(s)| == |s|
  {
    if s == [] {
      assert Members(s) == {};
    } else {
      var front, last := s[..|s| - 1], s[|s| - 1];
      IncreasingCount(front);
      assert s == front + [last] && last !in front;
      assert Members(s) == Members(front) + {last};
    }
  }

  // ---------- Merging ----------

  predicate IsFull(w: Work, root: nat) {
    root in w.roots && root !in w.childLists && root !in w.elements
  }

  /** Roots that are a full root of neither. */
  function Partial(a: Work, b: Work): nat -> bool {
    (r: nat) => !IsFull(a, r) && !IsFull(b, r)
  }

  function Outside(s: seq<nat>): nat -> bool {
    (r: nat) => r !in s
  }

  function FindChange(changes: seq<Change>, node: nat): (i: nat)
    ensures i <= |changes| && (i < |changes| ==> changes[i].node == node)
    ensures forall j :: 0 <= j < i ==> changes[j].node != node
  {
    if changes == [] || changes[0].node == node then 0 else 1 + FindChange(changes[1..], node)
  }

  /** A change to an element that already has one is added to it. */
  function MergeChange(changes: seq<Change>, c: Change): seq<Change> {
    var i := FindChange(changes, c.node);
    if i < |changes| then
      changes[i := Change(c.node, changes[i].tokens + c.tokens, changes[i].attributes + c.attributes)]
    else changes + [c]
  }

  function MergeChanges(changes: seq<Change>, more: seq<Change>): seq<Change> {
    if more == [] then changes else MergeChange(MergeChanges(changes, more[..|more| - 1]), more[|more| - 1])
  }

  function ChildListsMerged(a: Work, b: Work): seq<nat> {
    Ordered(Filter(a.childLists + b.childLists, Partial(a, b)))
  }

  function ElementsMerged(a: Work, b: Work): seq<nat> {
    Ordered(Filter(Filter(a.elements + b.elements, Partial(a, b)), Outside(ChildListsMerged(a, b))))
  }

  function RemovalsLocal(a: Work, b: Work): bool {
    if b.removed == [] then a.removalsLocal else (a.removed == [] || a.removalsLocal) && b.removalsLocal
  }

  predicate Collapses(roots: seq<nat>, changes: seq<Change>, document: nat, limit: nat) {
    document in roots || |roots| > limit || |changes| > limit
  }

  /** Work `a` with work `b` added. */
  function Merged(a: Work, b: Work, document: nat, limit: nat): Work {
    if IsEmpty(b) then a
    else if IsEmpty(a) then b
    else
      var roots := Ordered(a.roots + b.roots);
      var changes := MergeChanges(a.changes, b.changes);
      var collapse := Collapses(roots, changes, document, limit);
      Work(if collapse then [document] else roots,
           Union(a.impact, b.impact),
           if a.mutations + b.mutations > MAX_COUNT then MAX_COUNT else a.mutations + b.mutations,
           a.rebuild || b.rebuild,
           Ordered(a.removed + b.removed),
           RemovalsLocal(a, b),
           if collapse then [] else changes,
           if collapse then [] else ChildListsMerged(a, b),
           if collapse then [] else ElementsMerged(a, b))
  }

  // ---------- What work means ----------

  datatype Level = Element | Children | Full

  function Higher(a: Level, b: Level): Level {
    if a.Full? || b.Full? then Full else if a.Children? || b.Children? then Children else Element
  }

  datatype Touched = Touched(tokens: set<string>, attributes: set<string>)

  /** How far each root's restyle goes, what changed on which element, and the rest without order or repetition. */
  datatype Meaning = Meaning(
    levels: map<nat, Level>,
    changes: map<nat, Touched>,
    impact: bv8,
    mutations: nat,
    rebuild: bool,
    removed: set<nat>,
    removalsLocal: bool)

  function LevelOf(w: Work, root: nat): Level {
    if root in w.childLists then Children else if root in w.elements then Element else Full
  }

  function Levels(w: Work): map<nat, Level> {
    map root | root in w.roots :: LevelOf(w, root)
  }

  function ChangeMap(changes: seq<Change>): map<nat, Touched> {
    map i | 0 <= i < |changes| && FindChange(changes, changes[i].node) == i ::
      changes[i].node := Touched(changes[i].tokens, changes[i].attributes)
  }

  /** Removals prove nothing when there are none. */
  function MeaningOf(w: Work): Meaning {
    Meaning(Levels(w), ChangeMap(w.changes), w.impact, w.mutations, w.rebuild, Members(w.removed),
      w.removed == [] || w.removalsLocal)
  }

  ghost predicate WellFormed(w: Work) {
    && (forall r :: r in w.childLists ==> r in w.roots)
    && (forall r :: r in w.elements ==> r in w.roots && r !in w.childLists)
    && DistinctNodes(w.changes)
    && Real(w.impact) && w.mutations <= MAX_COUNT
  }

  ghost predicate DistinctNodes(changes: seq<Change>) {
    forall i, j :: 0 <= i < j < |changes| ==> changes[i].node != changes[j].node
  }

  function JoinLevels(a: map<nat, Level>, b: map<nat, Level>): map<nat, Level> {
    map r | r in a.Keys + b.Keys :: if r !in a then b[r] else if r !in b then a[r] else Higher(a[r], b[r])
  }

  function JoinTouched(a: Touched, b: Touched): Touched {
    Touched(a.tokens + b.tokens, a.attributes + b.attributes)
  }

  function JoinChanges(a: map<nat, Touched>, b: map<nat, Touched>): map<nat, Touched> {
    map n | n in a.Keys + b.Keys :: if n !in a then b[n] else if n !in b then a[n] else JoinTouched(a[n], b[n])
  }

  /** The pointwise maximum of two meanings. */
  function Join(a: Meaning, b: Meaning): Meaning {
    Meaning(JoinLevels(a.levels, b.levels), JoinChanges(a.changes, b.changes), Union(a.impact, b.impact),
            if a.mutations + b.mutations > MAX_COUNT then MAX_COUNT else a.mutations + b.mutations,
            a.rebuild || b.rebuild, a.removed + b.removed, a.removalsLocal && b.removalsLocal)
  }

  predicate TooMuch(m: Meaning, document: nat, limit: nat) {
    document in m.levels || |m.levels| > limit || |m.changes| > limit
  }

  /** Too much work, or work at the document, is a full restyle of the document. */
  function Bounded(m: Meaning, document: nat, limit: nat): Meaning {
    if TooMuch(m, document, limit) then m.(levels := map[document := Full], changes := map[]) else m
  }

  // ---------- Merging is the bounded join ----------

  /** The merged roots with their merged lists, and nothing else. */
  function MergedRoots(a: Work, b: Work): Work {
    NOTHING.(roots := Ordered(a.roots + b.roots), childLists := ChildListsMerged(a, b),
      elements := ElementsMerged(a, b))
  }

  lemma MergedRootsExact(a: Work, b: Work, r: nat)
    ensures var m := MergedRoots(a, b);
      && (r in m.roots <==> r in a.roots || r in b.roots)
      && (r in m.childLists <==> (r in a.childLists || r in b.childLists) && !IsFull(a, r) && !IsFull(b, r))
      && (r in m.elements <==>
           (r in a.elements || r in b.elements) && !IsFull(a, r) && !IsFull(b, r) && r !in m.childLists)
  {
    OrderedExact(a.roots + b.roots);
    ChildListsExact(a, b, r);
    ElementsExact(a, b, r);
    hide Ordered, ChildListsMerged, ElementsMerged, IsFull;
  }

  lemma RootCount(a: Work, b: Work)
    ensures |MergedRoots(a, b).roots| == |Levels(MergedRoots(a, b))|
  {
    OrderedExact(a.roots + b.roots);
    hide Ordered, ChildListsMerged, ElementsMerged, LevelOf, Increasing;
    IncreasingCount(MergedRoots(a, b).roots);
    assert Levels(MergedRoots(a, b)).Keys == Members(MergedRoots(a, b).roots);
  }

  lemma MergedLevels(a: Work, b: Work)
    requires WellFormed(a) && WellFormed(b)
    ensures var m := MergedRoots(a, b);
      && Levels(m) == JoinLevels(Levels(a), Levels(b)) && |m.roots| == |Levels(m)|
      && (forall r :: r in m.childLists ==> r in m.roots)
           && (forall r :: r in m.elements ==> r in m.roots && r !in m.childLists)
  {
    var m := MergedRoots(a, b);
    RootCount(a, b);
    hide MergedRoots;
    forall r: nat ensures r in Levels(m) <==> r in JoinLevels(Levels(a), Levels(b)) {
      MergedRootsExact(a, b, r);
    }
    forall r | r in m.roots ensures Levels(m)[r] == JoinLevels(Levels(a), Levels(b))[r] {
      MergedRootsExact(a, b, r);
      LevelAt(a, b, r, r in m.childLists, r in m.elements);
    }
    forall r ensures (r in m.childLists ==> r in m.roots) && (r in m.elements ==> r in m.roots && r !in m.childLists) {
      if r >= 0 { MergedRootsExact(a, b, r); }
    }
  }

  lemma ChildListsExact(a: Work, b: Work, r: nat)
    ensures r in ChildListsMerged(a, b) <==> (r in a.childLists || r in b.childLists) && !IsFull(a, r) && !IsFull(b, r)
  {
    OrderedExact(Filter(a.childLists + b.childLists, Partial(a, b)));
    FilterIn(a.childLists + b.childLists, Partial(a, b), r);
    hide Filter, Ordered;
  }

  lemma ElementsExact(a: Work, b: Work, r: nat)
    ensures r in ElementsMerged(a, b) <==>
      (r in a.elements || r in b.elements) && !IsFull(a, r) && !IsFull(b, r) && r !in ChildListsMerged(a, b)
  {
    var partial := Filter(a.elements + b.elements, Partial(a, b));
    OrderedExact(Filter(partial, Outside(ChildListsMerged(a, b))));
    FilterIn(partial, Outside(ChildListsMerged(a, b)), r);
    FilterIn(a.elements + b.elements, Partial(a, b), r);
    hide Filter, Ordered, ChildListsMerged;
  }

  lemma LevelAt(a: Work, b: Work, r: nat, childList: bool, element: bool)
    requires WellFormed(a) && WellFormed(b) && (r in a.roots || r in b.roots)
    requires childList <==> (r in a.childLists || r in b.childLists) && !IsFull(a, r) && !IsFull(b, r)
    requires element <==> (r in a.elements || r in b.elements) && !IsFull(a, r) && !IsFull(b, r) && !childList
    ensures (if childList then Children else if element then Element else Full) == JoinLevels(Levels(a), Levels(b))[r]
  {
  }

  lemma DistinctFind(changes: seq<Change>, i: nat)
    requires DistinctNodes(changes) && i < |changes|
    ensures FindChange(changes, changes[i].node) == i
  {
  }

  /** The map of distinct changes, at one element. */
  lemma ChangeMapAt(changes: seq<Change>, n: nat)
    requires DistinctNodes(changes)
    ensures n in ChangeMap(changes) <==> FindChange(changes, n) < |changes|
    ensures n in ChangeMap(changes) ==>
      ChangeMap(changes)[n] ==
        Touched(changes[FindChange(changes, n)].tokens, changes[FindChange(changes, n)].attributes)
  {
    forall i | 0 <= i < |changes| ensures FindChange(changes, changes[i].node) == i {
      DistinctFind(changes, i);
    }
  }

  function Single(c: Change): map<nat, Touched> {
    map[c.node := Touched(c.tokens, c.attributes)]
  }

  lemma MergeChangeDistinct(changes: seq<Change>, c: Change)
    requires DistinctNodes(changes)
    ensures DistinctNodes(MergeChange(changes, c))
    ensures forall n :: FindChange(MergeChange(changes, c), n) < |MergeChange(changes, c)| <==>
      FindChange(changes, n) < |changes| || n == c.node
    ensures forall n :: n != c.node && FindChange(changes, n) < |changes| ==>
      FindChange(MergeChange(changes, c), n) == FindChange(changes, n)
    ensures FindChange(MergeChange(changes, c), c.node) == FindChange(changes, c.node)
  {
    var merged := MergeChange(changes, c);
    forall n
      ensures FindChange(merged, n) ==
        if n == c.node || FindChange(changes, n) < |changes| then FindChange(changes, n) else |merged|
    {
      FindAt(changes, n, FindChange(changes, n));
      FindAt(merged, n, if n == c.node || FindChange(changes, n) < |changes| then FindChange(changes, n) else |merged|);
    }
  }

  /** Only the first place with this node, or the end, is what finding it gives. */
  lemma FindAt(changes: seq<Change>, node: nat, i: nat)
    requires i <= |changes| && (i < |changes| ==> changes[i].node == node)
      && forall j :: 0 <= j < i ==> changes[j].node != node
    ensures FindChange(changes, node) == i
  {
  }

  lemma MergeChangeAt(changes: seq<Change>, c: Change, n: nat)
    requires DistinctNodes(changes)
    ensures var merged, joined := ChangeMap(MergeChange(changes, c)), JoinChanges(ChangeMap(changes), Single(c));
      (n in merged <==> n in joined) && (n in merged ==> merged[n] == joined[n])
  {
    MergeChangeDistinct(changes, c);
    ChangeMapAt(changes, n);
    ChangeMapAt(MergeChange(changes, c), n);
    hide ChangeMap, FindChange, DistinctNodes;
  }

  lemma MergeChangeMap(changes: seq<Change>, c: Change)
    requires DistinctNodes(changes)
    ensures DistinctNodes(MergeChange(changes, c))
    ensures ChangeMap(MergeChange(changes, c)) == JoinChanges(ChangeMap(changes), Single(c))
  {
    MergeChangeDistinct(changes, c);
    hide *;
    forall n: nat ensures var merged, joined :=
      ChangeMap(MergeChange(changes, c)), JoinChanges(ChangeMap(changes), Single(c));
      (n in merged <==> n in joined) && (n in merged ==> merged[n] == joined[n])
    {
      MergeChangeAt(changes, c, n);
    }
  }

  lemma {:induction false} MergeChangesMap(changes: seq<Change>, more: seq<Change>)
    requires DistinctNodes(changes) && DistinctNodes(more)
    ensures DistinctNodes(MergeChanges(changes, more))
    ensures ChangeMap(MergeChanges(changes, more)) == JoinChanges(ChangeMap(changes), ChangeMap(more))
  {
    hide JoinTouched;
    if more == [] {
      assert ChangeMap(more) == map[];
      assert JoinChanges(ChangeMap(changes), map[]) == ChangeMap(changes);
    } else {
      var front, c := more[..|more| - 1], more[|more| - 1];
      MergeChangesMap(changes, front);
      MergeChangeMap(MergeChanges(changes, front), c);
      AppendedIsMerged(front, c);
      assert front + [c] == more;
      MergeChangeMap(front, c);
      hide ChangeMap, MergeChange, JoinChanges;
      JoinChangesLaws(ChangeMap(changes), ChangeMap(front), Single(c));
    }
  }

  lemma AppendedIsMerged(front: seq<Change>, c: Change)
    requires DistinctNodes(front + [c])
    ensures DistinctNodes(front) && MergeChange(front, c) == front + [c] && FindChange(front, c.node) == |front|
  {
    var all := front + [c];
    forall i, j | 0 <= i < j < |front| ensures front[i].node != front[j].node {
      assert all[i].node != all[j].node;
    }
    forall i | 0 <= i < |front| ensures front[i].node != c.node {
      assert all[i].node != all[|front|].node;
    }
  }

  lemma JoinSize(a: map<nat, Touched>, c: Change)
    requires c.node !in a
    ensures |JoinChanges(a, Single(c))| == |a| + 1
  {
    assert JoinChanges(a, Single(c)).Keys == a.Keys + {c.node};
  }

  lemma {:induction false} ChangeCount(changes: seq<Change>)
    requires DistinctNodes(changes)
    ensures |ChangeMap(changes)| == |changes|
  {
    if changes == [] {
      assert ChangeMap(changes) == map[];
    } else {
      var front, c := changes[..|changes| - 1], changes[|changes| - 1];
      assert front + [c] == changes;
      hide *;
      AppendedIsMerged(front, c);
      ChangeCount(front);
      MergeChangeMap(front, c);
      ChangeMapAt(front, c.node);
      JoinSize(ChangeMap(front), c);
    }
  }

  // ---------- Laws of the join ----------

  lemma JoinLevelsLaws(a: map<nat, Level>, b: map<nat, Level>, c: map<nat, Level>)
    ensures JoinLevels(a, b) == JoinLevels(b, a)
    ensures JoinLevels(JoinLevels(a, b), c) == JoinLevels(a, JoinLevels(b, c))
  {
  }

  lemma JoinChangesLaws(a: map<nat, Touched>, b: map<nat, Touched>, c: map<nat, Touched>)
    ensures JoinChanges(a, b) == JoinChanges(b, a)
    ensures JoinChanges(JoinChanges(a, b), c) == JoinChanges(a, JoinChanges(b, c))
  {
    hide JoinTouched;
    forall n | n in a && n in b ensures JoinTouched(a[n], b[n]) == JoinTouched(b[n], a[n]) {
      TouchedLaws(a[n], b[n], a[n]);
    }
    assert JoinChanges(a, b) == JoinChanges(b, a);
    JoinChangesGrouped(a, b, c);
  }

  lemma JoinChangesAt(a: map<nat, Touched>, b: map<nat, Touched>, c: map<nat, Touched>, n: nat)
    requires n in a || n in b || n in c
    ensures JoinChanges(JoinChanges(a, b), c)[n] == JoinChanges(a, JoinChanges(b, c))[n]
  {
    hide JoinTouched;
    if n in a && n in b && n in c {
      TouchedLaws(a[n], b[n], c[n]);
    }
  }

  lemma JoinChangesGrouped(a: map<nat, Touched>, b: map<nat, Touched>, c: map<nat, Touched>)
    ensures JoinChanges(JoinChanges(a, b), c) == JoinChanges(a, JoinChanges(b, c))
  {
    var x, y := JoinChanges(JoinChanges(a, b), c), JoinChanges(a, JoinChanges(b, c));
    assert x.Keys == y.Keys;
    forall n | n in x ensures x[n] == y[n] {
      JoinChangesAt(a, b, c, n);
    }
  }

  lemma TouchedLaws(a: Touched, b: Touched, c: Touched)
    ensures JoinTouched(a, b) == JoinTouched(b, a)
    ensures JoinTouched(JoinTouched(a, b), c) == JoinTouched(a, JoinTouched(b, c))
  {
    assert a.tokens + b.tokens + c.tokens == a.tokens + (b.tokens + c.tokens);
    assert a.attributes + b.attributes + c.attributes == a.attributes + (b.attributes + c.attributes);
  }

  ghost predicate Proper(m: Meaning) {
    Real(m.impact) && m.mutations <= MAX_COUNT
  }

  /** Joining is commutative and associative, so it does not matter in which order work came. */
  lemma JoinLaws(a: Meaning, b: Meaning, c: Meaning)
    requires Proper(a) && Proper(b) && Proper(c)
    ensures Join(a, b) == Join(b, a) && Join(Join(a, b), c) == Join(a, Join(b, c)) && Proper(Join(a, b))
  {
    JoinLevelsLaws(a.levels, b.levels, c.levels);
    JoinChangesLaws(a.changes, b.changes, c.changes);
    UnionLaws(a.impact, b.impact, c.impact);
    UnionReal(a.impact, b.impact);
    hide JoinLevels, JoinChanges, Union, Real;
    assert a.removed + b.removed + c.removed == a.removed + (b.removed + c.removed);
  }

  lemma Larger<K, V>(a: map<K, V>, b: map<K, V>)
    requires a.Keys <= b.Keys
    ensures |a| <= |b|
  {
    Subset(a.Keys, b.Keys);
  }

  lemma {:induction false} Subset<K>(a: set<K>, b: set<K>)
    requires a <= b
    ensures |a| <= |b|
    decreases a
  {
    if a != {} {
      var x :| x in a;
      Subset(a - {x}, b - {x});
    }
  }

  lemma MoreIsTooMuch(a: Meaning, b: Meaning, document: nat, limit: nat)
    requires TooMuch(a, document, limit)
    ensures TooMuch(Join(a, b), document, limit)
  {
    hide Union, JoinTouched, Higher;
    Larger(a.levels, Join(a, b).levels);
    Larger(a.changes, Join(a, b).changes);
  }

  /** Bounding early changes nothing: once there is too much work, adding more keeps it too much. */
  lemma BoundedAbsorbs(a: Meaning, b: Meaning, document: nat, limit: nat)
    ensures Bounded(Join(Bounded(a, document, limit), b), document, limit) == Bounded(Join(a, b), document, limit)
  {
    hide Union, JoinTouched, Higher, TooMuch;
    if TooMuch(a, document, limit) {
      MoreIsTooMuch(a, b, document, limit);
      var c := Bounded(a, document, limit);
      assert TooMuch(c, document, limit) by { assert document in c.levels; InDocument(c, document, limit); }
      MoreIsTooMuch(c, b, document, limit);
      hide JoinLevels, JoinChanges;
    }
  }

  lemma InDocument(m: Meaning, document: nat, limit: nat)
    requires document in m.levels
    ensures TooMuch(m, document, limit)
  {
  }

  lemma DocumentOnly(w: Work, document: nat)
    requires w.roots == [document] && w.childLists == [] && w.elements == [] && w.changes == []
    ensures Levels(w) == map[document := Full] && ChangeMap(w.changes) == map[]
  {
  }

  lemma SameLevels(v: Work, w: Work)
    requires v.roots == w.roots && v.childLists == w.childLists && v.elements == w.elements
    ensures Levels(v) == Levels(w)
  {
  }

  /** Merging collapses exactly when the joined work is too much. */
  lemma CollapseExact(a: Work, b: Work, document: nat, limit: nat)
    requires WellFormed(a) && WellFormed(b)
    ensures Collapses(Ordered(a.roots + b.roots), MergeChanges(a.changes, b.changes), document, limit)
      <==> TooMuch(Join(MeaningOf(a), MeaningOf(b)), document, limit)
  {
    MergedLevels(a, b);
    MergeChangesMap(a.changes, b.changes);
    ChangeCount(MergeChanges(a.changes, b.changes));
    OrderedExact(a.roots + b.roots);
    hide ChangeMap, MergeChanges, Union, Ordered, ChildListsMerged, ElementsMerged, JoinChanges, Increasing,
      DistinctNodes;
  }

  lemma MergedMap(a: Work, b: Work, document: nat, limit: nat)
    requires WellFormed(a) && WellFormed(b) && !IsEmpty(a) && !IsEmpty(b)
    ensures var w, m := Merged(a, b, document, limit), Bounded(Join(MeaningOf(a), MeaningOf(b)), document, limit);
      Levels(w) == m.levels && ChangeMap(w.changes) == m.changes
  {
    CollapseExact(a, b, document, limit);
    MergedLevels(a, b);
    MergeChangesMap(a.changes, b.changes);
    hide ChangeMap, MergeChanges, Union, Ordered, ChildListsMerged, ElementsMerged, JoinLevels, JoinChanges,
      DistinctNodes, Levels, Collapses, TooMuch;
    var w := Merged(a, b, document, limit);
    if Collapses(Ordered(a.roots + b.roots), MergeChanges(a.changes, b.changes), document, limit) {
      DocumentOnly(w, document);
    } else {
      SameLevels(w, MergedRoots(a, b));
    }
  }

  lemma CollapsedWellFormed(w: Work, document: nat)
    requires w.roots == [document] && w.changes == [] && w.childLists == [] && w.elements == []
    requires Real(w.impact) && w.mutations <= MAX_COUNT
    ensures WellFormed(w) && !IsEmpty(w)
  {
  }

  lemma MergedWellFormed(a: Work, b: Work, document: nat, limit: nat)
    requires WellFormed(a) && WellFormed(b) && !IsEmpty(a) && !IsEmpty(b)
    ensures WellFormed(Merged(a, b, document, limit)) && !IsEmpty(Merged(a, b, document, limit))
  {
    MergedLevels(a, b);
    MergeChangesMap(a.changes, b.changes);
    UnionReal(a.impact, b.impact);
    NonemptyMerged(a, b);
    hide ChangeMap, MergeChanges, Union, Real, Ordered, ChildListsMerged, ElementsMerged, JoinLevels, JoinChanges,
         Levels,
         DistinctNodes, Collapses, RemovalsLocal;
    if Collapses(Ordered(a.roots + b.roots), MergeChanges(a.changes, b.changes), document, limit) {
      CollapsedWellFormed(Merged(a, b, document, limit), document);
    }
  }

  lemma NonemptyMerged(a: Work, b: Work)
    requires WellFormed(a) && WellFormed(b) && !IsEmpty(a)
    ensures Ordered(a.roots + b.roots) != [] || MergeChanges(a.changes, b.changes) != []
  {
    OrderedExact(a.roots + b.roots);
    if a.roots != [] {
      assert a.roots[0] in a.roots + b.roots;
    } else {
      MergeChangesMap(a.changes, b.changes);
      ChangeMapAt(a.changes, a.changes[0].node);
      assert a.changes[0].node in JoinChanges(ChangeMap(a.changes), ChangeMap(b.changes));
    }
  }

  /** Merging non-empty work is the pointwise maximum of the two, bounded. */
  lemma MergedMeaning(a: Work, b: Work, document: nat, limit: nat)
    requires WellFormed(a) && WellFormed(b) && !IsEmpty(a) && !IsEmpty(b)
    ensures MeaningOf(Merged(a, b, document, limit)) == Bounded(Join(MeaningOf(a), MeaningOf(b)), document, limit)
    ensures WellFormed(Merged(a, b, document, limit)) && !IsEmpty(Merged(a, b, document, limit))
  {
    MergedMap(a, b, document, limit);
    MergedWellFormed(a, b, document, limit);
    MergedRemovals(a, b);
    hide ChangeMap, MergeChanges, Union, Real, Ordered, ChildListsMerged, ElementsMerged, JoinLevels, JoinChanges,
         Levels, Members,
         TooMuch, Collapses, RemovalsLocal, WellFormed;
  }

  lemma MergedRemovals(a: Work, b: Work)
    ensures Members(Ordered(a.removed + b.removed)) == Members(a.removed) + Members(b.removed)
    ensures (Ordered(a.removed + b.removed) == [] || RemovalsLocal(a, b)) ==
      ((a.removed == [] || a.removalsLocal) && (b.removed == [] || b.removalsLocal))
  {
    var all := Ordered(a.removed + b.removed);
    OrderedExact(a.removed + b.removed);
    hide Ordered;
    assert all == [] <==> a.removed + b.removed == [] by { OrderedEmpty(a.removed + b.removed); }
  }

  // ---------- Folding ----------

  /** Work merged one after the other into none. */
  function Folded(works: seq<Work>, document: nat, limit: nat): Work {
    if works == [] then NOTHING
      else Merged(Folded(works[..|works| - 1], document, limit), works[|works| - 1], document, limit)
  }

  function Meanings(works: seq<Work>): (r: seq<Meaning>)
    ensures |r| == |works|
  {
    seq(|works|, i requires 0 <= i < |works| => MeaningOf(works[i]))
  }

  function JoinAll(meanings: seq<Meaning>): Meaning
    requires meanings != []
  {
    if |meanings| == 1 then meanings[0] else Join(JoinAll(meanings[..|meanings| - 1]), meanings[|meanings| - 1])
  }

  ghost predicate AllWork(works: seq<Work>) {
    forall i :: 0 <= i < |works| ==> WellFormed(works[i]) && !IsEmpty(works[i])
  }

  ghost predicate AllProper(meanings: seq<Meaning>) {
    forall i :: 0 <= i < |meanings| ==> Proper(meanings[i])
  }

  function NotEmpty(): Work -> bool {
    (w: Work) => !IsEmpty(w)
  }

  /** Empty work leaves no trace. */
  lemma {:induction false} EmptySkipped(works: seq<Work>, document: nat, limit: nat)
    ensures Folded(works, document, limit) == Folded(Filter(works, NotEmpty()), document, limit)
  {
    hide Ordered, MergeChanges, ChildListsMerged, ElementsMerged, Union, Collapses;
    if works == [] {
      assert Filter(works, NotEmpty()) == [];
    } else {
      EmptySkipped(works[..|works| - 1], document, limit);
      var kept := Filter(works[..|works| - 1], NotEmpty());
      var last := works[|works| - 1];
      assert (kept + [last])[..|kept|] == kept;
      assert Filter(works, NotEmpty()) == if IsEmpty(last) then kept else kept + [last];
      assert Folded(works, document, limit) == Merged(Folded(kept, document, limit), last, document, limit);
      assert Folded(kept + [last], document, limit) == Merged(Folded(kept, document, limit), last, document, limit);
    }
  }

  lemma FoldedOne(w: Work, document: nat, limit: nat)
    requires !IsEmpty(w)
    ensures Folded([w], document, limit) == w
  {
    assert [w][..0] == [];
    assert Merged(NOTHING, w, document, limit) == w;
  }

  lemma MeaningsFront(works: seq<Work>)
    requires |works| > 1
    ensures Meanings(works)[..|works| - 1] == Meanings(works[..|works| - 1])
    ensures JoinAll(Meanings(works)) == Join(JoinAll(Meanings(works[..|works| - 1])), MeaningOf(works[|works| - 1]))
    ensures |works| == 2 ==> JoinAll(Meanings(works[..1])) == MeaningOf(works[0])
  {
    hide Join, MeaningOf;
    assert Meanings(works)[..|works| - 1] == Meanings(works[..|works| - 1]);
  }

  /** Folding two or more pieces of work is their pointwise maximum, bounded once. */
  lemma {:induction false} FoldedExact(works: seq<Work>, document: nat, limit: nat)
    requires AllWork(works) && works != []
    ensures WellFormed(Folded(works, document, limit)) && !IsEmpty(Folded(works, document, limit))
    ensures |works| == 1 ==> Folded(works, document, limit) == works[0]
    ensures |works| > 1 ==>
      MeaningOf(Folded(works, document, limit)) == Bounded(JoinAll(Meanings(works)), document, limit)
  {
    hide Merged, Join, Bounded, MeaningOf, WellFormed, IsEmpty, JoinAll, Meanings;
    var front, last := works[..|works| - 1], works[|works| - 1];
    if |works| == 1 {
      FoldedOne(works[0], document, limit);
      assert works == [works[0]];
    } else {
      FoldedExact(front, document, limit);
      MergedMeaning(Folded(front, document, limit), last, document, limit);
      MeaningsFront(works);
      if |front| > 1 {
        BoundedAbsorbs(JoinAll(Meanings(front)), MeaningOf(last), document, limit);
      }
    }
  }

  /** Any one of them can be joined last. */
  lemma {:induction false} JoinAllOut(meanings: seq<Meaning>, i: nat)
    requires AllProper(meanings) && |meanings| > 1 && i < |meanings|
    ensures JoinAll(meanings) == Join(JoinAll(RemoveAt(meanings, i)), meanings[i])
    ensures Proper(JoinAll(meanings))
  {
    hide Join, Proper;
    var n := |meanings| - 1;
    var front, last := meanings[..n], meanings[n];
    if n == 1 {
      JoinLaws(meanings[0], meanings[1], meanings[0]);
      assert RemoveAt(meanings, i) == [meanings[1 - i]];
    } else {
      JoinAllOut(front, if i < n then i else 0);
      if i == n {
        assert RemoveAt(meanings, n) == front;
        JoinLaws(JoinAll(front), last, last);
      } else {
        var others := RemoveAt(front, i);
        assert RemoveAt(meanings, i) == others + [last];
        assert (others + [last])[..|others|] == others;
        JoinedProper(others);
        JoinLaws(JoinAll(others), meanings[i], last);
        JoinLaws(JoinAll(others), last, meanings[i]);
        JoinLaws(meanings[i], last, last);
        JoinLaws(JoinAll(front), last, last);
      }
    }
  }

  lemma {:induction false} JoinedProper(meanings: seq<Meaning>)
    requires AllProper(meanings) && meanings != []
    ensures Proper(JoinAll(meanings))
  {
    hide Join, Proper;
    if |meanings| > 1 {
      var n := |meanings| - 1;
      JoinedProper(meanings[..n]);
      JoinLaws(JoinAll(meanings[..n]), meanings[n], meanings[n]);
    }
  }

  lemma {:induction false} JoinAllUnordered(a: seq<Meaning>, b: seq<Meaning>)
    requires AllProper(a) && a != [] && multiset(a) == multiset(b)
    ensures b != [] && |a| == |b| && AllProper(b) && JoinAll(a) == JoinAll(b)
    decreases |a|
  {
    hide Join, Proper;
    SameElements(a, b);
    var n := |a| - 1;
    if n > 0 {
      assert a[n] in multiset(b);
      var i :| 0 <= i < |b| && b[i] == a[n];
      JoinAllOut(a, n);
      JoinAllOut(b, i);
      assert RemoveAt(a, n) == a[..n];
      Removed(a, b, i);
      JoinAllUnordered(a[..n], RemoveAt(b, i));
    }
  }

  lemma Removed<T>(a: seq<T>, b: seq<T>, i: nat)
    requires a != [] && multiset(a) == multiset(b) && i < |b| && b[i] == a[|a| - 1]
    ensures multiset(a[..|a| - 1]) == multiset(RemoveAt(b, i))
  {
    assert a == a[..|a| - 1] + [a[|a| - 1]];
    assert multiset(a) == multiset(a[..|a| - 1]) + multiset{a[|a| - 1]};
    assert b == b[..i] + [b[i]] + b[i + 1..];
    assert multiset(b) == multiset(b[..i]) + multiset{b[i]} + multiset(b[i + 1..]);
    assert multiset(RemoveAt(b, i)) == multiset(b[..i]) + multiset(b[i + 1..]);
    assert multiset(a[..|a| - 1]) == multiset(a) - multiset{a[|a| - 1]};
    assert multiset(RemoveAt(b, i)) == multiset(b) - multiset{b[i]};
  }

  lemma SameElements(a: seq<Meaning>, b: seq<Meaning>)
    requires AllProper(a) && multiset(a) == multiset(b)
    ensures |a| == |b| && AllProper(b)
    ensures |a| == 1 ==> a == b
  {
    hide Proper;
    assert |multiset(a)| == |a| && |multiset(b)| == |b|;
    forall i | 0 <= i < |b| ensures Proper(b[i]) {
      assert b[i] in multiset(a);
    }
    if |a| == 1 {
      assert a[0] in multiset(b);
    }
  }

  lemma {:induction false} MeaningsUnordered(a: seq<Work>, b: seq<Work>)
    requires multiset(a) == multiset(b)
    ensures multiset(Meanings(a)) == multiset(Meanings(b))
    decreases |a|
  {
    hide MeaningOf;
    if a == [] {
      assert |multiset(b)| == 0;
    } else {
      var n := |a| - 1;
      assert a[n] in multiset(b);
      var i :| 0 <= i < |b| && b[i] == a[n];
      Removed(a, b, i);
      MeaningsUnordered(a[..n], RemoveAt(b, i));
      assert Meanings(a) == Meanings(a[..n]) + [MeaningOf(a[n])];
      assert Meanings(RemoveAt(b, i)) == Meanings(b)[..i] + Meanings(b)[i + 1..];
      assert Meanings(b) == Meanings(b)[..i] + [Meanings(b)[i]] + Meanings(b)[i + 1..];
    }
  }

  /** Two or more pieces of work mean the same merged in any order. */
  lemma OrderDoesNotMatter(a: seq<Work>, b: seq<Work>, document: nat, limit: nat)
    requires AllWork(a) && |a| > 1 && multiset(a) == multiset(b)
    ensures AllWork(b)
    ensures MeaningOf(Folded(a, document, limit)) == MeaningOf(Folded(b, document, limit))
  {
    hide MeaningOf, Folded, WellFormed, IsEmpty, JoinAll, Bounded;
    assert |multiset(a)| == |a| && |multiset(b)| == |b|;
    forall i | 0 <= i < |b| ensures WellFormed(b[i]) && !IsEmpty(b[i]) {
      assert b[i] in multiset(a);
    }
    FoldedExact(a, document, limit);
    FoldedExact(b, document, limit);
    MeaningsUnordered(a, b);
    forall i | 0 <= i < |a| ensures Proper(Meanings(a)[i]) {
      ProperWork(a[i]);
    }
    JoinAllUnordered(Meanings(a), Meanings(b));
  }

  lemma ProperWork(w: Work)
    requires WellFormed(w)
    ensures Proper(MeaningOf(w))
  {
  }

  /** One piece of work alone is left as it is, even where two would be bounded. */
  lemma OneIsNotBounded()
    ensures var w := NOTHING.(roots := [1, 2], impact := STYLE);
      WellFormed(w) && Folded([w], 1, 1) == w && Folded([w, w], 1, 1).roots == [1]
  {
    var w := NOTHING.(roots := [1, 2], impact := STYLE);
    assert [w][..0] == [] && [w, w][..1] == [w];
    assert Folded([w], 1, 1) == Merged(NOTHING, w, 1, 1) == w;
    OrderedExact([1, 2] + [1, 2]);
    assert 1 in [1, 2] + [1, 2];
  }
}
