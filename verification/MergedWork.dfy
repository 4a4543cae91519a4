/** What merging two pieces of rendering work gives, list by list. */
module MergedWork {
  import opened Impacts
  import opened Invalidation

  /** A root whose element is restyled as a whole: it is in neither of the lighter lists. */
  predicate Whole(w: Work, r: nat) {
    r in w.roots && r !in w.childLists && r !in w.elements
  }

  ghost predicate Changed(changes: seq<Change>, node: nat) {
    exists i :: 0 <= i < |changes| && changes[i].node == node
  }

  ghost predicate TokenChanged(changes: seq<Change>, node: nat, token: string) {
    exists i :: 0 <= i < |changes| && changes[i].node == node && token in changes[i].tokens
  }

  ghost predicate AttributeChanged(changes: seq<Change>, node: nat, name: string) {
    exists i :: 0 <= i < |changes| && changes[i].node == node && name in changes[i].attributes
  }

  function RootsOf(a: Work, b: Work): set<nat> {
    set r | r in a.roots + b.roots
  }

  function NodesOf(changes: seq<Change>): set<nat> {
    set i | 0 <= i < |changes| :: changes[i].node
  }

  /** The document itself is a root, or there are too many roots, or too many changed elements. */
  predicate Overflows(a: Work, b: Work, document: nat, limit: nat) {
    || document in RootsOf(a, b)
    || |RootsOf(a, b)| > limit
    || |NodesOf(a.changes) + NodesOf(b.changes)| > limit
  }

  // ---------- Roots ----------

  lemma IncreasingCard(s: seq<nat>, all: set<nat>)
    requires Increasing(s) && forall x: nat :: x in s <==> x in all
    ensures |s| == |all|
  {
    IncreasingCount(s);
    assert Members(s) == all;
  }

  lemma RootsCounted(a: Work, b: Work)
    ensures Increasing(Ordered(a.roots + b.roots)) && |Ordered(a.roots + b.roots)| == |RootsOf(a, b)|
    ensures forall r: nat :: r in Ordered(a.roots + b.roots) <==> r in RootsOf(a, b)
  {
    OrderedExact(a.roots + b.roots);
    hide Ordered, Increasing;
    IncreasingCard(Ordered(a.roots + b.roots), RootsOf(a, b));
  }

  // ---------- Changes ----------

  lemma MapTells(changes: seq<Change>, node: nat)
    requires DistinctNodes(changes)
    ensures node in ChangeMap(changes) <==> Changed(changes, node)
    ensures forall token :: TokenChanged(changes, node, token) <==>
      node in ChangeMap(changes) && token in ChangeMap(changes)[node].tokens
    ensures forall name :: AttributeChanged(changes, node, name) <==>
      node in ChangeMap(changes) && name in ChangeMap(changes)[node].attributes
  {
    ChangeMapAt(changes, node);
    hide ChangeMap;
    forall i | 0 <= i < |changes| && changes[i].node == node ensures FindChange(changes, node) == i {
      DistinctFind(changes, i);
    }
  }

  lemma KeysAre(changes: seq<Change>)
    requires DistinctNodes(changes)
    ensures ChangeMap(changes).Keys == NodesOf(changes)
  {
    hide ChangeMap, DistinctNodes;
    forall n: nat ensures n in ChangeMap(changes) <==> n in NodesOf(changes) {
      MapTells(changes, n);
    }
  }

  lemma JoinedKeys(a: map<nat, Touched>, b: map<nat, Touched>)
    ensures JoinChanges(a, b).Keys == a.Keys + b.Keys
  {
  }

  lemma ChangesCounted(a: seq<Change>, b: seq<Change>)
    requires DistinctNodes(a) && DistinctNodes(b)
    ensures |MergeChanges(a, b)| == |NodesOf(a) + NodesOf(b)|
  {
    hide *;
    MergeChangesMap(a, b);
    ChangeCount(MergeChanges(a, b));
    JoinedKeys(ChangeMap(a), ChangeMap(b));
    KeysAre(a);
    KeysAre(b);
    SameSize(ChangeMap(MergeChanges(a, b)), NodesOf(a) + NodesOf(b));
  }

  lemma SameSize(m: map<nat, Touched>, keys: set<nat>)
    requires m.Keys == keys
    ensures |m| == |keys|
  {
  }

  /** On every element the changed tokens and attributes are those of either side. */
  lemma ChangesMerged(a: seq<Change>, b: seq<Change>, node: nat)
    requires DistinctNodes(a) && DistinctNodes(b)
    ensures var m := MergeChanges(a, b);
      && DistinctNodes(m)
      && (Changed(m, node) <==> Changed(a, node) || Changed(b, node))
      && (forall token :: TokenChanged(m, node, token) <==>
           TokenChanged(a, node, token) || TokenChanged(b, node, token))
      && (forall name :: AttributeChanged(m, node, name) <==>
           AttributeChanged(a, node, name) || AttributeChanged(b, node, name))
  {
    MergeChangesMap(a, b);
    hide ChangeMap, MergeChanges, DistinctNodes, Changed, TokenChanged, AttributeChanged;
    MapTells(a, node);
    MapTells(b, node);
    MapTells(MergeChanges(a, b), node);
  }

  // ---------- The whole ----------

  lemma OverflowExact(a: Work, b: Work, document: nat, limit: nat)
    requires WellFormed(a) && WellFormed(b)
    ensures Collapses(Ordered(a.roots + b.roots), MergeChanges(a.changes, b.changes), document, limit)
      <==> Overflows(a, b, document, limit)
  {
    RootsCounted(a, b);
    ChangesCounted(a.changes, b.changes);
    hide Ordered, MergeChanges, Increasing, RootsOf, NodesOf;
  }

  /**
    * The impact takes every effect of either and the evidence of both; counts add up to at most the
    * largest 64-bit number; a rebuild of either is one of both; removed elements are those of either, and
    * local if every removal was.
    */
  lemma RestMerged(a: Work, b: Work, document: nat, limit: nat, bit: bv8)
    requires WellFormed(a) && WellFormed(b) && !IsEmpty(a) && !IsEmpty(b)
    ensures var m := Merged(a, b, document, limit);
      && (IsEffect(bit) ==> (Carries(m.impact, bit) <==> Carries(a.impact, bit) || Carries(b.impact, bit)))
      && (IsEvidence(bit) ==> (Carries(m.impact, bit) <==> Carries(a.impact, bit) && Carries(b.impact, bit)))
      && (a.mutations + b.mutations <= 0xFFFF_FFFF_FFFF_FFFF ==> m.mutations == a.mutations + b.mutations)
      && (a.mutations + b.mutations > 0xFFFF_FFFF_FFFF_FFFF ==> m.mutations == 0xFFFF_FFFF_FFFF_FFFF)
      && (m.rebuild <==> a.rebuild || b.rebuild)
      && Increasing(m.removed) && (forall x: nat :: x in m.removed <==> x in a.removed || x in b.removed)
      && (m.removed != [] ==>
           (m.removalsLocal <==> (a.removed == [] || a.removalsLocal) && (b.removed == [] || b.removalsLocal)))
  {
    CarriesUnion(a.impact, b.impact, bit);
    RealCarries(a.impact);
    OrderedExact(a.removed + b.removed);
    OrderedEmpty(a.removed + b.removed);
    hide Ordered, Union, Carries, Real, MergeChanges, ChildListsMerged, ElementsMerged, Collapses, Increasing;
  }

  lemma RealCarries(a: bv8)
    requires Real(a)
    ensures a != 0
  {
  }

  /** Work without roots and changes adds nothing, and any work replaces it. */
  lemma EmptyMerged(a: Work, b: Work, document: nat, limit: nat)
    ensures b.roots == [] && b.changes == [] ==> Merged(a, b, document, limit) == a
    ensures a.roots == [] && a.changes == [] && (b.roots != [] || b.changes != []) ==>
      Merged(a, b, document, limit) == b
  {
  }

  /** Overflowing work is one whole restyle of the document. */
  lemma OverflowMerged(a: Work, b: Work, document: nat, limit: nat)
    requires WellFormed(a) && WellFormed(b) && !IsEmpty(a) && !IsEmpty(b) && Overflows(a, b, document, limit)
    ensures var m := Merged(a, b, document, limit);
      m.roots == [document] && m.changes == [] && m.childLists == [] && m.elements == []
  {
    OverflowExact(a, b, document, limit);
    hide Ordered, Union, MergeChanges, ChildListsMerged, ElementsMerged, Collapses, Overflows;
  }

  /** Other work keeps the roots of both, each as heavy as the heavier side had it, and the changes of both. */
  lemma RootsMerged(a: Work, b: Work, document: nat, limit: nat, r: nat)
    requires WellFormed(a) && WellFormed(b) && !IsEmpty(a) && !IsEmpty(b) && !Overflows(a, b, document, limit)
    ensures var m := Merged(a, b, document, limit);
      && Increasing(m.roots) && (r in m.roots <==> r in a.roots || r in b.roots)
      && (Whole(m, r) <==> Whole(a, r) || Whole(b, r))
      && (r in m.childLists <==> !Whole(a, r) && !Whole(b, r) && (r in a.childLists || r in b.childLists))
      && (r in m.elements <==>
           !Whole(a, r) && !Whole(b, r) && r !in a.childLists && r !in b.childLists
           && (r in a.elements || r in b.elements))
  {
    OverflowExact(a, b, document, limit);
    RootsCounted(a, b);
    MergedRootsExact(a, b, r);
    hide Ordered, Union, MergeChanges, ChildListsMerged, ElementsMerged, Collapses, Overflows, Increasing, RootsOf;
  }

  lemma ChangesKept(a: Work, b: Work, document: nat, limit: nat, node: nat)
    requires WellFormed(a) && WellFormed(b) && !IsEmpty(a) && !IsEmpty(b) && !Overflows(a, b, document, limit)
    ensures var m := Merged(a, b, document, limit);
      && (Changed(m.changes, node) <==> Changed(a.changes, node) || Changed(b.changes, node))
      && (forall token :: TokenChanged(m.changes, node, token) <==>
           TokenChanged(a.changes, node, token) || TokenChanged(b.changes, node, token))
      && (forall name :: AttributeChanged(m.changes, node, name) <==>
           AttributeChanged(a.changes, node, name) || AttributeChanged(b.changes, node, name))
  {
    OverflowExact(a, b, document, limit);
    ChangesMerged(a.changes, b.changes, node);
    hide Ordered, Union, MergeChanges, ChildListsMerged, ElementsMerged, Collapses, Overflows, Changed, TokenChanged,
      AttributeChanged;
  }
}
