/** The invalidation a document keeps between frames; merging changes it in place. */
module RenderInvalidation {
  import opened Totals
  import opened Impacts
  import opened Invalidation

  const MAX_ROOTS: nat := 256

  predicate IsFullOf(roots: seq<nat>, childLists: seq<nat>, elements: seq<nat>, r: nat) {
    r in roots && r !in childLists && r !in elements
  }

  class Pending {
    var roots: seq<nat>
    var impact: bv8
    var mutations: nat
    var rebuild: bool
    var removed: seq<nat>
    var removalsLocal: bool
    var changes: seq<Change>
    var childLists: seq<nat>
    var elements: seq<nat>

    ghost function Contents(): Work
      reads this
    {
      Work(roots, impact, mutations, rebuild, removed, removalsLocal, changes, childLists, elements)
    }

    constructor ()
      ensures Contents() == NOTHING
    {
      roots, removed, changes, childLists, elements := [], [], [], [], [];
      impact, mutations, rebuild, removalsLocal := 0, 0, false, false;
    }

    method Replace(w: Work)
      modifies this
      ensures Contents() == w
    {
      roots, impact, mutations, rebuild, removed := w.roots, w.impact, w.mutations, w.rebuild, w.removed;
      removalsLocal, changes, childLists, elements := w.removalsLocal, w.changes, w.childLists, w.elements;
    }

    method AddChanges(more: seq<Change>)
      modifies this`changes
      ensures changes == MergeChanges(old(changes), more)
    {
      for i := 0 to |more|
        invariant changes == MergeChanges(old(changes), more[..i])
      {
        assert more[..i + 1][..i] == more[..i];
        changes := MergeChange(changes, more[i]);
      }
      assert more[..|more|] == more;
    }

    /**
      * Joins three lists of roots; a root that either side already restyles in full is dropped from
      * the two lighter ones.
      */
    method JoinRoots(other: Work)
      modifies this`roots, this`childLists, this`elements
      ensures roots == Ordered(old(roots) + other.roots)
      ensures childLists == ChildListsMerged(old(Contents()), other)
        && elements == ElementsMerged(old(Contents()), other)
    {
      hide Ordered, Filter;
      ghost var before := Contents();
      var full := set r | r in roots + other.roots && (IsFullOf(roots, childLists, elements, r) || IsFull(other, r));
      var kept := (r: nat) => r !in full;
      assert forall r: nat :: kept(r) == Partial(before, other)(r);
      FilterSame(childLists + other.childLists, kept, Partial(before, other));
      FilterSame(elements + other.elements, kept, Partial(before, other));
      childLists := Ordered(Filter(childLists + other.childLists, kept));
      elements := Ordered(Filter(Filter(elements + other.elements, kept), Outside(childLists)));
      roots := Ordered(roots + other.roots);
    }

    /** Too many roots, or work at the document, become one full root: the document. */
    method Limit(document: nat, limit: nat)
      modifies this`roots, this`changes, this`childLists, this`elements
      ensures var collapse := Collapses(old(roots), old(changes), document, limit);
        && roots == (if collapse then [document] else old(roots))
        && changes == (if collapse then [] else old(changes))
        && childLists == (if collapse then [] else old(childLists))
        && elements == (if collapse then [] else old(elements))
    {
      if document in roots || |roots| > limit || |changes| > limit {
        roots, changes, childLists, elements := [document], [], [], [];
      }
    }

    /** Everything that has no place in the tree. */
    method AddRest(other: Work)
      modifies this`impact, this`mutations, this`rebuild, this`removed, this`removalsLocal
      ensures impact == Union(old(impact), other.impact) && rebuild == (old(rebuild) || other.rebuild)
      ensures mutations == if old(mutations) + other.mutations > MAX_COUNT then MAX_COUNT
        else old(mutations) + other.mutations
      ensures removed == Ordered(old(removed) + other.removed)
      ensures removalsLocal ==
        if other.removed == [] then old(removalsLocal)
          else (old(removed) == [] || old(removalsLocal)) && other.removalsLocal
    {
      hide Union, Ordered;
      impact := Union(impact, other.impact);
      mutations := if mutations + other.mutations > MAX_COUNT then MAX_COUNT else mutations + other.mutations;
      rebuild := rebuild || other.rebuild;
      if other.removed != [] {
        removalsLocal := (removed == [] || removalsLocal) && other.removalsLocal;
      }
      removed := Ordered(removed + other.removed);
    }

    method MergeWithRootLimit(other: Work, document: nat, limit: nat)
      modifies this
      ensures Contents() == Merged(old(Contents()), other, document, limit)
    {
      hide Ordered, MergeChanges, Filter, Union, ChildListsMerged, ElementsMerged, Merged, Collapses, RemovalsLocal;
      ghost var before := Contents();
      MergedEmpty(before, other, document, limit);
      if other.roots == [] && other.changes == [] {
        return;
      }
      if roots == [] && changes == [] {
        Replace(other);
        return;
      }
      assert !IsEmpty(before) && !IsEmpty(other);
      JoinRoots(other);
      AddChanges(other.changes);
      MergedLists(before, other, document, limit, Collapses(roots, changes, document, limit));
      Limit(document, limit);
      AddRest(other);
      MergedRest(before, other, document, limit);
    }

    lemma MergedEmpty(a: Work, b: Work, document: nat, limit: nat)
      ensures IsEmpty(b) ==> Merged(a, b, document, limit) == a
      ensures !IsEmpty(b) && IsEmpty(a) ==> Merged(a, b, document, limit) == b
    {
    }

    lemma MergedLists(a: Work, b: Work, document: nat, limit: nat, collapse: bool)
      requires !IsEmpty(a) && !IsEmpty(b)
      requires collapse == Collapses(Ordered(a.roots + b.roots), MergeChanges(a.changes, b.changes), document, limit)
      ensures var w := Merged(a, b, document, limit);
        && w.roots == (if collapse then [document] else Ordered(a.roots + b.roots))
        && w.changes == (if collapse then [] else MergeChanges(a.changes, b.changes))
        && w.childLists == (if collapse then [] else ChildListsMerged(a, b))
        && w.elements == (if collapse then [] else ElementsMerged(a, b))
    {
    }

    lemma MergedRest(a: Work, b: Work, document: nat, limit: nat)
      requires !IsEmpty(a) && !IsEmpty(b)
      ensures var w := Merged(a, b, document, limit);
        && w.impact == Union(a.impact, b.impact) && w.rebuild == (a.rebuild || b.rebuild)
        && w.mutations == (if a.mutations + b.mutations > MAX_COUNT then MAX_COUNT else a.mutations + b.mutations)
        && w.removed == Ordered(a.removed + b.removed)
        && w.removalsLocal == if b.removed == [] then a.removalsLocal
          else (a.removed == [] || a.removalsLocal) && b.removalsLocal
    {
    }

    lemma FilterSame(s: seq<nat>, p: nat -> bool, q: nat -> bool)
      requires forall r: nat :: p(r) == q(r)
      ensures Filter(s, p) == Filter(s, q)
    {
      FilterAgree(s, p, q);
    }

    /** Adds other work; of two well-formed pieces of work the result is the pointwise maximum, bounded. */
    method MergeConservatively(other: Work, document: nat)
      modifies this
      ensures Contents() == Merged(old(Contents()), other, document, 256)
      ensures old(WellFormed(Contents()) && !IsEmpty(Contents())) && WellFormed(other) && !IsEmpty(other) ==>
        WellFormed(Contents())
          && MeaningOf(Contents()) == Bounded(Join(old(MeaningOf(Contents())), MeaningOf(other)), document, 256)
    {
      hide Merged, MeaningOf, Join, Bounded, WellFormed, IsEmpty;
      ghost var before := Contents();
      if WellFormed(before) && !IsEmpty(before) && WellFormed(other) && !IsEmpty(other) {
        MergedMeaning(before, other, document, MAX_ROOTS);
      }
      MergeWithRootLimit(other, document, MAX_ROOTS);
    }
  }
}
