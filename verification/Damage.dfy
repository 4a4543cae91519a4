/** What has to be painted again when one display list replaces another. Rectangles are over the reals. */
module Damage {
  import opened Outcome

  datatype Rect = Rect(x: real, y: real, width: real, height: real)

  const ORIGIN: Rect := Rect(0.0, 0.0, 0.0, 0.0)
  const EPSILON: real := 0.00000011920928955078125

  function Right(r: Rect): real {
    r.x + r.width
  }

  function Bottom(r: Rect): real {
    r.y + r.height
  }

  datatype Nesting = Begins | Ends | Neither

  /** Display items by where their bounds come from; `what` stands for everything else that is compared. */
  datatype Item =
    | Boundary(what: nat)
    | Bracket(bounds: Rect, what: nat, nesting: Nesting)
    | Filled(rect: Rect, what: nat)
    | Text(rect: Rect, what: nat, run: nat, glyphs: seq<real>)
    | Image(rect: Rect, clip: Option<Rect>, what: nat)
    | Clipped(clipRect: Rect, what: nat)

  datatype List = List(items: seq<Item>, background: nat, height: real)

  datatype Damage = Damage(rect: Option<Rect>, changed: nat, full: bool)

  // ---------- Comparing ----------

  /** Text is recognised by its shared glyph run before its glyphs are compared. */
  predicate Same(a: Item, b: Item) {
    if a.Text? && b.Text? then a.rect == b.rect && a.what == b.what && (a.run == b.run || a.glyphs == b.glyphs)
      else a == b
  }

  predicate SameNumber(a: real, b: real) {
    (if a < b then b - a else a - b) < EPSILON
  }

  function Bounds(i: Item): Rect {
    match i
    case Boundary(_) => ORIGIN
    case Bracket(bounds, _, _) => bounds
    case Filled(rect, _) => rect
    case Text(rect, _, _, _) => rect
    case Image(rect, clip, _) => if clip.Some? then clip.value else rect
    case Clipped(clipRect, _) => clipRect
  }

  function Min(a: real, b: real): real {
    if b < a then b else a
  }

  function Max(a: real, b: real): real {
    if a < b then b else a
  }

  function UnionRects(a: Rect, b: Rect): Rect {
    var x, y := Min(a.x, b.x), Min(a.y, b.y);
    Rect(x, y, Max(Right(a), Right(b)) - x, Max(Bottom(a), Bottom(b)) - y)
  }

  function UnionAll(items: seq<Item>): Rect
    requires items != []
  {
    if |items| == 1 then Bounds(items[0]) else UnionRects(UnionAll(items[..|items| - 1]), Bounds(items[|items| - 1]))
  }

  /** How many leading items are the same. */
  function CommonPrefix(a: seq<Item>, b: seq<Item>): (n: nat)
    ensures n <= |a| && n <= |b|
  {
    if a != [] && b != [] && Same(a[0], b[0]) then 1 + CommonPrefix(a[1..], b[1..]) else 0
  }

  /** How many trailing items are the same, up to a limit. */
  function CommonSuffix(a: seq<Item>, b: seq<Item>, limit: nat): (n: nat)
    ensures n <= |a| && n <= |b| && n <= limit
    decreases limit
  {
    if limit > 0 && a != [] && b != [] && Same(a[|a| - 1], b[|b| - 1]) then
      1 + CommonSuffix(a[..|a| - 1], b[..|b| - 1], limit - 1)
    else 0
  }

  predicate AllSame(a: seq<Item>, b: seq<Item>) {
    |a| == |b| && forall i :: 0 <= i < |a| ==> Same(a[i], b[i])
  }

  /** Where the changed slices begin, and how many items follow them. */
  function Edges(a: seq<Item>, b: seq<Item>): (r: (nat, nat))
    ensures r.0 + r.1 <= |a| && r.0 + r.1 <= |b|
  {
    var prefix := CommonPrefix(a, b);
    (prefix, CommonSuffix(a, b, (if |a| < |b| then |a| else |b|) - prefix))
  }

  function Changed(a: seq<Item>, edges: (nat, nat)): seq<Item>
    requires edges.0 + edges.1 <= |a|
  {
    a[edges.0..|a| - edges.1]
  }

  function Larger(a: nat, b: nat): nat {
    if a < b then b else a
  }

  predicate Replaced(previous: List, next: List) {
    || previous.items == []
    || previous.background != next.background
    || (!SameNumber(previous.height, next.height) && AllSame(previous.items, next.items))
  }

  function Between(previous: List, next: List): Damage {
    var total := Larger(|previous.items|, |next.items|);
    if Replaced(previous, next) then Damage(None, total, true)
    else
      var edges := Edges(previous.items, next.items);
      var before, after := Changed(previous.items, edges), Changed(next.items, edges);
      var changed := Larger(|before|, |after|);
      if changed == 0 then Damage(None, 0, false)
      else if changed * 4 >= total * 3 then Damage(None, changed, true)
      else Damage(Some(UnionAll(before + after)), changed, false)
  }

  // ---------- What is shared, and what the rectangle holds ----------

  lemma {:induction false} PrefixSame(a: seq<Item>, b: seq<Item>)
    ensures var n := CommonPrefix(a, b);
      AllSame(a[..n], b[..n]) && (n < |a| && n < |b| ==> !Same(a[n], b[n]))
  {
    if a != [] && b != [] && Same(a[0], b[0]) {
      PrefixSame(a[1..], b[1..]);
      var n := CommonPrefix(a[1..], b[1..]);
      assert a[..n + 1] == [a[0]] + a[1..][..n] && b[..n + 1] == [b[0]] + b[1..][..n];
    }
  }

  lemma OneMoreSame(a: seq<Item>, b: seq<Item>, x: Item, y: Item)
    requires AllSame(a, b) && Same(x, y)
    ensures AllSame(a + [x], b + [y])
  {
  }

  lemma TailGrows(a: seq<Item>, n: nat)
    requires n < |a|
    ensures a[|a| - (n + 1)..] == a[..|a| - 1][|a| - 1 - n..] + [a[|a| - 1]]
  {
  }

  /** The trailing items counted are the same, and the item before them is not, unless the limit stopped the count. */
  ghost predicate SuffixOf(a: seq<Item>, b: seq<Item>, limit: nat, n: nat) {
    && n <= |a| && n <= |b|
    && AllSame(a[|a| - n..], b[|b| - n..])
    && (n < limit && n < |a| && n < |b| ==> !Same(a[|a| - 1 - n], b[|b| - 1 - n]))
  }

  lemma SuffixGrows(a: seq<Item>, b: seq<Item>, limit: nat, n: nat)
    requires a != [] && b != [] && Same(a[|a| - 1], b[|b| - 1]) && SuffixOf(a[..|a| - 1], b[..|b| - 1], limit, n)
    ensures SuffixOf(a, b, limit + 1, n + 1)
  {
    var c, d := a[..|a| - 1], b[..|b| - 1];
    OneMoreSame(c[|c| - n..], d[|d| - n..], a[|a| - 1], b[|b| - 1]);
    TailGrows(a, n);
    TailGrows(b, n);
    hide Same, AllSame;
  }

  lemma {:induction false} SuffixSame(a: seq<Item>, b: seq<Item>, limit: nat)
    ensures SuffixOf(a, b, limit, CommonSuffix(a, b, limit))
    decreases limit
  {
    hide Same;
    if limit > 0 && a != [] && b != [] && Same(a[|a| - 1], b[|b| - 1]) {
      var c, d := a[..|a| - 1], b[..|b| - 1];
      hide SuffixOf;
      SuffixSame(c, d, limit - 1);
      SuffixGrows(a, b, limit - 1, CommonSuffix(c, d, limit - 1));
    }
  }

  predicate Contains(outer: Rect, inner: Rect) {
    outer.x <= inner.x && outer.y <= inner.y && Right(inner) <= Right(outer) && Bottom(inner) <= Bottom(outer)
  }

  /** The union is the least rectangle that contains the bounds of every item. */
  lemma {:induction false} UnionLeast(items: seq<Item>, r: Rect)
    requires items != []
    ensures forall i :: 0 <= i < |items| ==> Contains(UnionAll(items), Bounds(items[i]))
    ensures (forall i :: 0 <= i < |items| ==> Contains(r, Bounds(items[i]))) ==> Contains(r, UnionAll(items))
  {
    hide Bounds;
    if |items| > 1 {
      var n := |items| - 1;
      UnionLeast(items[..n], r);
      UnionCovers(UnionAll(items[..n]), Bounds(items[n]), r);
      forall i | 0 <= i < |items| ensures Contains(UnionAll(items), Bounds(items[i])) {
        if i < n {
          assert items[..n][i] == items[i];
        }
      }
    }
  }

  lemma UnionCovers(a: Rect, b: Rect, r: Rect)
    ensures Contains(UnionRects(a, b), a) && Contains(UnionRects(a, b), b)
    ensures Contains(r, a) && Contains(r, b) ==> Contains(r, UnionRects(a, b))
  {
  }

  /** The lists agree around the changed slices. */
  lemma EdgesAgree(a: seq<Item>, b: seq<Item>)
    ensures var edges := Edges(a, b);
      AllSame(a[..edges.0], b[..edges.0]) && AllSame(a[|a| - edges.1..], b[|b| - edges.1..])
  {
    PrefixSame(a, b);
    SuffixSame(a, b, (if |a| < |b| then |a| else |b|) - CommonPrefix(a, b));
  }

  /** Damage that is not full: its rectangle is the least one that holds the bounds of both changed slices. */
  lemma DamageExact(previous: List, next: List, r: Rect)
    requires !Between(previous, next).full
    ensures previous.background == next.background
    ensures Between(previous, next).rect.None? <==> AllSame(previous.items, next.items)
    ensures var edges := Edges(previous.items, next.items);
      var changed := Changed(previous.items, edges) + Changed(next.items, edges);
      Between(previous, next).rect.Some? ==>
        && changed != [] && Between(previous, next).rect.value == UnionAll(changed)
        && (forall i :: 0 <= i < |changed| ==> Contains(UnionAll(changed), Bounds(changed[i])))
        && ((forall i :: 0 <= i < |changed| ==> Contains(r, Bounds(changed[i]))) ==> Contains(r, UnionAll(changed)))
  {
    var edges := Edges(previous.items, next.items);
    var changed := Changed(previous.items, edges) + Changed(next.items, edges);
    if changed != [] {
      UnionLeast(changed, r);
    }
    AllSameEdges(previous.items, next.items);
    hide Same, UnionAll, Contains, AllSame, Edges, Bounds;
    assert |changed| == |Changed(previous.items, edges)| + |Changed(next.items, edges)|;
  }

  lemma AllSamePrefix(a: seq<Item>, b: seq<Item>)
    ensures AllSame(a, b) <==> |a| == |b| && CommonPrefix(a, b) == |a|
  {
    PrefixSame(a, b);
    var n := CommonPrefix(a, b);
    hide Same, CommonPrefix;
    assert n == |a| ==> a[..n] == a;
    assert n == |b| ==> b[..n] == b;
  }

  /** Nothing changed exactly when both slices are empty. */
  lemma AllSameEdges(a: seq<Item>, b: seq<Item>)
    ensures var edges := Edges(a, b); AllSame(a, b) <==> Changed(a, edges) == [] && Changed(b, edges) == []
  {
    AllSamePrefix(a, b);
    EdgesAgree(a, b);
    hide AllSame, CommonPrefix, CommonSuffix;
    var edges := Edges(a, b);
    if Changed(a, edges) == [] && Changed(b, edges) == [] {
      assert |a| == edges.0 + edges.1 == |b|;
      SlicesSame(a, b, edges.0);
    }
  }

  lemma SlicesSame(a: seq<Item>, b: seq<Item>, n: nat)
    requires n <= |a| == |b| && AllSame(a[..n], b[..n]) && AllSame(a[n..], b[n..])
    ensures AllSame(a, b)
  {
    hide Same;
    forall i | 0 <= i < |a| ensures Same(a[i], b[i]) {
      if i < n {
        assert a[..n][i] == a[i] && b[..n][i] == b[i];
      } else {
        assert a[n..][i - n] == a[i] && b[n..][i - n] == b[i];
      }
    }
  }

  /** When everything is painted again instead. */
  lemma FullExact(previous: List, next: List)
    ensures var edges := Edges(previous.items, next.items);
      var changed := Larger(|Changed(previous.items, edges)|, |Changed(next.items, edges)|);
      Between(previous, next).full <==>
        || previous.items == [] || previous.background != next.background
        || (!SameNumber(previous.height, next.height) && AllSame(previous.items, next.items))
        || (!AllSame(previous.items, next.items) && 4 * changed >= 3 * Larger(|previous.items|, |next.items|))
  {
    AllSameEdges(previous.items, next.items);
    hide Same, AllSame, CommonPrefix, CommonSuffix;
  }

  // ---------- The verdict, on the lists alone ----------

  /** The lists agree before and behind two slices, and the slices neither start nor end with the same item. */
  ghost predicate Differ(a: seq<Item>, b: seq<Item>, prefix: nat, suffix: nat) {
    && prefix + suffix <= |a| && prefix + suffix <= |b|
    && AllSame(a[..prefix], b[..prefix]) && AllSame(a[|a| - suffix..], b[|b| - suffix..])
    && (prefix < |a| && prefix < |b| ==> !Same(a[prefix], b[prefix]))
    && (prefix + suffix < |a| && prefix + suffix < |b| ==> !Same(a[|a| - 1 - suffix], b[|b| - 1 - suffix]))
  }

  lemma SameAt(a: seq<Item>, b: seq<Item>, i: nat)
    requires AllSame(a, b) && i < |a|
    ensures Same(a[i], b[i])
  {
  }

  lemma FrontAgrees(a: seq<Item>, b: seq<Item>, p: nat, q: nat)
    requires p < q <= |a| && q <= |b| && AllSame(a[..q], b[..q])
    ensures Same(a[p], b[p])
  {
    hide Same;
    SameAt(a[..q], b[..q], p);
  }

  lemma BackAgrees(a: seq<Item>, b: seq<Item>, m: nat, n: nat)
    requires m < n <= |a| && n <= |b| && AllSame(a[|a| - n..], b[|b| - n..])
    ensures Same(a[|a| - 1 - m], b[|b| - 1 - m])
  {
    hide Same;
    SameAt(a[|a| - n..], b[|b| - n..], n - 1 - m);
  }

  lemma DifferFrom(a: seq<Item>, b: seq<Item>, p: nat, n: nat)
    requires p + n <= |a| && p + n <= |b| && AllSame(a[..p], b[..p])
    requires p < |a| && p < |b| ==> !Same(a[p], b[p])
    requires SuffixOf(a, b, (if |a| < |b| then |a| else |b|) - p, n)
    ensures Differ(a, b, p, n)
  {
    hide Same, AllSame;
  }

  lemma EdgesDiffer(a: seq<Item>, b: seq<Item>)
    ensures Differ(a, b, Edges(a, b).0, Edges(a, b).1)
  {
    PrefixSame(a, b);
    SuffixSame(a, b, (if |a| < |b| then |a| else |b|) - CommonPrefix(a, b));
    hide Same, AllSame, CommonPrefix, CommonSuffix, SuffixOf, Differ;
    DifferFrom(a, b, Edges(a, b).0, Edges(a, b).1);
  }

  /** There is only one way to single out such slices, and it is the one the comparison finds. */
  lemma DifferExact(a: seq<Item>, b: seq<Item>, prefix: nat, suffix: nat)
    ensures Differ(a, b, prefix, suffix) <==> Edges(a, b) == (prefix, suffix)
  {
    EdgesDiffer(a, b);
    hide Same, AllSame, Edges;
    var (p, n) := Edges(a, b);
    if Differ(a, b, prefix, suffix) {
      if prefix < p {
        FrontAgrees(a, b, prefix, p);
      }
      if p < prefix {
        FrontAgrees(a, b, p, prefix);
      }
      if suffix < n {
        BackAgrees(a, b, suffix, n);
      }
      if n < suffix {
        BackAgrees(a, b, n, suffix);
      }
    }
  }

  /** A rectangle holds what an item covers: an image only where it is clipped to, a boundary the origin. */
  predicate Holds(r: Rect, i: Item) {
    && (i.Boundary? ==> Contains(r, Rect(0.0, 0.0, 0.0, 0.0)))
    && (i.Bracket? ==> Contains(r, i.bounds))
    && (i.Filled? || i.Text? || (i.Image? && i.clip.None?) ==> Contains(r, i.rect))
    && (i.Image? && i.clip.Some? ==> Contains(r, i.clip.value))
    && (i.Clipped? ==> Contains(r, i.clipRect))
  }

  /**
    * Nothing was painted before, or the background changed, or nothing but the height, by at least 2
    * to the power -23.
    */
  predicate Anew(previous: List, next: List) {
    || previous.items == [] || previous.background != next.background
    || (AllSame(previous.items, next.items)
        && (previous.height - next.height >= 1.0 / 8_388_608.0 || next.height - previous.height >= 1.0 / 8_388_608.0))
  }

  function Slices(a: seq<Item>, b: seq<Item>, prefix: nat, suffix: nat): seq<Item>
    requires prefix + suffix <= |a| && prefix + suffix <= |b|
  {
    a[prefix..|a| - suffix] + b[prefix..|b| - suffix]
  }

  /**
    * What is damaged: everything if the list is painted anew, or if three quarters of the longer list or
    * more changed; nothing if the lists are the same; otherwise the least rectangle that holds every item
    * of both slices.
    */
  lemma DamagedExactly(previous: List, next: List, prefix: nat, suffix: nat, r: Rect)
    requires Differ(previous.items, next.items, prefix, suffix)
    ensures var d, slices := Between(previous, next), Slices(previous.items, next.items, prefix, suffix);
      var longer := if |previous.items| < |next.items| then |next.items| else |previous.items|;
      var changed := longer - prefix - suffix;
      if Anew(previous, next) then d == Damage(None, longer, true)
      else if slices == [] then d == Damage(None, 0, false)
      else if 4 * changed >= 3 * longer then d == Damage(None, changed, true)
      else
        && d.rect.Some? && d.changed == changed && !d.full
        && (forall i :: i in slices ==> Holds(d.rect.value, i))
        && ((forall i :: i in slices ==> Holds(r, i)) ==> Contains(r, d.rect.value))
  {
    DifferExact(previous.items, next.items, prefix, suffix);
    BetweenIs(previous, next, prefix, suffix);
    hide *;
    AnewExact(previous, next);
    var slices := Slices(previous.items, next.items, prefix, suffix);
    if slices != [] {
      UnionHolds(slices, r);
    }
  }

  lemma BetweenIs(previous: List, next: List, prefix: nat, suffix: nat)
    requires Edges(previous.items, next.items) == (prefix, suffix)
    ensures prefix + suffix <= |previous.items| && prefix + suffix <= |next.items|
    ensures var slices := Slices(previous.items, next.items, prefix, suffix);
      var longer := if |previous.items| < |next.items| then |next.items| else |previous.items|;
      var changed := longer - prefix - suffix;
      && (slices == [] <==> changed == 0)
      && (Replaced(previous, next) ==> Between(previous, next) == Damage(None, longer, true))
      && (!Replaced(previous, next) && slices == [] ==> Between(previous, next) == Damage(None, 0, false))
      && (!Replaced(previous, next) && slices != [] && 4 * changed >= 3 * longer ==>
           Between(previous, next) == Damage(None, changed, true))
      && (!Replaced(previous, next) && slices != [] && 4 * changed < 3 * longer ==>
           Between(previous, next) == Damage(Some(UnionAll(slices)), changed, false))
  {
    hide Edges, Replaced, UnionAll;
  }

  lemma AnewExact(previous: List, next: List)
    ensures Anew(previous, next) <==> Replaced(previous, next)
  {
    hide AllSame;
  }

  lemma BoundsHold(r: Rect, i: Item)
    ensures Holds(r, i) <==> Contains(r, Bounds(i))
  {
    hide Contains;
  }

  lemma UnionHolds(items: seq<Item>, r: Rect)
    requires items != []
    ensures forall i :: i in items ==> Holds(UnionAll(items), i)
    ensures (forall i :: i in items ==> Holds(r, i)) ==> Contains(r, UnionAll(items))
  {
    UnionLeast(items, r);
    hide *;
    forall k | 0 <= k < |items|
      ensures Holds(UnionAll(items), items[k]) && (Holds(r, items[k]) <==> Contains(r, Bounds(items[k])))
    {
      BoundsHold(UnionAll(items), items[k]);
      BoundsHold(r, items[k]);
    }
  }

  // ---------- Painting ----------

  datatype Point = Point(x: real, y: real)

  predicate Inside(r: Rect, p: Point) {
    r.x <= p.x < Right(r) && r.y <= p.y < Bottom(r)
  }

  /**
    * A painter works on one pixel at a time: an item acts on the pixel's state, and outside every
    * bracket around it a pixel only counts how deep it is nested.
    */
  datatype Painter<!S> = Painter(act: (Item, Point, S) -> S, nest: (S, int) -> S)

  function Depth(i: Item): int {
    if !i.Bracket? || i.nesting.Neither? then 0 else if i.nesting.Begins? then 1 else -1
  }

  /** Outside its bounds an item alters nothing but the nesting, and items that are the same act the same. */
  ghost predicate Local<S(!new)>(painter: Painter<S>) {
    && (forall i, p, s :: !Inside(Bounds(i), p) ==> painter.act(i, p, s) == painter.nest(s, Depth(i)))
    && (forall i, j, p, s :: Same(i, j) ==> painter.act(i, p, s) == painter.act(j, p, s))
    && (forall s :: painter.nest(s, 0) == s)
    && (forall s, m, n :: painter.nest(painter.nest(s, m), n) == painter.nest(s, m + n))
  }

  function PaintAt<S>(painter: Painter<S>, items: seq<Item>, p: Point, s: S): S {
    if items == [] then s else painter.act(items[|items| - 1], p, PaintAt(painter, items[..|items| - 1], p, s))
  }

  function TotalDepth(items: seq<Item>): int {
    if items == [] then 0 else TotalDepth(items[..|items| - 1]) + Depth(items[|items| - 1])
  }

  lemma {:induction false} PaintConcat<S>(painter: Painter<S>, a: seq<Item>, b: seq<Item>, p: Point, s: S)
    ensures PaintAt(painter, a + b, p, s) == PaintAt(painter, b, p, PaintAt(painter, a, p, s))
    ensures TotalDepth(a + b) == TotalDepth(a) + TotalDepth(b)
  {
    if b == [] {
      assert a + b == a;
    } else {
      var n := |b| - 1;
      assert (a + b)[..|a| + n] == a + b[..n];
      PaintConcat(painter, a, b[..n], p, s);
    }
  }

  lemma ActSame<S(!new)>(painter: Painter<S>, i: Item, j: Item, p: Point, s: S)
    requires Local(painter) && Same(i, j)
    ensures painter.act(i, p, s) == painter.act(j, p, s) && Depth(i) == Depth(j)
  {
  }

  lemma ActOutside<S(!new)>(painter: Painter<S>, i: Item, p: Point, s: S, m: int)
    requires Local(painter) && !Inside(Bounds(i), p)
    ensures painter.act(i, p, painter.nest(s, m)) == painter.nest(s, m + Depth(i))
  {
    hide Bounds, Inside, Same, Depth;
  }

  lemma {:induction false} PaintSame<S(!new)>(painter: Painter<S>, a: seq<Item>, b: seq<Item>, p: Point, s: S)
    requires Local(painter) && AllSame(a, b)
    ensures PaintAt(painter, a, p, s) == PaintAt(painter, b, p, s)
    ensures TotalDepth(a) == TotalDepth(b)
  {
    hide Local, Same, Depth;
    if a != [] {
      var n := |a| - 1;
      PaintSame(painter, a[..n], b[..n], p, s);
      ActSame(painter, a[n], b[n], p, PaintAt(painter, a[..n], p, s));
    }
  }

  lemma {:induction false} PaintOutside<S(!new)>(painter: Painter<S>, items: seq<Item>, p: Point, s: S)
    requires Local(painter) && forall i :: 0 <= i < |items| ==> !Inside(Bounds(items[i]), p)
    ensures PaintAt(painter, items, p, s) == painter.nest(s, TotalDepth(items))
  {
    hide Local, Bounds, Inside, Depth;
    if items == [] {
      NotNested(painter, s);
    } else {
      var n := |items| - 1;
      PaintOutside(painter, items[..n], p, s);
      ActOutside(painter, items[n], p, s, TotalDepth(items[..n]));
    }
  }

  lemma NotNested<S(!new)>(painter: Painter<S>, s: S)
    requires Local(painter)
    ensures painter.nest(s, 0) == s
  {
  }

  /** The picture after repainting only where the damage says. */
  function Repainted<S>(painter: Painter<S>, previous: List, next: List, p: Point, s: S): S {
    var d := Between(previous, next);
    if d.full || (d.rect.Some? && Inside(d.rect.value, p)) then PaintAt(painter, next.items, p, s)
    else PaintAt(painter, previous.items, p, s)
  }

  lemma SlicesTile(a: seq<Item>, edges: (nat, nat))
    requires edges.0 + edges.1 <= |a|
    ensures a == a[..edges.0] + Changed(a, edges) + a[|a| - edges.1..]
  {
  }

  lemma PaintSlices<S>(painter: Painter<S>, a: seq<Item>, edges: (nat, nat), p: Point, s: S)
    requires edges.0 + edges.1 <= |a|
    ensures PaintAt(painter, a, p, s) ==
      PaintAt(painter, a[|a| - edges.1..], p,
        PaintAt(painter, Changed(a, edges), p, PaintAt(painter, a[..edges.0], p, s)))
    ensures TotalDepth(a) == TotalDepth(a[..edges.0]) + TotalDepth(Changed(a, edges)) + TotalDepth(a[|a| - edges.1..])
  {
    SlicesTile(a, edges);
    var front := a[..edges.0] + Changed(a, edges);
    PaintConcat(painter, front, a[|a| - edges.1..], p, s);
    PaintConcat(painter, a[..edges.0], Changed(a, edges), p, s);
  }

  lemma OutsideDamage(changed: seq<Item>, r: Rect, p: Point)
    requires !Inside(r, p) && forall i :: 0 <= i < |changed| ==> Contains(r, Bounds(changed[i]))
    ensures forall i :: 0 <= i < |changed| ==> !Inside(Bounds(changed[i]), p)
  {
    hide Bounds;
  }

  /** A pixel outside both changed slices is painted the same by both lists. */
  lemma PaintOutsideSlices<S(!new)>(painter: Painter<S>, previous: List, next: List, p: Point, s: S)
    requires Local(painter) && TotalDepth(previous.items) == TotalDepth(next.items)
    requires var edges, a, b := Edges(previous.items, next.items), previous.items, next.items;
      && AllSame(a[..edges.0], b[..edges.0]) && AllSame(a[|a| - edges.1..], b[|b| - edges.1..])
      && var changed := Changed(a, edges) + Changed(b, edges);
      && forall i :: 0 <= i < |changed| ==> !Inside(Bounds(changed[i]), p)
    ensures PaintAt(painter, previous.items, p, s) == PaintAt(painter, next.items, p, s)
  {
    var a, b := previous.items, next.items;
    var edges := Edges(a, b);
    hide Local, Edges, AllSame, Inside, Bounds, PaintAt, TotalDepth;
    PaintSlices(painter, a, edges, p, s);
    PaintSlices(painter, b, edges, p, s);
    PaintSame(painter, a[..edges.0], b[..edges.0], p, s);
    var middle := PaintAt(painter, a[..edges.0], p, s);
    var c, d := Changed(a, edges), Changed(b, edges);
    forall i | 0 <= i < |c| ensures !Inside(Bounds(c[i]), p) {
      assert (c + d)[i] == c[i];
    }
    forall i | 0 <= i < |d| ensures !Inside(Bounds(d[i]), p) {
      assert (c + d)[|c| + i] == d[i];
    }
    PaintOutside(painter, c, p, middle);
    PaintOutside(painter, d, p, middle);
    PaintSame(painter, a[|a| - edges.1..], b[|b| - edges.1..], p, PaintAt(painter, c, p, middle));
  }

  /** Repainting only the damage gives the picture that repainting everything gives, at every pixel. */
  lemma PartialRepaintExact<S(!new)>(painter: Painter<S>, previous: List, next: List, p: Point, s: S)
    requires Local(painter) && TotalDepth(previous.items) == TotalDepth(next.items)
    ensures Repainted(painter, previous, next, p, s) == PaintAt(painter, next.items, p, s)
  {
    var d := Between(previous, next);
    if !d.full {
      DamageExact(previous, next, ORIGIN);
      EdgesAgree(previous.items, next.items);
      hide Between, Local, Edges, UnionAll, Contains, Bounds, Inside, PaintAt, TotalDepth, AllSame;
      if d.rect.None? {
        PaintSame(painter, previous.items, next.items, p, s);
      } else if !Inside(d.rect.value, p) {
        var edges := Edges(previous.items, next.items);
        OutsideDamage(Changed(previous.items, edges) + Changed(next.items, edges), d.rect.value, p);
        PaintOutsideSlices(painter, previous, next, p, s);
      }
    }
  }
}
