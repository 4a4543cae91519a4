/** The shape of every WebM file the walk admits. */
module WebmShape {
  import opened Bytes
  import opened Outcome
  import opened Ebml
  import opened WebmTiming
  import opened WebmModel

  // ---------- Elements tile their parents ----------

  /** An element's head spells its id and size, and its payload is what that size claims. */
  ghost predicate Headed(e: Element, behind: seq<byte>) {
    && Vint(e.head, true).Ok? && Vint(e.head, true).value.0 == e.id
    && var width := Vint(e.head, true).value.1;
       && Vint(e.head[width..], false).Ok?
       && var (size, sizeWidth) := Vint(e.head[width..], false).value;
          && |e.head| == width + sizeWidth
          && (e.unknown <==> size == UnknownSize(sizeWidth))
          && (!e.unknown ==> |e.payload| == size)
          && (e.unknown ==> UnknownExtent(e, behind))
  }

  ghost predicate UnknownExtent(e: Element, behind: seq<byte>) {
    (e.id == SEGMENT && behind == []) || (e.id == CLUSTER && ClusterChildren(e.payload) && EndsCluster(behind))
  }

  /** The elements, one after the other, are exactly these bytes; so are the children of each master in its payload. */
  ghost predicate Tiles(tree: seq<Element>, bytes: seq<byte>)
    decreases tree, 0
  {
    if tree == [] then bytes == []
    else
      var e := tree[0];
      var end := |e.head| + |e.payload|;
      && end > 0 && e.head + e.payload <= bytes
      && Headed(e, bytes[end..])
      && (Master(e.id) || e.id == VOID || |e.payload| <= 262_144)
      && Filled(e)
      && Tiles(tree[1..], bytes[end..])
  }

  ghost predicate Filled(e: Element)
    decreases e, 1
  {
    if Master(e.id) then Tiles(e.children, e.payload) else e.children == []
  }

  /** How deep the tree nests. */
  ghost function Height(tree: seq<Element>): nat
    decreases tree, 0
  {
    if tree == [] then 0
    else
      var below, beside := HeightBelow(tree[0]), Height(tree[1..]);
      if 1 + below > beside then 1 + below else beside
  }

  ghost function HeightBelow(e: Element): nat
    decreases e, 1
  {
    Height(e.children)
  }

  /** How many elements the tree has. */
  ghost function Size(tree: seq<Element>): nat
    decreases tree, 0
  {
    if tree == [] then 0 else 1 + SizeBelow(tree[0]) + Size(tree[1..])
  }

  ghost function SizeBelow(e: Element): nat
    decreases e, 1
  {
    Size(e.children)
  }

  /** Reading an element from a slice that ends with it gives the same head. */
  lemma ReadElementHeaded(bytes: seq<byte>)
    requires bytes != [] && ReadElement(bytes).Ok?
    ensures var e := ReadElement(bytes).value; Headed(e, bytes[|e.head| + |e.payload|..])
  {
    hide ClusterLength, ClusterChildren, EndsCluster, FromBigEndian, SegmentLevel;
    var e := ReadElement(bytes).value;
    var width := Vint(bytes, true).value.1;
    VintOfPrefix(bytes, |e.head|, true);
    VintOfPrefix(bytes[width..], |e.head| - width, false);
    assert bytes[width..][..|e.head| - width] == e.head[width..];
    if e.unknown && e.id == CLUSTER {
      var behind := bytes[|e.head|..];
      ClusterLengthExact(behind, |e.payload|);
      assert behind[..|e.payload|] == e.payload && behind[|e.payload|..] == bytes[|e.head| + |e.payload|..];
    }
  }

  lemma {:induction false} WalkTiles(bytes: seq<byte>, parent: nat, depth: nat, p: PolicyState, o: Oracles)
    requires Walk(bytes, parent, depth, p, o).Ok?
    ensures Tiles(Walk(bytes, parent, depth, p, o).value.0, bytes)
    ensures depth + Height(Walk(bytes, parent, depth, p, o).value.0) <= MAX_DEPTH + 1
    decreases |bytes|, 1
  {
    WalkRestTiles(bytes, parent, depth, true, NoFlags, p, o);
  }

  /** One element before a run that tiles what is behind it. */
  lemma TilesCons(bytes: seq<byte>, e: Element, tail: seq<Element>)
    requires |e.head| >= 2 && e.head + e.payload <= bytes && Headed(e, bytes[|e.head| + |e.payload|..])
    requires Master(e.id) || e.id == VOID || |e.payload| <= MAX_LEAF
    requires if Master(e.id) then Tiles(e.children, e.payload) else e.children == []
    requires Tiles(tail, bytes[|e.head| + |e.payload|..])
    ensures Tiles([e] + tail, bytes)
  {
    hide Headed;
    assert ([e] + tail)[1..] == tail;
  }

  lemma HeightCons(e: Element, tail: seq<Element>, bound: nat)
    requires 1 + Height(e.children) <= bound && Height(tail) <= bound
    ensures Height([e] + tail) <= bound
  {
    assert ([e] + tail)[1..] == tail;
  }

  lemma {:induction false} WalkRestTiles(bytes: seq<byte>, parent: nat, depth: nat, first: bool, f: Flags,
      p: PolicyState, o: Oracles)
    requires depth <= MAX_DEPTH && WalkRest(bytes, parent, depth, first, f, p, o).Ok?
    ensures Tiles(WalkRest(bytes, parent, depth, first, f, p, o).value.0, bytes)
    ensures depth + Height(WalkRest(bytes, parent, depth, first, f, p, o).value.0) <= MAX_DEPTH + 1
    decreases |bytes|, 0
  {
    hide Take, Headed, Vint, ReadElement, Walk, Tiles, Height;
    if bytes == [] {
      NothingTiles();
    } else {
      var e := ReadElement(bytes).value;
      var end := |e.head| + |e.payload|;
      var (f', p') := Take(e, parent, first, bytes[end..], f, p, o).value;
      var (children, p'') := Descend(e, depth, p', o).value;
      ReadElementHeaded(bytes);
      ReadElementLeaf(bytes);
      NothingTiles();
      if Master(e.id) {
        WalkTiles(e.payload, e.id, depth + 1, p', o);
      }
      WalkRestTiles(bytes[end..], parent, depth, false, f', p'', o);
      HeadedChildren(e, children, bytes[end..]);
      var tail := WalkRest(bytes[end..], parent, depth, false, f', p'', o).value.0;
      TilesCons(bytes, e.(children := children), tail);
      HeightCons(e.(children := children), tail, MAX_DEPTH + 1 - depth);
    }
  }

  lemma NothingTiles()
    ensures Tiles([], []) && Height([]) == 0
  {
  }

  lemma ReadElementLeaf(bytes: seq<byte>)
    requires bytes != [] && ReadElement(bytes).Ok?
    ensures var e := ReadElement(bytes).value; Master(e.id) || e.id == VOID || |e.payload| <= MAX_LEAF
  {
  }

  lemma HeadedChildren(e: Element, children: seq<Element>, behind: seq<byte>)
    requires Headed(e, behind)
    ensures Headed(e.(children := children), behind)
  {
  }

  // ---------- Blocks lie in timestamped Clusters ----------

  predicate PlacedOne(e: Element, parent: nat, stamped: bool) {
    && (e.id == HEADER || e.id == SEGMENT ==> parent == 0)
    && (e.id == CLUSTER ==> parent == SEGMENT)
    && (e.id == TRACK ==> parent == TRACKS)
    && (e.id == BLOCK_GROUP || e.id == SIMPLE_BLOCK ==> parent == CLUSTER && stamped)
    && (e.id == BLOCK ==> parent == BLOCK_GROUP)
    && (e.id == TIMESTAMP && parent == CLUSTER ==> !stamped)
    && (IsBlock(e.id) ==> e.payload != [] && ReadBlockHead(e.payload).Ok?)
    && (parent == 0 ==> e.id == HEADER || e.id == SEGMENT || e.id == VOID)
  }

  predicate Stamps(e: Element, parent: nat) {
    e.id == TIMESTAMP && parent == CLUSTER
  }

  /** `stamped` says whether an earlier sibling was the Cluster's Timestamp. */
  ghost predicate Placed(tree: seq<Element>, parent: nat, stamped: bool)
    decreases tree, 0
  {
    tree == []
    || (&& PlacedOne(tree[0], parent, stamped)
        && PlacedBelow(tree[0])
        && Placed(tree[1..], parent, stamped || Stamps(tree[0], parent)))
  }

  ghost predicate PlacedBelow(e: Element)
    decreases e, 1
  {
    && Placed(e.children, e.id, false)
    && (e.id == CLUSTER ==> exists i :: 0 <= i < |e.children| && e.children[i].id == TIMESTAMP)
  }

  lemma TakePlaces(e: Element, parent: nat, first: bool, behind: seq<byte>, f: Flags, p: PolicyState, o: Oracles)
    requires Take(e, parent, first, behind, f, p, o).Ok?
    ensures PlacedOne(e, parent, f.timestamp)
    ensures Take(e, parent, first, behind, f, p, o).value.0.timestamp == (f.timestamp || Stamps(e, parent))
  {
    hide ReadBlockHead, Uint;
  }

  lemma {:induction false} WalkPlaced(bytes: seq<byte>, parent: nat, depth: nat, p: PolicyState, o: Oracles)
    requires Walk(bytes, parent, depth, p, o).Ok?
    ensures Placed(Walk(bytes, parent, depth, p, o).value.0, parent, false)
    ensures parent == CLUSTER ==> var tree := Walk(bytes, parent, depth, p, o).value.0;
      exists i :: 0 <= i < |tree| && tree[i].id == TIMESTAMP
    decreases |bytes|, 1
  {
    WalkRestPlaced(bytes, parent, depth, true, NoFlags, p, o);
  }

  lemma {:induction false} WalkRestPlaced(bytes: seq<byte>, parent: nat, depth: nat, first: bool, f: Flags,
      p: PolicyState, o: Oracles)
    requires WalkRest(bytes, parent, depth, first, f, p, o).Ok?
    ensures Placed(WalkRest(bytes, parent, depth, first, f, p, o).value.0, parent, f.timestamp)
    ensures parent == CLUSTER && !f.timestamp ==> var tree := WalkRest(bytes, parent, depth, first, f, p, o).value.0;
      exists i :: 0 <= i < |tree| && tree[i].id == TIMESTAMP
    decreases |bytes|, 0
  {
    hide Take, Vint, ReadElement, Walk;
    if bytes != [] {
      var e := ReadElement(bytes).value;
      var end := |e.head| + |e.payload|;
      TakePlaces(e, parent, first, bytes[end..], f, p, o);
      var (f', p') := Take(e, parent, first, bytes[end..], f, p, o).value;
      var (children, p'') := Descend(e, depth, p', o).value;
      var tree := WalkRest(bytes, parent, depth, first, f, p, o).value.0;
      if Master(e.id) {
        WalkPlaced(e.payload, e.id, depth + 1, p', o);
      }
      WalkRestPlaced(bytes[end..], parent, depth, false, f', p'', o);
      var rest := WalkRest(bytes[end..], parent, depth, false, f', p'', o).value.0;
      var full := e.(children := children);
      assert tree == [full] + rest && tree[1..] == rest;
      assert PlacedOne(full, parent, f.timestamp) && Stamps(full, parent) == Stamps(e, parent);
      assert PlacedBelow(full);
      if parent == CLUSTER && !f.timestamp {
        if Stamps(e, parent) {
          assert tree[0].id == TIMESTAMP;
        } else {
          var i :| 0 <= i < |rest| && rest[i].id == TIMESTAMP;
          assert tree[i + 1].id == TIMESTAMP;
        }
      }
    }
  }

  /**
    * How siblings stand: a simple block or a block group in a Cluster and behind its Timestamp, any
    * other block in a block group, and at most one Timestamp in a Cluster.
    */
  ghost predicate Ordered(siblings: seq<Element>, parent: nat) {
    && (forall i :: 0 <= i < |siblings| && (siblings[i].id == SIMPLE_BLOCK || siblings[i].id == BLOCK_GROUP) ==>
      parent == CLUSTER && exists j :: 0 <= j < i && siblings[j].id == TIMESTAMP)
    && (forall i :: 0 <= i < |siblings| && siblings[i].id == BLOCK ==> parent == BLOCK_GROUP)
    && (parent == CLUSTER ==>
      forall i, j :: 0 <= i < j < |siblings| && siblings[i].id == TIMESTAMP ==> siblings[j].id != TIMESTAMP)
  }

  lemma {:induction false} StampedBefore(tree: seq<Element>, parent: nat, stamped: bool, i: nat)
    requires Placed(tree, parent, stamped) && i < |tree|
    ensures PlacedOne(tree[i], parent,
      stamped || (parent == CLUSTER && exists j :: 0 <= j < i && tree[j].id == TIMESTAMP))
    decreases |tree|
  {
    hide ReadBlockHead;
    if i > 0 {
      var rest := tree[1..];
      StampedBefore(rest, parent, stamped || Stamps(tree[0], parent), i - 1);
      if j :| 0 <= j < i - 1 && rest[j].id == TIMESTAMP {
        assert tree[j + 1].id == TIMESTAMP;
      }
      if j :| 0 <= j < i && tree[j].id == TIMESTAMP {
        assert j == 0 || rest[j - 1].id == TIMESTAMP;
      }
    }
  }

  lemma PlacedOrdered(tree: seq<Element>, parent: nat)
    requires Placed(tree, parent, false)
    ensures Ordered(tree, parent)
  {
    hide ReadBlockHead, Placed;
    forall i | 0 <= i < |tree|
      ensures PlacedOne(tree[i], parent, parent == CLUSTER && exists j :: 0 <= j < i && tree[j].id == TIMESTAMP)
    {
      StampedBefore(tree, parent, false, i);
    }
  }

  /** What holds of every placed element holds wherever one occurs. */
  lemma {:induction false} PlacedOccurs(tree: seq<Element>, parent: nat, stamped: bool, e: Element, below: nat)
    requires Placed(tree, parent, stamped) && Occurs(tree, parent, e, below)
    ensures PlacedBelow(e)
    decreases tree, 0
  {
    hide PlacedOne, Stamps;
    if OccursBelow(tree[0], e, below) {
      PlacedOccursBelow(tree[0], e, below);
    } else if !(tree[0] == e && parent == below) {
      PlacedOccurs(tree[1..], parent, stamped || Stamps(tree[0], parent), e, below);
    }
  }

  lemma {:induction false} PlacedOccursBelow(top: Element, e: Element, below: nat)
    requires PlacedBelow(top) && OccursBelow(top, e, below)
    ensures PlacedBelow(e)
    decreases top, 1
  {
    hide PlacedOne, Stamps;
    PlacedOccurs(top.children, top.id, false, e, below);
  }

  // ---------- What the policy counted ----------

  ghost function Count(tree: seq<Element>, id: nat): nat
    decreases tree, 0
  {
    if tree == [] then 0 else (if tree[0].id == id then 1 else 0) + CountBelow(tree[0], id) + Count(tree[1..], id)
  }

  ghost function CountBelow(e: Element, id: nat): nat
    decreases e, 1
  {
    Count(e.children, id)
  }

  /** The timing facts of one element, then those of its children, then those of its siblings. */
  ghost function Replay(h: History, tree: seq<Element>, parent: nat): History
    decreases tree, 0
  {
    if tree == [] then h else Replay(ReplayBelow(ReplayOne(h, tree[0], parent), tree[0]), tree[1..], parent)
  }

  ghost function ReplayBelow(h: History, e: Element): History
    decreases e, 1
  {
    Replay(h, e.children, e.id)
  }

  function ReplayOne(h: History, e: Element, parent: nat): History {
    var h' := Noted(h, e.id, parent, e.payload);
    if IsBlock(e.id) && ReadBlockHead(e.payload).Ok? then h'.(blocks := h'.blocks + [ReadBlockHead(e.payload).value])
      else h'
  }

  ghost predicate Tallied(p: PolicyState, q: PolicyState, headers: nat, segments: nat, tracks: nat, blocks: nat) {
    && q.opus == p.opus && q.headers == p.headers + headers && q.segments == p.segments + segments
    && q.tracks == p.tracks + tracks && q.blocks == p.blocks + blocks
  }

  lemma TakeTallies(e: Element, parent: nat, first: bool, behind: seq<byte>, f: Flags, p: PolicyState, o: Oracles,
      h: History)
    requires Take(e, parent, first, behind, f, p, o).Ok? && Summarizes(p.timing, h)
    ensures var q := Take(e, parent, first, behind, f, p, o).value.1;
      && Tallied(p, q, if e.id == HEADER then 1 else 0, if e.id == SEGMENT then 1 else 0,
                 if e.id == TRACK then 1 else 0, if IsBlock(e.id) then 1 else 0)
      && Summarizes(q.timing, ReplayOne(h, e, parent))
  {
    hide Summarizes, Metadata, ReadBlockHead, Uint, Noted, WithBlock, FromLittleEndian, RequireUint, InRange;
    var timing := Metadata(p.timing, e.id, parent, e.payload, o.arithmetic).value;
    Recorded(p.timing, h, e.id, parent, e.payload, o.arithmetic);
    AdmitTallies(e, parent, first, behind, f, p.(timing := timing), o);
    if IsBlock(e.id) {
      SummarizesBlock(timing, Noted(h, e.id, parent, e.payload), ReadBlockHead(e.payload).value);
    }
    hide Admit;
  }

  lemma AdmitTallies(e: Element, parent: nat, first: bool, behind: seq<byte>, f: Flags, p: PolicyState, o: Oracles)
    requires Admit(e, parent, first, behind, f, p, o).Ok?
    ensures var q := Admit(e, parent, first, behind, f, p, o).value.1;
      && Tallied(p, q, if e.id == HEADER then 1 else 0, if e.id == SEGMENT then 1 else 0,
                 if e.id == TRACK then 1 else 0, if IsBlock(e.id) then 1 else 0)
      && (if IsBlock(e.id) then
           ReadBlockHead(e.payload).Ok? && q.timing == WithBlock(p.timing, ReadBlockHead(e.payload).value)
          else q.timing == p.timing)
  {
    hide ReadBlockHead, Uint, WithBlock, FromLittleEndian, RequireUint, InRange;
  }

  ghost predicate Accounted(p: PolicyState, q: PolicyState, tree: seq<Element>, parent: nat, h: History) {
    && Tallied(p, q, Count(tree, HEADER), Count(tree, SEGMENT), Count(tree, TRACK),
      Count(tree, SIMPLE_BLOCK) + Count(tree, BLOCK))
    && Summarizes(q.timing, Replay(h, tree, parent))
  }

  lemma {:induction false} WalkAccounted(bytes: seq<byte>, parent: nat, depth: nat, p: PolicyState, o: Oracles,
      h: History)
    requires Walk(bytes, parent, depth, p, o).Ok? && Summarizes(p.timing, h)
    ensures var (tree, q) := Walk(bytes, parent, depth, p, o).value; Accounted(p, q, tree, parent, h)
    decreases |bytes|, 1
  {
    WalkRestAccounted(bytes, parent, depth, true, NoFlags, p, o, h);
  }

  lemma {:induction false} WalkRestAccounted(bytes: seq<byte>, parent: nat, depth: nat, first: bool, f: Flags,
      p: PolicyState, o: Oracles, h: History)
    requires WalkRest(bytes, parent, depth, first, f, p, o).Ok? && Summarizes(p.timing, h)
    ensures var (tree, q) := WalkRest(bytes, parent, depth, first, f, p, o).value; Accounted(p, q, tree, parent, h)
    decreases |bytes|, 0
  {
    hide Take, Vint, ReadElement, Walk, Summarizes, Noted, ReadBlockHead, Master;
    if bytes != [] {
      var e := ReadElement(bytes).value;
      var end := |e.head| + |e.payload|;
      TakeTallies(e, parent, first, bytes[end..], f, p, o, h);
      var (f', p') := Take(e, parent, first, bytes[end..], f, p, o).value;
      var (children, p'') := Descend(e, depth, p', o).value;
      var h' := ReplayOne(h, e, parent);
      if Master(e.id) {
        WalkAccounted(e.payload, e.id, depth + 1, p', o, h');
      }
      assert Accounted(p', p'', children, e.id, h');
      var full := e.(children := children);
      assert ReplayOne(h, full, parent) == h';
      WalkRestAccounted(bytes[end..], parent, depth, false, f', p'', o, Replay(h', children, e.id));
      var (rest, q) := WalkRest(bytes[end..], parent, depth, false, f', p'', o).value;
      var tree := WalkRest(bytes, parent, depth, first, f, p, o).value.0;
      assert tree == [full] + rest && tree[1..] == rest;
      JoinAccounts(p, p', p'', q, full, rest, parent, h);
    } else {
      NothingAccounted(p, parent, h);
    }
  }

  lemma NothingAccounted(p: PolicyState, parent: nat, h: History)
    requires Summarizes(p.timing, h)
    ensures Accounted(p, p, [], parent, h)
  {
  }

  /** One element's tally, its children's and its siblings' make the tally of them all. */
  lemma JoinAccounts(p: PolicyState, p': PolicyState, p'': PolicyState, q: PolicyState, full: Element,
      rest: seq<Element>, parent: nat, h: History)
    requires Tallied(p, p', if full.id == HEADER then 1 else 0, if full.id == SEGMENT then 1 else 0,
                     if full.id == TRACK then 1 else 0, if IsBlock(full.id) then 1 else 0)
    requires Accounted(p', p'', full.children, full.id, ReplayOne(h, full, parent))
    requires Accounted(p'', q, rest, parent, Replay(ReplayOne(h, full, parent), full.children, full.id))
    ensures Accounted(p, q, [full] + rest, parent, h)
  {
    hide Summarizes, ReplayOne;
    var tree := [full] + rest;
    assert tree[0] == full && tree[1..] == rest;
    assert ReplayBelow(ReplayOne(h, full, parent), full) == Replay(ReplayOne(h, full, parent), full.children, full.id);
    CountSplit(tree, HEADER);
    CountSplit(tree, SEGMENT);
    CountSplit(tree, TRACK);
    CountSplit(tree, SIMPLE_BLOCK);
    CountSplit(tree, BLOCK);
    hide Count, CountBelow;
  }

  lemma CountSplit(tree: seq<Element>, id: nat)
    requires tree != []
    ensures Count(tree, id) == (if tree[0].id == id then 1 else 0) + Count(tree[0].children, id) + Count(tree[1..], id)
  {
  }

  // ---------- Every block of an admitted file plays within range ----------

  /** `e` stands somewhere in the tree, as a child of an element with id `below`. */
  ghost predicate Occurs(tree: seq<Element>, parent: nat, e: Element, below: nat)
    decreases tree, 0
  {
    tree != []
    && ((tree[0] == e && parent == below) || OccursBelow(tree[0], e, below) || Occurs(tree[1..], parent, e, below))
  }

  ghost predicate OccursBelow(top: Element, e: Element, below: nat)
    decreases top, 1
  {
    Occurs(top.children, top.id, e, below)
  }

  predicate Extends(h: History, h': History) {
    h.clusters <= h'.clusters && h.blocks <= h'.blocks && h.durations <= h'.durations
  }

  lemma {:induction false} ReplayExtends(h: History, tree: seq<Element>, parent: nat)
    ensures Extends(h, Replay(h, tree, parent))
    decreases tree, 0
  {
    if tree != [] {
      var one := ReplayOne(h, tree[0], parent);
      ReplayExtendsBelow(one, tree[0]);
      ReplayExtends(ReplayBelow(one, tree[0]), tree[1..], parent);
    }
  }

  lemma {:induction false} ReplayExtendsBelow(h: History, e: Element)
    ensures Extends(h, ReplayBelow(h, e))
    decreases e, 1
  {
    ReplayExtends(h, e.children, e.id);
  }

  /** The history holds what this element has to say about timing. */
  ghost predicate Noticed(h: History, e: Element, below: nat) {
    && (IsBlock(e.id) && ReadBlockHead(e.payload).Ok? ==> ReadBlockHead(e.payload).value in h.blocks)
    && (e.id == TIMESTAMP && below == CLUSTER && Uint(e.payload).Ok? ==> Uint(e.payload).value in h.clusters)
    && (e.id == BLOCK_DURATION && below == BLOCK_GROUP && Uint(e.payload).Ok? ==> Uint(e.payload).value in h.durations)
  }

  lemma NoticedLater(h: History, h': History, e: Element, below: nat)
    requires Noticed(h, e, below) && Extends(h, h')
    ensures Noticed(h', e, below)
  {
    assert forall b :: b in h.blocks ==> b in h'.blocks;
    assert forall c :: c in h.clusters ==> c in h'.clusters;
    assert forall d :: d in h.durations ==> d in h'.durations;
  }

  lemma NoticedNow(h: History, e: Element, parent: nat)
    ensures Noticed(ReplayOne(h, e, parent), e, parent)
  {
    hide ReadBlockHead, Uint;
  }

  /** Whatever occurs in the tree has left its facts in the history. */
  lemma {:induction false} OccursReplayed(h: History, tree: seq<Element>, parent: nat, e: Element, below: nat)
    requires Occurs(tree, parent, e, below)
    ensures Noticed(Replay(h, tree, parent), e, below)
    decreases tree, 0
  {
    hide Noticed, ReplayOne;
    var one := ReplayOne(h, tree[0], parent);
    var two := ReplayBelow(one, tree[0]);
    ReplayExtends(two, tree[1..], parent);
    if tree[0] == e && parent == below {
      NoticedNow(h, e, parent);
      ReplayExtendsBelow(one, e);
      NoticedLater(one, two, e, below);
      NoticedLater(two, Replay(h, tree, parent), e, below);
    } else if OccursBelow(tree[0], e, below) {
      OccursReplayedBelow(one, tree[0], e, below);
      NoticedLater(two, Replay(h, tree, parent), e, below);
    } else {
      OccursReplayed(two, tree[1..], parent, e, below);
    }
  }

  lemma {:induction false} OccursReplayedBelow(h: History, top: Element, e: Element, below: nat)
    requires OccursBelow(top, e, below)
    ensures Noticed(ReplayBelow(h, top), e, below)
    decreases top, 1
  {
    OccursReplayed(h, top.children, top.id, e, below);
  }

  /** An admitted file is one complete document: its elements tile it, and blocks stand where they may. */
  lemma AdmittedShape(bytes: seq<byte>, opus: bool, o: Oracles)
    requires Profile(bytes, opus, o).Ok?
    ensures var tree := Profile(bytes, opus, o).value.0;
      && Tiles(tree, bytes) && Height(tree) <= MAX_DEPTH + 1
      && Placed(tree, 0, false) && Ordered(tree, 0)
      && (forall e, below :: Occurs(tree, 0, e, below) ==> Ordered(e.children, e.id))
      && (forall e, below :: Occurs(tree, 0, e, below) && e.id == CLUSTER ==>
        exists i :: 0 <= i < |e.children| && e.children[i].id == TIMESTAMP)
      && Count(tree, HEADER) == 1 && Count(tree, SEGMENT) == 1 && Count(tree, TRACK) == 1
      && Count(tree, SIMPLE_BLOCK) + Count(tree, BLOCK) > 0
  {
    hide Walk, Validate, Summarizes, Tiles, Height, Placed, Count, Ordered, Occurs;
    WalkTiles(bytes, 0, 0, NewPolicy(opus), o);
    WalkPlaced(bytes, 0, 0, NewPolicy(opus), o);
    assert Summarizes(Fresh, NoHistory()) by { NothingSummarized(); }
    WalkAccounted(bytes, 0, 0, NewPolicy(opus), o, NoHistory());
    var tree := Profile(bytes, opus, o).value.0;
    PlacedOrdered(tree, 0);
    forall e, below | Occurs(tree, 0, e, below) ensures PlacedBelow(e) && Ordered(e.children, e.id) {
      PlacedOccurs(tree, 0, false, e, below);
      PlacedOrdered(e.children, e.id);
    }
  }

  lemma NothingSummarized()
    ensures Summarizes(Fresh, NoHistory())
  {
  }

  /** In an admitted file every block, at the time of any cluster and for any duration it may have, stays in range. */
  lemma AdmittedBlocksPlay(bytes: seq<byte>, opus: bool, o: Oracles, block: Element, inside: nat, stamp: Element,
      duration: nat)
    requires Profile(bytes, opus, o).Ok?
    requires var (tree, _) := Profile(bytes, opus, o).value;
      && Occurs(tree, 0, block, inside) && IsBlock(block.id) && ReadBlockHead(block.payload).Ok?
      && Occurs(tree, 0, stamp, CLUSTER) && stamp.id == TIMESTAMP && Uint(stamp.payload).Ok?
    requires var (tree, p) := Profile(bytes, opus, o).value;
      Divisor(p.timing, o.arithmetic).Some?
      && Lasts(p.timing, Replay(NoHistory(), tree, 0), Divisor(p.timing, o.arithmetic).value,
        ReadBlockHead(block.payload).value.frames, duration)
    ensures var s := Profile(bytes, opus, o).value.1.timing;
      && ScaledTicks(Uint(stamp.payload).value, Factor(s)).Ok?
      && Plays(ScaledTicks(Uint(stamp.payload).value, Factor(s)).value, ReadBlockHead(block.payload).value.relative,
               Delay(s, Divisor(s, o.arithmetic).value), duration)
  {
    hide *;
    var (tree, p) := Profile(bytes, opus, o).value;
    var h := Replay(NoHistory(), tree, 0);
    ProfileTimed(bytes, opus, o);
    OccursReplayed(NoHistory(), tree, 0, block, inside);
    OccursReplayed(NoHistory(), tree, 0, stamp, CLUSTER);
    NoticedBoth(h, block, inside, stamp);
    AcceptedTimeline(p.timing, h, o.arithmetic, Uint(stamp.payload).value, ReadBlockHead(block.payload).value,
      duration);
  }

  lemma NoticedBoth(h: History, block: Element, inside: nat, stamp: Element)
    requires Noticed(h, block, inside) && IsBlock(block.id) && ReadBlockHead(block.payload).Ok?
    requires Noticed(h, stamp, CLUSTER) && stamp.id == TIMESTAMP && Uint(stamp.payload).Ok?
    ensures ReadBlockHead(block.payload).value in h.blocks && Uint(stamp.payload).value in h.clusters
  {
  }

  /** The timing an admitted file ends with was validated, and summarizes the whole tree. */
  lemma ProfileTimed(bytes: seq<byte>, opus: bool, o: Oracles)
    requires Profile(bytes, opus, o).Ok?
    ensures var (tree, p) := Profile(bytes, opus, o).value;
      Validate(p.timing, o.arithmetic).Ok? && Summarizes(p.timing, Replay(NoHistory(), tree, 0))
  {
    hide Walk, Validate, Summarizes, Replay;
    NothingSummarized();
    WalkAccounted(bytes, 0, 0, NewPolicy(opus), o, NoHistory());
  }

  // ---------- Finite and unknown sizes agree ----------

  /**
    * A Cluster whose children are finite elements that do not belong directly inside a Segment, and
    * that is followed by the end of the data or a Segment-level element, has the same payload
    * whether its size is given or left unknown.
    */
  lemma SamePayload(payload: seq<byte>, rest: seq<byte>, width: nat, unknownWidth: nat)
    requires 1 <= width <= 8 && 1 <= unknownWidth <= 8 && |payload| < UnknownSize(width)
    requires ClusterChildren(payload) && EndsCluster(rest)
    ensures var finite := BigEndian(CLUSTER, 4) + EncodeSize(|payload|, width) + payload + rest;
      var open := BigEndian(CLUSTER, 4) + EncodeSize(UnknownSize(unknownWidth), unknownWidth) + payload + rest;
      && ReadElement(finite).Ok? && ReadElement(open).Ok?
      && !ReadElement(finite).value.unknown && ReadElement(open).value.unknown
      && ReadElement(finite).value.id == ReadElement(open).value.id == CLUSTER
      && ReadElement(finite).value.payload == ReadElement(open).value.payload == payload
  {
    ClusterLengthComplete(payload, rest);
    ReadEncoded(|payload|, width, payload, rest);
    ReadEncoded(UnknownSize(unknownWidth), unknownWidth, payload, rest);
  }

  lemma ClusterId()
    ensures BigEndian(CLUSTER, 4) == [0x1F, 0x43, 0xB6, 0x75]
  {
    var s: seq<byte> := [0x1F, 0x43, 0xB6, 0x75];
    assert s[..3] == [0x1F, 0x43, 0xB6] && s[..3][..2] == [0x1F, 0x43] && s[..3][..2][..1] == [0x1F];
    assert FromBigEndian(s[..3][..2][..1]) == 0x1F;
    assert FromBigEndian(s[..3][..2]) == 0x1F43;
    assert FromBigEndian(s[..3]) == 0x1F43B6;
    assert FromBigEndian(s) == CLUSTER;
    FromBigEndianRoundTrip(s);
  }

  lemma EncodedParts(id: seq<byte>, field: seq<byte>, payload: seq<byte>, rest: seq<byte>)
    ensures var bytes := id + field + payload + rest;
      && bytes == id + (field + payload + rest) && bytes[|id|..] == field + (payload + rest)
      && bytes[|id| + |field|..] == payload + rest && bytes[|id| + |field|..|id| + |field| + |payload|] == payload
      && bytes[..|id| + |field|] == id + field
  {
  }

  lemma ReadEncoded(size: nat, width: nat, payload: seq<byte>, rest: seq<byte>)
    requires 1 <= width <= 8 && size <= UnknownSize(width)
    requires if size == UnknownSize(width) then ClusterLength(payload + rest) == Ok(|payload|) else size == |payload|
    ensures var bytes := BigEndian(CLUSTER, 4) + EncodeSize(size, width) + payload + rest;
      ReadElement(bytes) ==
        Ok(Element(CLUSTER, BigEndian(CLUSTER, 4) + EncodeSize(size, width), size == UnknownSize(width), payload, []))
  {
    hide ClusterLength, Vint, EncodeSize, BigEndian, UnknownSize;
    var id, field := BigEndian(CLUSTER, 4), EncodeSize(size, width);
    ClusterVint(field + payload + rest);
    EncodedParts(id, field, payload, rest);
    SizeRoundTrip(size, width, payload + rest);
  }

  lemma ClusterVint(rest: seq<byte>)
    ensures Vint(BigEndian(CLUSTER, 4) + rest, true) == Ok((CLUSTER, 4))
  {
    ClusterId();
    RadixValues();
    BigEndianRoundTrip(CLUSTER, 4);
    var id := BigEndian(CLUSTER, 4);
    assert (id + rest)[1..4] == id[1..4] && [id[0]] + id[1..4] == id;
  }
}
