/** Which files the WebM walk admits, told on the elements of the file alone, in both directions. */
module WebmDocument {
  import opened Bytes
  import opened Outcome
  import opened Ebml
  import opened WebmTiming
  import opened WebmModel
  import opened WebmShape

  /** The encoded bytes of elements, one after the other. */
  function Flat(tree: seq<Element>): seq<byte> {
    if tree == [] then [] else tree[0].head + tree[0].payload + Flat(tree[1..])
  }

  // ---------- One element among its siblings ----------

  /**
    * What the children of the EBML header may say: a WebM document that needs no more than these
    * versions and widths.
    */
  predicate HeaderChild(e: Element) {
    && (e.id == 0x4282 ==> e.payload == [0x77, 0x65, 0x62, 0x6D])
    && (e.id == 0x42F7 ==> Uint(e.payload) == Ok(1))
    && (e.id == 0x42F2 ==> Uint(e.payload) == Ok(4))
    && (e.id == 0x42F3 ==> Uint(e.payload).Ok? && 1 <= Uint(e.payload).value <= 8)
    && (e.id == 0x4285 ==> Uint(e.payload).Ok? && 1 <= Uint(e.payload).value <= 2)
  }

  /** What the children of a track may say: an audio track of the one codec, with headers and times that can be used. */
  predicate TrackChild(e: Element, opus: bool, o: Oracles) {
    && (e.id == 0x83 ==> Uint(e.payload) == Ok(2))
    && (e.id == 0x86 ==>
         e.payload == if opus then [0x41, 0x5F, 0x4F, 0x50, 0x55, 0x53]
                      else [0x41, 0x5F, 0x56, 0x4F, 0x52, 0x42, 0x49, 0x53])
    && (e.id == 0x63A2 ==> o.codecPrivate(opus, e.payload))
    && (e.id == 0x56AA ==> Uint(e.payload).Ok?)
    && (e.id == 0x23E383 ==> Uint(e.payload).Ok? && Uint(e.payload).value != 0)
    && (e.id == 0x23314F ==>
         var factor := ReadFloat(e.payload, o.arithmetic);
         factor.Ok? && factor.value.Finite? && factor.value.value > 0.0)
  }

  /** The elements that occur at most once among the children of these parents. */
  predicate Unrepeated(id: nat, parent: nat) {
    || (parent == CLUSTER && id == 0xE7)
    || (parent == TRACK && id in {0x83, 0x86, 0x63A2})
  }

  /**
    * What holds of one element wherever it stands, given its parent, the ids of the siblings before it
    * and the bytes of those behind it.
    */
  predicate Proper(e: Element, parent: nat, earlier: set<nat>, behind: seq<byte>, opus: bool, o: Oracles) {
    && (e.id == 0xBF ==>
         && parent != 0 && earlier == {} && |e.payload| == 4 && o.crc32(behind) == FromLittleEndian(e.payload))
    && (e.id == HEADER ==> parent == 0 && !e.unknown)
    && (e.id == SEGMENT ==> parent == 0)
    && (parent == 0 ==> e.id in {HEADER, SEGMENT, 0xEC})
    && (e.id == INFO ==> parent == SEGMENT)
    && (e.id == CLUSTER ==> parent == SEGMENT)
    && (e.id == TRACK ==> parent == TRACKS)
    && (e.id == 0xA0 ==> parent == CLUSTER && 0xE7 in earlier)
    && (e.id == 0xA3 ==> parent == CLUSTER && 0xE7 in earlier)
    && (e.id == 0xA1 ==> parent == 0xA0)
    && (e.id in {0xA3, 0xA1} ==> e.payload != [] && ReadBlockHead(e.payload).Ok?)
    && e.id !in {0xE0, 0x6D80, 0xE2}
    && (Unrepeated(e.id, parent) ==> e.id !in earlier)
    && (parent == HEADER ==> HeaderChild(e))
    && (parent == TRACK ==> TrackChild(e, opus, o))
    && (parent == CLUSTER && e.id == 0xE7 ==> Uint(e.payload).Ok?)
    && (parent == 0xA0 && e.id == 0x9B ==> Uint(e.payload).Ok?)
    && (parent == INFO && e.id == 0x2AD7B1 ==> Uint(e.payload).Ok? && Uint(e.payload).value != 0)
  }

  /** What must not be missing among the children of these parents. */
  predicate Complete(parent: nat, present: set<nat>) {
    (parent == TRACK ==> {0x83, 0x86, 0x63A2} <= present) && (parent == CLUSTER ==> 0xE7 in present)
  }

  ghost predicate AllProper(tree: seq<Element>, parent: nat, earlier: set<nat>, opus: bool, o: Oracles)
    decreases tree, 0
  {
    if tree == [] then Complete(parent, earlier)
    else
      && Proper(tree[0], parent, earlier, Flat(tree[1..]), opus, o)
      && ProperBelow(tree[0], opus, o)
      && AllProper(tree[1..], parent, earlier + {tree[0].id}, opus, o)
  }

  ghost predicate ProperBelow(e: Element, opus: bool, o: Oracles)
    decreases e, 1
  {
    Master(e.id) ==> AllProper(e.children, e.id, {}, opus, o)
  }

  /** Masters nest at most so deep. */
  ghost predicate Shallow(tree: seq<Element>, depth: nat)
    decreases tree, 0
  {
    tree == [] || (ShallowBelow(tree[0], depth) && Shallow(tree[1..], depth))
  }

  ghost predicate ShallowBelow(e: Element, depth: nat)
    decreases e, 1
  {
    Master(e.id) ==> depth < 12 && Shallow(e.children, depth + 1)
  }

  // ---------- What occurs once in the whole file ----------

  predicate Once(id: nat, inside: nat) {
    || (inside == 0 && (id == HEADER || id == SEGMENT))
    || (inside == HEADER && id == 0x4282)
    || (inside == SEGMENT && id == INFO)
    || (inside == TRACKS && id == TRACK)
    || (inside == INFO && id == 0x2AD7B1)
    || (inside == TRACK && id in {0x23314F, 0x56AA, 0x23E383})
  }

  /** How many elements with this id stand directly inside one with that id. */
  ghost function Tally(tree: seq<Element>, parent: nat, id: nat, inside: nat): nat
    decreases tree, 0
  {
    if tree == [] then 0
    else One(tree[0].id, parent, id, inside) + TallyBelow(tree[0], id, inside) + Tally(tree[1..], parent, id, inside)
  }

  ghost function TallyBelow(e: Element, id: nat, inside: nat): nat
    decreases e, 1
  {
    if Master(e.id) then Tally(e.children, e.id, id, inside) else 0
  }

  function One(at: nat, parent: nat, id: nat, inside: nat): nat {
    if at == id && parent == inside then 1 else 0
  }

  /** How often the policy remembers such an element. */
  function Seen(p: PolicyState, id: nat, inside: nat): nat {
    if inside == 0 && id == HEADER then p.headers
    else if inside == 0 && id == SEGMENT then p.segments
    else if inside == HEADER && id == 0x4282 then (if p.webm then 1 else 0)
    else if inside == SEGMENT && id == INFO then (if p.timing.info then 1 else 0)
    else if inside == TRACKS && id == TRACK then p.tracks
    else if inside == INFO && id == 0x2AD7B1 then (if p.timing.timestampScale.Some? then 1 else 0)
    else if inside == TRACK && id == 0x23314F then (if p.timing.trackScale.Some? then 1 else 0)
    else if inside == TRACK && id == 0x56AA then (if p.timing.codecDelay.Some? then 1 else 0)
    else if inside == TRACK && id == 0x23E383 then (if p.timing.defaultDuration.Some? then 1 else 0)
    else 0
  }

  // ---------- The timing of a tree ----------

  /** The timing facts of a tree, taken in document order. */
  ghost function TimingOf(tree: seq<Element>, parent: nat, s: Extrema, o: Oracles): Extrema
    decreases tree, 0
  {
    if tree == [] then s
    else TimingOf(tree[1..], parent, TimingBelow(tree[0], TimedOne(tree[0], parent, s, o), o), o)
  }

  ghost function TimingBelow(e: Element, s: Extrema, o: Oracles): Extrema
    decreases e, 1
  {
    if Master(e.id) then TimingOf(e.children, e.id, s, o) else s
  }

  function TimedOne(e: Element, parent: nat, s: Extrema, o: Oracles): Extrema {
    var noted := match Metadata(s, e.id, parent, e.payload, o.arithmetic)
      case Ok(timing) => timing
      case Err(_) => s;
    if IsBlock(e.id) && ReadBlockHead(e.payload).Ok? then WithBlock(noted, ReadBlockHead(e.payload).value) else noted
  }

  // ---------- One step of the walk ----------

  function FlagsOf(earlier: set<nat>, parent: nat): Flags {
    Flags(parent == TRACK && 0x83 in earlier, parent == TRACK && 0x86 in earlier, parent == TRACK && 0x63A2 in earlier,
          parent == CLUSTER && 0xE7 in earlier)
  }

  /** The times an element carries are usable, and it was not recorded before if it may be only once. */
  lemma MetadataExactly(s: Extrema, e: Element, parent: nat, o: Oracles)
    ensures Metadata(s, e.id, parent, e.payload, o.arithmetic).Ok? <==>
      && (e.id == INFO ==> parent == SEGMENT && !s.info)
      && (parent == INFO && e.id == 0x2AD7B1 ==>
           Uint(e.payload).Ok? && Uint(e.payload).value != 0 && s.timestampScale.None?)
      && (parent == TRACK && e.id == 0x23314F ==>
           && s.trackScale.None?
           && var factor := ReadFloat(e.payload, o.arithmetic);
             factor.Ok? && factor.value.Finite? && factor.value.value > 0.0)
      && (parent == TRACK && e.id == 0x56AA ==> Uint(e.payload).Ok? && s.codecDelay.None?)
      && (parent == TRACK && e.id == 0x23E383 ==>
           Uint(e.payload).Ok? && Uint(e.payload).value != 0 && s.defaultDuration.None?)
      && (parent == CLUSTER && e.id == 0xE7 ==> Uint(e.payload).Ok?)
      && (parent == 0xA0 && e.id == 0x9B ==> Uint(e.payload).Ok?)
  {
    hide Uint, ReadFloat, WithCluster, WithDuration;
  }

  /** What an element that is taken leaves of the recorded times: each goes where it belongs. */
  lemma MetadataEffect(s: Extrema, e: Element, parent: nat, o: Oracles)
    requires Metadata(s, e.id, parent, e.payload, o.arithmetic).Ok?
    ensures var t := Metadata(s, e.id, parent, e.payload, o.arithmetic).value;
      && t.info == (s.info || e.id == INFO)
      && t.timestampScale ==
        (if parent == INFO && e.id == 0x2AD7B1 then Some(Uint(e.payload).value) else s.timestampScale)
      && t.codecDelay == (if parent == TRACK && e.id == 0x56AA then Some(Uint(e.payload).value) else s.codecDelay)
      && t.defaultDuration ==
        (if parent == TRACK && e.id == 0x23E383 then Some(Uint(e.payload).value) else s.defaultDuration)
      && (parent == TRACK && e.id == 0x23314F ==> t.trackScale == Some(ReadFloat(e.payload, o.arithmetic).value.value))
      && (!(parent == TRACK && e.id == 0x23314F) ==> t.trackScale == s.trackScale)
  {
    hide Uint, ReadFloat, WithBlock;
  }

  /** An element is taken exactly if it is proper, was not seen before where once is all, and comes in order. */
  lemma TakeExactly(e: Element, parent: nat, earlier: set<nat>, behind: seq<byte>, p: PolicyState, o: Oracles)
    ensures Take(e, parent, earlier == {}, behind, FlagsOf(earlier, parent), p, o).Ok? <==>
      && Proper(e, parent, earlier, behind, p.opus, o)
      && (Once(e.id, parent) ==> Seen(p, e.id, parent) == 0)
      && (e.id == SEGMENT ==> p.headers == 1) && (e.id == HEADER ==> p.segments == 0)
  {
    hide Uint, ReadFloat, ReadBlockHead, Metadata, FromLittleEndian, WithBlock;
    MetadataExactly(p.timing, e, parent, o);
  }

  lemma AdmitEffect(e: Element, parent: nat, earlier: set<nat>, behind: seq<byte>, p: PolicyState, o: Oracles)
    requires Admit(e, parent, earlier == {}, behind, FlagsOf(earlier, parent), p, o).Ok?
    ensures var (f', p') := Admit(e, parent, earlier == {}, behind, FlagsOf(earlier, parent), p, o).value;
      && f' == FlagsOf(earlier + {e.id}, parent)
      && p'.opus == p.opus && p'.headers == p.headers + (if e.id == HEADER then 1 else 0)
      && p'.segments == p.segments + (if e.id == SEGMENT then 1 else 0)
      && p'.tracks == p.tracks + (if e.id == TRACK then 1 else 0)
      && p'.webm == (p.webm || (parent == HEADER && e.id == 0x4282))
      && p'.blocks == p.blocks + (if e.id in {0xA3, 0xA1} then 1 else 0)
      && p'.timing == (if IsBlock(e.id) then WithBlock(p.timing, ReadBlockHead(e.payload).value) else p.timing)
      && (IsBlock(e.id) ==> ReadBlockHead(e.payload).Ok?)
  {
    hide Uint, ReadBlockHead, FromLittleEndian, WithBlock;
  }

  lemma WithBlockKeeps(s: Extrema, head: BlockHead)
    ensures var t := WithBlock(s, head);
      && t.info == s.info && t.timestampScale == s.timestampScale && t.codecDelay == s.codecDelay
      && t.defaultDuration == s.defaultDuration && t.trackScale == s.trackScale
  {
  }

  /** What is remembered grows by the element itself. */
  lemma SeenGrows(e: Element, parent: nat, p: PolicyState, p': PolicyState, id: nat, inside: nat)
    requires Once(id, inside) && (Once(e.id, parent) ==> Seen(p, e.id, parent) == 0)
    requires (e.id == HEADER ==> parent == 0) && (e.id == SEGMENT ==> parent == 0)
    requires (e.id == TRACK ==> parent == TRACKS) && (e.id == INFO ==> parent == SEGMENT)
    requires p'.headers == p.headers + (if e.id == HEADER then 1 else 0)
    requires p'.segments == p.segments + (if e.id == SEGMENT then 1 else 0)
    requires p'.tracks == p.tracks + (if e.id == TRACK then 1 else 0)
    requires p'.webm == (p.webm || (parent == HEADER && e.id == 0x4282))
    requires p'.timing.info == (p.timing.info || e.id == INFO)
    requires p'.timing.timestampScale.Some? == (p.timing.timestampScale.Some? || (parent == INFO && e.id == 0x2AD7B1))
    requires p'.timing.codecDelay.Some? == (p.timing.codecDelay.Some? || (parent == TRACK && e.id == 0x56AA))
    requires p'.timing.defaultDuration.Some? ==
      (p.timing.defaultDuration.Some? || (parent == TRACK && e.id == 0x23E383))
    requires p'.timing.trackScale.Some? == (p.timing.trackScale.Some? || (parent == TRACK && e.id == 0x23314F))
    ensures Seen(p', id, inside) == Seen(p, id, inside) + One(e.id, parent, id, inside)
  {
  }

  lemma TakeEffect(e: Element, parent: nat, earlier: set<nat>, behind: seq<byte>, p: PolicyState, o: Oracles)
    requires Take(e, parent, earlier == {}, behind, FlagsOf(earlier, parent), p, o).Ok?
    ensures var (f', p') := Take(e, parent, earlier == {}, behind, FlagsOf(earlier, parent), p, o).value;
      && f' == FlagsOf(earlier + {e.id}, parent) && p'.opus == p.opus
      && p'.timing == TimedOne(e, parent, p.timing, o)
      && p'.blocks == p.blocks + (if e.id in {0xA3, 0xA1} then 1 else 0)
      && forall id, inside :: Once(id, inside) ==>
        Seen(p', id, inside) == Seen(p, id, inside) + One(e.id, parent, id, inside)
  {
    hide Uint, ReadFloat, ReadBlockHead, Metadata, WithBlock, Admit, FlagsOf, Seen, Once, One, Proper;
    var timing := Metadata(p.timing, e.id, parent, e.payload, o.arithmetic).value;
    var (_, p') := Take(e, parent, earlier == {}, behind, FlagsOf(earlier, parent), p, o).value;
    MetadataEffect(p.timing, e, parent, o);
    AdmitEffect(e, parent, earlier, behind, p.(timing := timing), o);
    if IsBlock(e.id) {
      WithBlockKeeps(timing, ReadBlockHead(e.payload).value);
    }
    TakeExactly(e, parent, earlier, behind, p, o);
    ProperPlaces(e, parent, earlier, behind, p.opus, o);
    forall id, inside | Once(id, inside)
      ensures Seen(p', id, inside) == Seen(p, id, inside) + One(e.id, parent, id, inside)
    {
      SeenGrows(e, parent, p, p', id, inside);
    }
  }

  lemma ProperPlaces(e: Element, parent: nat, earlier: set<nat>, behind: seq<byte>, opus: bool, o: Oracles)
    requires Proper(e, parent, earlier, behind, opus, o)
    ensures (e.id == HEADER ==> parent == 0) && (e.id == SEGMENT ==> parent == 0)
    ensures (e.id == TRACK ==> parent == TRACKS) && (e.id == INFO ==> parent == SEGMENT)
  {
    hide Uint, ReadFloat, ReadBlockHead, FromLittleEndian;
  }

  // ---------- The walk follows the elements ----------

  lemma {:induction false} TilesFlat(tree: seq<Element>, bytes: seq<byte>)
    requires Tiles(tree, bytes)
    ensures Flat(tree) == bytes
    decreases |tree|
  {
    hide Headed, Filled, Master;
    if tree != [] {
      var one := tree[0].head + tree[0].payload;
      TilesFlat(tree[1..], bytes[|one|..]);
      Joined(one, bytes);
    }
  }

  lemma Joined(one: seq<byte>, bytes: seq<byte>)
    requires one <= bytes
    ensures bytes == one + bytes[|one|..]
  {
  }

  lemma WalkOpens(bytes: seq<byte>, parent: nat, depth: nat, p: PolicyState, o: Oracles)
    ensures Walk(bytes, parent, depth, p, o) ==
      if depth > MAX_DEPTH then Err(TooDeep)
      else WalkRest(bytes, parent, depth, true, FlagsOf({}, parent), p, o)
  {
    FreshFlags(parent);
    hide WalkRest;
  }

  /** What the walk leaves of the policy, by what it walked. */
  ghost predicate Followed(p: PolicyState, q: PolicyState, tree: seq<Element>, parent: nat, o: Oracles) {
    && q.opus == p.opus
    && q.timing == TimingOf(tree, parent, p.timing, o)
    && q.blocks == p.blocks + Count(tree, SIMPLE_BLOCK) + Count(tree, BLOCK)
    && (forall id, inside :: Once(id, inside) ==>
         && Seen(q, id, inside) == Seen(p, id, inside) + Tally(tree, parent, id, inside)
         && (Seen(p, id, inside) <= 1 ==> Seen(q, id, inside) <= 1))
  }

  lemma NothingFollowed(p: PolicyState, parent: nat, o: Oracles)
    ensures Followed(p, p, [], parent, o)
  {
  }

  /** One element, its children and its siblings make up the whole. */
  lemma FollowedCons(p: PolicyState, p': PolicyState, p'': PolicyState, q: PolicyState, e: Element, rest: seq<Element>,
                     parent: nat, o: Oracles)
    requires p'.opus == p.opus && p'.timing == TimedOne(e, parent, p.timing, o)
    requires p'.blocks == p.blocks + (if e.id in {0xA3, 0xA1} then 1 else 0)
    requires forall id, inside :: Once(id, inside) ==>
      Seen(p', id, inside) == Seen(p, id, inside) + One(e.id, parent, id, inside)
    requires Once(e.id, parent) ==> Seen(p, e.id, parent) == 0
    requires if Master(e.id) then Followed(p', p'', e.children, e.id, o) else p'' == p' && e.children == []
    requires Followed(p'', q, rest, parent, o)
    ensures Followed(p, q, [e] + rest, parent, o)
  {
    hide Master, Once, Seen, TimedOne;
    var tree := [e] + rest;
    assert tree[0] == e && tree[1..] == rest;
    CountSplit(tree, SIMPLE_BLOCK);
    CountSplit(tree, BLOCK);
    assert Count([], SIMPLE_BLOCK) == 0 && Count([], BLOCK) == 0;
    assert TimingBelow(e, p'.timing, o) == p''.timing;
    forall id, inside | Once(id, inside)
      ensures Seen(q, id, inside) == Seen(p, id, inside) + Tally(tree, parent, id, inside)
      ensures Seen(p, id, inside) <= 1 ==> Seen(q, id, inside) <= 1
    {
      assert Seen(p'', id, inside) == Seen(p', id, inside) + TallyBelow(e, id, inside);
      assert One(e.id, parent, id, inside) == 1 ==> Seen(p, id, inside) == 0;
    }
  }

  /** What follows an element that was taken. */
  ghost function Onward(bytes: seq<byte>, e: Element, taken: (Flags, PolicyState), parent: nat, depth: nat, o: Oracles)
    : Result<(seq<Element>, PolicyState), Error>
    requires |e.head| + |e.payload| <= |bytes|
  {
    match Descend(e, depth, taken.1, o)
    case Err(error) => Err(error)
    case Ok((children, p)) =>
      match WalkRest(bytes[|e.head| + |e.payload|..], parent, depth, false, taken.0, p, o)
      case Err(error) => Err(error)
      case Ok((siblings, last)) => Ok(([e.(children := children)] + siblings, last))
  }

  lemma WalkRestUnfolds(bytes: seq<byte>, parent: nat, depth: nat, first: bool, f: Flags, p: PolicyState, o: Oracles)
    requires bytes != []
    ensures ReadElement(bytes).Ok? ==> var e := ReadElement(bytes).value;
      0 < |e.head| + |e.payload| <= |bytes| && e.children == []
    ensures WalkRest(bytes, parent, depth, first, f, p, o) ==
      match ReadElement(bytes)
      case Err(error) => Err(error)
      case Ok(e) =>
        match Take(e, parent, first, bytes[|e.head| + |e.payload|..], f, p, o)
        case Err(error) => Err(error)
        case Ok(taken) => Onward(bytes, e, taken, parent, depth, o)
  {
    hide ReadElement, Take, Descend, Walk, Finished;
  }

  lemma OnwardOk(bytes: seq<byte>, e: Element, taken: (Flags, PolicyState), parent: nat, depth: nat, o: Oracles)
    requires |e.head| + |e.payload| <= |bytes| && Onward(bytes, e, taken, parent, depth, o).Ok?
    ensures Descend(e, depth, taken.1, o).Ok?
    ensures var (children, p) := Descend(e, depth, taken.1, o).value;
      var rest := WalkRest(bytes[|e.head| + |e.payload|..], parent, depth, false, taken.0, p, o);
      && rest.Ok?
      && Onward(bytes, e, taken, parent, depth, o).value == ([e.(children := children)] + rest.value.0, rest.value.1)
  {
    hide Descend, WalkRest;
  }

  /** A walk that goes well, one element on. */
  lemma WalkRestOn(bytes: seq<byte>, parent: nat, depth: nat, first: bool, f: Flags, p: PolicyState, o: Oracles)
    returns (e: Element, behind: seq<byte>, f': Flags, p': PolicyState, children: seq<Element>, p'': PolicyState,
             rest: seq<Element>, q: PolicyState)
    requires bytes != [] && WalkRest(bytes, parent, depth, first, f, p, o).Ok?
    ensures ReadElement(bytes) == Ok(e) && 0 < |e.head| + |e.payload| <= |bytes| && e.children == []
    ensures behind == bytes[|e.head| + |e.payload|..] && Take(e, parent, first, behind, f, p, o) == Ok((f', p'))
    ensures Descend(e, depth, p', o) == Ok((children, p''))
    ensures WalkRest(behind, parent, depth, false, f', p'', o) == Ok((rest, q))
    ensures WalkRest(bytes, parent, depth, first, f, p, o) == Ok(([e.(children := children)] + rest, q))
  {
    hide *;
    WalkRestUnfolds(bytes, parent, depth, first, f, p, o);
    e := ReadElement(bytes).value;
    behind := bytes[|e.head| + |e.payload|..];
    var taken := Take(e, parent, first, behind, f, p, o).value;
    OnwardOk(bytes, e, taken, parent, depth, o);
    f', p' := taken.0, taken.1;
    var below := Descend(e, depth, p', o).value;
    children, p'' := below.0, below.1;
    var beside := WalkRest(behind, parent, depth, false, f', p'', o).value;
    rest, q := beside.0, beside.1;
  }

  lemma Descends(e: Element, depth: nat, p: PolicyState, o: Oracles)
    ensures Descend(e, depth, p, o) ==
      if !Master(e.id) then Ok(([], p))
      else if depth + 1 > MAX_DEPTH then Err(TooDeep)
      else WalkRest(e.payload, e.id, depth + 1, true, FlagsOf({}, e.id), p, o)
  {
    WalkOpens(e.payload, e.id, depth + 1, p, o);
    hide Walk, WalkRest, Master;
  }

  lemma ConsProper(e: Element, rest: seq<Element>, parent: nat, depth: nat, earlier: set<nat>, opus: bool, o: Oracles)
    requires Proper(e, parent, earlier, Flat(rest), opus, o)
    requires Master(e.id) ==> AllProper(e.children, e.id, {}, opus, o) && depth < 12 && Shallow(e.children, depth + 1)
    requires AllProper(rest, parent, earlier + {e.id}, opus, o) && Shallow(rest, depth)
    ensures AllProper([e] + rest, parent, earlier, opus, o) && Shallow([e] + rest, depth)
  {
    hide Proper, Master;
    var tree := [e] + rest;
    assert tree[0] == e && tree[1..] == rest;
  }

  lemma NothingProper(parent: nat, depth: nat, earlier: set<nat>, opus: bool, o: Oracles)
    requires Complete(parent, earlier)
    ensures AllProper([], parent, earlier, opus, o) && Shallow([], depth)
  {
  }

  lemma WalkEnds(parent: nat, depth: nat, first: bool, f: Flags, p: PolicyState, o: Oracles)
    ensures WalkRest([], parent, depth, first, f, p, o) == if Finished(parent, f) then Ok(([], p)) else Err(Incomplete)
  {
  }

  lemma Present(earlier: set<nat>, id: nat)
    ensures earlier + {id} != {}
  {
    assert id in earlier + {id};
  }

  lemma {:induction false} WalkFollows(bytes: seq<byte>, parent: nat, depth: nat, earlier: set<nat>, first: bool,
                                       p: PolicyState, o: Oracles)
    requires depth <= 12 && (first <==> earlier == {})
    requires WalkRest(bytes, parent, depth, first, FlagsOf(earlier, parent), p, o).Ok?
    ensures var (tree, q) := WalkRest(bytes, parent, depth, first, FlagsOf(earlier, parent), p, o).value;
      AllProper(tree, parent, earlier, p.opus, o) && Shallow(tree, depth) && Followed(p, q, tree, parent, o)
    decreases |bytes|
  {
    hide *;
    var f := FlagsOf(earlier, parent);
    if bytes == [] {
      WalkEnds(parent, depth, first, f, p, o);
      NothingFollowed(p, parent, o);
      FinishedIsComplete(parent, earlier);
      NothingProper(parent, depth, earlier, p.opus, o);
    } else {
      var e, behind, f', p', children, p'', rest, q := WalkRestOn(bytes, parent, depth, first, f, p, o);
      var full := e.(children := children);
      TakeExactly(e, parent, earlier, behind, p, o);
      TakeEffect(e, parent, earlier, behind, p, o);
      Descends(e, depth, p', o);
      DepthLimit();
      if Master(e.id) {
        Shorter(bytes, e);
        WalkFollows(e.payload, e.id, depth + 1, {}, true, p', o);
      }
      Present(earlier, e.id);
      assert p''.opus == p.opus by { FollowedOpus(p', p'', full, o); }
      WalkFollows(behind, parent, depth, earlier + {e.id}, false, p'', o);
      WalkRestTiles(behind, parent, depth, false, f', p'', o);
      TilesFlat(rest, behind);
      SameProper(e, full, parent, earlier, behind, p.opus, p.timing, o);
      FollowedCons(p, p', p'', q, full, rest, parent, o);
      ConsProper(full, rest, parent, depth, earlier, p.opus, o);
    }
  }

  lemma DepthLimit()
    ensures MAX_DEPTH == 12
  {
  }

  lemma Shorter(bytes: seq<byte>, e: Element)
    requires bytes != [] && ReadElement(bytes) == Ok(e)
    ensures |e.payload| < |bytes|
  {
  }

  lemma FollowedOpus(p: PolicyState, q: PolicyState, e: Element, o: Oracles)
    requires if Master(e.id) then Followed(p, q, e.children, e.id, o) else q == p
    ensures q.opus == p.opus
  {
    hide Master, Once, Seen;
  }

  lemma FinishedIsComplete(parent: nat, earlier: set<nat>)
    ensures Finished(parent, FlagsOf(earlier, parent)) <==> Complete(parent, earlier)
  {
  }

  lemma FreshFlags(parent: nat)
    ensures FlagsOf({}, parent) == NoFlags
  {
  }

  lemma SameProper(e: Element, full: Element, parent: nat, earlier: set<nat>, behind: seq<byte>, opus: bool, s: Extrema,
                   o: Oracles)
    requires full == e.(children := full.children)
    ensures Proper(e, parent, earlier, behind, opus, o) == Proper(full, parent, earlier, behind, opus, o)
    ensures TimedOne(e, parent, s, o) == TimedOne(full, parent, s, o)
  {
    hide Uint, ReadFloat, ReadBlockHead, FromLittleEndian, Metadata;
  }

  // ---------- The elements lead the walk ----------

  /** An element that stands at the start of some bytes is read back from them. */
  lemma ReadTiled(bytes: seq<byte>, e: Element)
    requires var end := |e.head| + |e.payload|;
      0 < end && e.head + e.payload <= bytes && Headed(e, bytes[end..])
      && (Master(e.id) || e.id == VOID || |e.payload| <= MAX_LEAF)
    ensures ReadElement(bytes) == Ok(e.(children := []))
  {
    hide Vint, UnknownSize, ClusterLength, ClusterChildren, EndsCluster, Master;
    var behind := bytes[|e.head| + |e.payload|..];
    var width := Vint(e.head, true).value.1;
    var tail := bytes[|e.head|..];
    Joined(e.head, bytes);
    VintPrefix(e.head, tail, true);
    assert bytes[width..] == e.head[width..] + tail;
    VintPrefix(e.head[width..], tail, false);
    assert tail == e.payload + behind;
    if e.unknown && e.id == CLUSTER {
      ClusterLengthComplete(e.payload, behind);
    }
    ClusterIsNotSegment();
    assert bytes[..|e.head|] == e.head && bytes[|e.head|..|e.head| + |e.payload|] == e.payload;
    assert Extent(e.id, e.unknown, Vint(bytes[width..], false).value.0, tail) == Ok(|e.payload|);
  }

  lemma ClusterIsNotSegment()
    ensures CLUSTER != SEGMENT
  {
  }

  lemma TileOn(tree: seq<Element>, bytes: seq<byte>)
    requires tree != [] && Tiles(tree, bytes)
    ensures var e := tree[0];
      var end := |e.head| + |e.payload|;
      && 0 < end <= |bytes| && ReadElement(bytes) == Ok(e.(children := []))
      && (if Master(e.id) then Tiles(e.children, e.payload) else e.children == [])
      && Tiles(tree[1..], bytes[end..])
  {
    hide Headed, Master, ReadElement;
    ReadTiled(bytes, tree[0]);
  }

  lemma ProperOn(tree: seq<Element>, parent: nat, depth: nat, earlier: set<nat>, opus: bool, o: Oracles)
    requires tree != [] && AllProper(tree, parent, earlier, opus, o) && Shallow(tree, depth)
    ensures var e := tree[0];
      && Proper(e, parent, earlier, Flat(tree[1..]), opus, o)
      && (Master(e.id) ==> AllProper(e.children, e.id, {}, opus, o) && depth < 12 && Shallow(e.children, depth + 1))
      && AllProper(tree[1..], parent, earlier + {e.id}, opus, o) && Shallow(tree[1..], depth)
  {
    hide Proper, Master;
  }

  /** Nothing that may occur once is seen twice, now or later. */
  ghost predicate Room(p: PolicyState, tree: seq<Element>, parent: nat) {
    forall id, inside :: Once(id, inside) ==> Seen(p, id, inside) + Tally(tree, parent, id, inside) <= 1
  }

  /** The top level starts with the EBML header. */
  ghost predicate Started(p: PolicyState, tree: seq<Element>, parent: nat, earlier: set<nat>) {
    parent == 0 ==>
      if earlier == {} then p.headers == 0 && p.segments == 0 && tree != [] && tree[0].id == HEADER
      else p.headers == 1
  }

  lemma RoomForOne(p: PolicyState, tree: seq<Element>, parent: nat)
    requires tree != [] && Room(p, tree, parent)
    ensures Once(tree[0].id, parent) ==> Seen(p, tree[0].id, parent) == 0
  {
    hide Once, Seen;
    if Once(tree[0].id, parent) {
      assert Seen(p, tree[0].id, parent) + Tally(tree, parent, tree[0].id, parent) <= 1;
    }
  }

  lemma InOrder(p: PolicyState, tree: seq<Element>, parent: nat, earlier: set<nat>, opus: bool, o: Oracles)
    requires tree != [] && Started(p, tree, parent, earlier) && Room(p, tree, parent)
    requires Proper(tree[0], parent, earlier, Flat(tree[1..]), opus, o)
    ensures (tree[0].id == SEGMENT ==> p.headers == 1) && (tree[0].id == HEADER ==> p.segments == 0)
  {
    ProperPlaces(tree[0], parent, earlier, Flat(tree[1..]), opus, o);
    RoomForOne(p, tree, parent);
    HeaderOnce(p);
    hide Proper, Room, Tally, Flat;
  }

  lemma HeaderOnce(p: PolicyState)
    ensures Once(HEADER, 0) && Seen(p, HEADER, 0) == p.headers && HEADER != SEGMENT
  {
  }

  /** Room is left for the children once the element is taken, and for the siblings once they are walked. */
  lemma RoomBelow(p: PolicyState, p': PolicyState, tree: seq<Element>, parent: nat)
    requires tree != [] && Room(p, tree, parent) && Master(tree[0].id)
    requires forall id, inside :: Once(id, inside) ==>
      Seen(p', id, inside) == Seen(p, id, inside) + One(tree[0].id, parent, id, inside)
    ensures Room(p', tree[0].children, tree[0].id)
  {
    hide Once, Seen, One;
    forall id, inside | Once(id, inside)
      ensures Seen(p', id, inside) + Tally(tree[0].children, tree[0].id, id, inside) <= 1
    {
      assert Seen(p, id, inside) + Tally(tree, parent, id, inside) <= 1;
      assert TallyBelow(tree[0], id, inside) == Tally(tree[0].children, tree[0].id, id, inside);
    }
  }

  lemma RoomBeside(p: PolicyState, p': PolicyState, p'': PolicyState, tree: seq<Element>, parent: nat, o: Oracles)
    requires tree != [] && Room(p, tree, parent)
    requires forall id, inside :: Once(id, inside) ==>
      Seen(p', id, inside) == Seen(p, id, inside) + One(tree[0].id, parent, id, inside)
    requires if Master(tree[0].id) then Followed(p', p'', tree[0].children, tree[0].id, o) else p'' == p'
    ensures Room(p'', tree[1..], parent)
  {
    hide Once, Seen, One, Master;
    forall id, inside | Once(id, inside) ensures Seen(p'', id, inside) + Tally(tree[1..], parent, id, inside) <= 1 {
      assert Seen(p, id, inside) + Tally(tree, parent, id, inside) <= 1;
      assert Seen(p'', id, inside) == Seen(p', id, inside) + TallyBelow(tree[0], id, inside);
    }
  }

  lemma StartedBeside(p: PolicyState, p': PolicyState, p'': PolicyState, e: Element, parent: nat, rest: seq<Element>,
                      earlier: set<nat>, o: Oracles)
    requires Started(p, [e] + rest, parent, earlier)
    requires forall id, inside :: Once(id, inside) ==>
      Seen(p', id, inside) == Seen(p, id, inside) + One(e.id, parent, id, inside)
    requires Once(e.id, parent) ==> Seen(p, e.id, parent) == 0
    requires if Master(e.id) then Followed(p', p'', e.children, e.id, o) else p'' == p'
    ensures Started(p'', rest, parent, earlier + {e.id})
  {
    Present(earlier, e.id);
    HeaderOnce(p);
    HeaderOnce(p');
    HeaderOnce(p'');
    hide Once, Seen, Master;
    if parent == 0 {
      assert One(e.id, 0, HEADER, 0) == if e.id == HEADER then 1 else 0;
    }
  }

  lemma WalkRestBack(bytes: seq<byte>, parent: nat, depth: nat, first: bool, f: Flags, p: PolicyState, o: Oracles,
                     e: Element, f': Flags, p': PolicyState, children: seq<Element>, p'': PolicyState,
                       rest: seq<Element>)
    requires bytes != [] && ReadElement(bytes) == Ok(e)
    requires Take(e, parent, first, bytes[|e.head| + |e.payload|..], f, p, o) == Ok((f', p'))
    requires Descend(e, depth, p', o) == Ok((children, p''))
    requires WalkRest(bytes[|e.head| + |e.payload|..], parent, depth, false, f', p'', o).Ok?
    requires WalkRest(bytes[|e.head| + |e.payload|..], parent, depth, false, f', p'', o).value.0 == rest
    ensures WalkRest(bytes, parent, depth, first, f, p, o).Ok?
    ensures WalkRest(bytes, parent, depth, first, f, p, o).value.0 == [e.(children := children)] + rest
  {
    hide Take, Descend, ReadElement, Finished, Walk, WalkRest;
    WalkRestUnfolds(bytes, parent, depth, first, f, p, o);
  }

  /** Elements that tile some bytes, are proper and nowhere too many, are walked without a complaint. */
  lemma {:induction false} ProperWalks(tree: seq<Element>, bytes: seq<byte>, parent: nat, depth: nat, earlier: set<nat>,
                                       first: bool, p: PolicyState, o: Oracles)
    requires depth <= 12 && (first <==> earlier == {})
    requires Tiles(tree, bytes) && AllProper(tree, parent, earlier, p.opus, o) && Shallow(tree, depth)
    requires Room(p, tree, parent) && Started(p, tree, parent, earlier)
    ensures WalkRest(bytes, parent, depth, first, FlagsOf(earlier, parent), p, o).Ok?
    ensures WalkRest(bytes, parent, depth, first, FlagsOf(earlier, parent), p, o).value.0 == tree
    decreases |bytes|
  {
    hide *;
    var f := FlagsOf(earlier, parent);
    if tree == [] {
      NothingTiled(bytes, parent, earlier, p.opus, o);
      WalkEnds(parent, depth, first, f, p, o);
      FinishedIsComplete(parent, earlier);
    } else {
      TileOn(tree, bytes);
      ProperOn(tree, parent, depth, earlier, p.opus, o);
      var full := tree[0];
      var e := full.(children := []);
      var end := |e.head| + |e.payload|;
      var rest := tree[1..];
      TilesFlat(rest, bytes[end..]);
      SameProper(e, full, parent, earlier, bytes[end..], p.opus, p.timing, o);
      RoomForOne(p, tree, parent);
      InOrder(p, tree, parent, earlier, p.opus, o);
      TakeExactly(e, parent, earlier, bytes[end..], p, o);
      TakeEffect(e, parent, earlier, bytes[end..], p, o);
      var (f', p') := Take(e, parent, first, bytes[end..], f, p, o).value;
      Descends(e, depth, p', o);
      DepthLimit();
      Present(earlier, e.id);
      if Master(e.id) {
        RoomBelow(p, p', tree, parent);
        NotTopLevel(p', full);
        Shorter(bytes, e);
        ProperWalks(full.children, e.payload, e.id, depth + 1, {}, true, p', o);
        WalkFollows(e.payload, e.id, depth + 1, {}, true, p', o);
      }
      var (children, p'') := Descend(e, depth, p', o).value;
      assert children == full.children;
      FollowedOpus(p', p'', full, o);
      RoomBeside(p, p', p'', tree, parent, o);
      assert tree == [full] + rest;
      StartedBeside(p, p', p'', full, parent, rest, earlier, o);
      ProperWalks(rest, bytes[end..], parent, depth, earlier + {e.id}, false, p'', o);
      WalkRestBack(bytes, parent, depth, first, f, p, o, e, f', p', children, p'', rest);
    }
  }

  lemma NothingTiled(bytes: seq<byte>, parent: nat, earlier: set<nat>, opus: bool, o: Oracles)
    requires Tiles([], bytes) && AllProper([], parent, earlier, opus, o)
    ensures bytes == [] && Complete(parent, earlier)
  {
  }

  lemma NotTopLevel(p: PolicyState, e: Element)
    requires Master(e.id)
    ensures Started(p, e.children, e.id, {})
  {
  }

  // ---------- Whole files ----------

  /**
    * A document: the elements tile the file, which starts with an EBML header; masters nest at most
    * twelve deep; every element is proper; nothing that may occur once occurs twice; there are one
    * header with a DocType, one Segment, one track and some block; and its times are accepted.
    */
  ghost predicate Document(tree: seq<Element>, bytes: seq<byte>, opus: bool, o: Oracles) {
    && |bytes| >= 4 && bytes[..4] == [0x1A, 0x45, 0xDF, 0xA3]
    && Tiles(tree, bytes) && Shallow(tree, 0) && AllProper(tree, 0, {}, opus, o)
    && (forall id, inside :: Once(id, inside) ==> Tally(tree, 0, id, inside) <= 1)
    && Tally(tree, 0, HEADER, 0) == Tally(tree, 0, SEGMENT, 0) == 1
    && Tally(tree, 0, 0x4282, HEADER) == Tally(tree, 0, TRACK, TRACKS) == 1
    && Count(tree, SIMPLE_BLOCK) + Count(tree, BLOCK) > 0
    && Validate(TimingOf(tree, 0, Fresh, o), o.arithmetic).Ok?
  }

  lemma HeaderId()
    ensures BigEndian(HEADER, 4) == [0x1A, 0x45, 0xDF, 0xA3] && HEADER == 0x1A45DFA3
  {
    var s: seq<byte> := [0x1A, 0x45, 0xDF, 0xA3];
    ByteOrder(0x1A, 0x45, 0xDF, 0xA3);
    assert FromBigEndian(s) == HEADER;
    FromBigEndianRoundTrip(s);
  }

  /** A file that starts with the four bytes of the id has the header as its first element. */
  lemma FirstIsHeader(tree: seq<Element>, bytes: seq<byte>)
    requires |bytes| >= 4 && bytes[..4] == [0x1A, 0x45, 0xDF, 0xA3] && Tiles(tree, bytes)
    ensures tree != [] && tree[0].id == HEADER
  {
    var id: seq<byte> := [0x1A, 0x45, 0xDF, 0xA3];
    assert bytes[0] == id[0] && [bytes[0]] + bytes[1..4] == bytes[..4];
    HeaderId();
    ByteOrder(0x1A, 0x45, 0xDF, 0xA3);
    assert Vint(bytes, true) == Ok((HEADER, 4));
    hide Vint, Tiles;
    if tree == [] {
      NothingLeft(bytes);
    } else {
      TileOn(tree, bytes);
      ReadsId(bytes);
    }
  }

  lemma NothingLeft(bytes: seq<byte>)
    requires Tiles([], bytes)
    ensures bytes == []
  {
  }

  lemma ReadsId(bytes: seq<byte>)
    requires bytes != [] && ReadElement(bytes).Ok?
    ensures Vint(bytes, true).Ok? && ReadElement(bytes).value.id == Vint(bytes, true).value.0
  {
    hide Vint, ClusterLength, Master, UnknownSize;
  }

  lemma NewSeen(opus: bool, id: nat, inside: nat)
    ensures Seen(NewPolicy(opus), id, inside) == 0
  {
  }

  lemma KeysOnce()
    ensures Once(HEADER, 0) && Once(SEGMENT, 0) && Once(0x4282, HEADER) && Once(TRACK, TRACKS)
  {
  }

  lemma SeenKeys(p: PolicyState)
    ensures Seen(p, HEADER, 0) == p.headers && Seen(p, SEGMENT, 0) == p.segments && Seen(p, TRACK, TRACKS) == p.tracks
    ensures Seen(p, 0x4282, HEADER) == if p.webm then 1 else 0
  {
  }

  lemma ProfileOf(bytes: seq<byte>, opus: bool, o: Oracles)
    ensures Profile(bytes, opus, o).Ok? <==>
      && |bytes| >= 4 && bytes[..4] == [0x1A, 0x45, 0xDF, 0xA3]
      && var walked := WalkRest(bytes, 0, 0, true, FlagsOf({}, 0), NewPolicy(opus), o);
        && walked.Ok?
        && var p := walked.value.1;
          && p.headers == 1 && p.webm && p.segments == 1 && p.tracks == 1 && p.blocks > 0
          && Validate(p.timing, o.arithmetic).Ok?
    ensures Profile(bytes, opus, o).Ok? ==>
      Profile(bytes, opus, o).value == WalkRest(bytes, 0, 0, true, FlagsOf({}, 0), NewPolicy(opus), o).value
  {
    HeaderId();
    DepthLimit();
    WalkOpens(bytes, 0, 0, NewPolicy(opus), o);
    hide Walk, WalkRest, Validate, BigEndian, FlagsOf, NewPolicy;
  }

  lemma NewPolicyIs(opus: bool)
    ensures NewPolicy(opus).opus == opus && NewPolicy(opus).timing == Fresh && NewPolicy(opus).blocks == 0
    ensures NewPolicy(opus).headers == 0 && NewPolicy(opus).segments == 0
    ensures NewPolicy(opus).tracks == 0 && !NewPolicy(opus).webm
  {
  }

  /** The walk ends with everything seen once that must be, and nothing twice. */
  lemma FollowedCounts(q: PolicyState, tree: seq<Element>, opus: bool, o: Oracles)
    requires Followed(NewPolicy(opus), q, tree, 0, o)
    ensures q.timing == TimingOf(tree, 0, Fresh, o) && q.blocks == Count(tree, SIMPLE_BLOCK) + Count(tree, BLOCK)
    ensures q.headers == Tally(tree, 0, HEADER, 0) && q.segments == Tally(tree, 0, SEGMENT, 0)
    ensures q.tracks == Tally(tree, 0, TRACK, TRACKS)
    ensures (if q.webm then 1 else 0) == Tally(tree, 0, 0x4282, HEADER)
    ensures forall id, inside :: Once(id, inside) ==> Tally(tree, 0, id, inside) <= 1
  {
    NewPolicyIs(opus);
    KeysOnce();
    SeenKeys(q);
    SeenKeys(NewPolicy(opus));
    hide Once, Seen, NewPolicy, Tally;
    forall id, inside | Once(id, inside) ensures Tally(tree, 0, id, inside) <= 1 {
      NewSeen(opus, id, inside);
    }
  }

  /** What the walk admits is a document. */
  lemma AdmittedIsDocument(bytes: seq<byte>, opus: bool, o: Oracles)
    requires Profile(bytes, opus, o).Ok?
    ensures Document(Profile(bytes, opus, o).value.0, bytes, opus, o)
  {
    ProfileOf(bytes, opus, o);
    AdmittedShape(bytes, opus, o);
    NewPolicyIs(opus);
    DepthLimit();
    hide Profile, WalkRest, Validate, AllProper, Followed, Shallow, Tally, Tiles, NewPolicy, Once, Count, TimingOf,
      Placed, Ordered, Occurs, Height;
    var (tree, q) := Profile(bytes, opus, o).value;
    WalkFollows(bytes, 0, 0, {}, true, NewPolicy(opus), o);
    FollowedCounts(q, tree, opus, o);
  }

  /** A document is admitted. */
  lemma DocumentIsAdmitted(tree: seq<Element>, bytes: seq<byte>, opus: bool, o: Oracles)
    requires Document(tree, bytes, opus, o)
    ensures Profile(bytes, opus, o).Ok? && Profile(bytes, opus, o).value.0 == tree
  {
    var p := NewPolicy(opus);
    NewPolicyIs(opus);
    FirstIsHeader(tree, bytes);
    hide Profile, WalkRest, Validate, AllProper, Followed, Shallow, Tally, Tiles, NewPolicy, Once, Count, TimingOf,
      Seen;
    forall id, inside | Once(id, inside) ensures Seen(p, id, inside) + Tally(tree, 0, id, inside) <= 1 {
      NewSeen(opus, id, inside);
    }
    ProperWalks(tree, bytes, 0, 0, {}, true, p, o);
    WalkFollows(bytes, 0, 0, {}, true, p, o);
    var q := WalkRest(bytes, 0, 0, true, FlagsOf({}, 0), p, o).value.1;
    FollowedCounts(q, tree, opus, o);
    ProfileOf(bytes, opus, o);
  }

  /** A file is admitted if and only if its bytes are those of a document. */
  lemma AdmittedExactly(bytes: seq<byte>, opus: bool, o: Oracles)
    ensures Profile(bytes, opus, o).Ok? <==> exists tree :: Document(tree, bytes, opus, o)
  {
    hide Profile, Document;
    if Profile(bytes, opus, o).Ok? {
      AdmittedIsDocument(bytes, opus, o);
    }
    if tree :| Document(tree, bytes, opus, o) {
      DocumentIsAdmitted(tree, bytes, opus, o);
    }
  }

  // ---------- What that means where an element stands ----------

  /** The ids of some siblings. */
  ghost function Ids(tree: seq<Element>): set<nat> {
    set e | e in tree :: e.id
  }

  lemma IdsSplit(tree: seq<Element>, i: nat)
    requires i < |tree|
    ensures Ids(tree[..i + 1]) == Ids(tree[..i]) + {tree[i].id}
  {
    assert tree[..i + 1] == tree[..i] + [tree[i]];
  }

  lemma IdsFirst(tree: seq<Element>)
    requires tree != []
    ensures Ids(tree) == {tree[0].id} + Ids(tree[1..])
  {
    assert tree == [tree[0]] + tree[1..];
  }

  /** Every one of some proper siblings is proper among them, and nothing is missing. */
  lemma {:induction false} ProperAt(tree: seq<Element>, parent: nat, earlier: set<nat>, opus: bool, o: Oracles)
    requires AllProper(tree, parent, earlier, opus, o)
    ensures Complete(parent, earlier + Ids(tree))
    ensures forall i :: 0 <= i < |tree| ==>
      Proper(tree[i], parent, earlier + Ids(tree[..i]), Flat(tree[i + 1..]), opus, o)
    decreases |tree|
  {
    hide Proper, Complete, ProperBelow, Ids, Flat;
    if tree == [] {
      assert earlier + Ids(tree) == earlier by { NoIds(); }
    } else {
      var rest := tree[1..];
      ProperAt(rest, parent, earlier + {tree[0].id}, opus, o);
      IdsFirst(tree);
      assert earlier + {tree[0].id} + Ids(rest) == earlier + Ids(tree);
      forall i | 0 <= i < |tree|
        ensures Proper(tree[i], parent, earlier + Ids(tree[..i]), Flat(tree[i + 1..]), opus, o)
      {
        if i == 0 {
          NoIds();
          assert tree[..0] == [] && earlier + {} == earlier;
        } else {
          assert tree[..i] != [] && tree[..i][0] == tree[0] && tree[..i][1..] == rest[..i - 1];
          IdsFirst(tree[..i]);
          assert earlier + {tree[0].id} + Ids(rest[..i - 1]) == earlier + Ids(tree[..i]);
          assert rest[i - 1] == tree[i] && rest[i..] == tree[i + 1..];
        }
      }
    }
  }

  lemma NoIds()
    ensures Ids([]) == {}
  {
  }

  lemma {:induction false} ProperOccurs(tree: seq<Element>, bytes: seq<byte>, parent: nat, earlier: set<nat>,
                                        opus: bool,
                                        o: Oracles, e: Element, below: nat)
    requires Tiles(tree, bytes) && AllProper(tree, parent, earlier, opus, o) && Occurs(tree, parent, e, below)
    ensures if Master(e.id) then AllProper(e.children, e.id, {}, opus, o) else e.children == []
    decreases tree
  {
    hide Tiles, Proper, Master, Flat;
    TileOn(tree, bytes);
    var top := tree[0];
    if !(top == e && parent == below) {
      if OccursBelow(top, e, below) {
        SomethingBelow(top, e, below);
        ProperOccurs(top.children, top.payload, top.id, {}, opus, o, e, below);
      } else {
        ProperOccurs(tree[1..], bytes[|top.head| + |top.payload|..], parent, earlier + {top.id}, opus, o, e, below);
      }
    }
  }

  lemma SomethingBelow(top: Element, e: Element, below: nat)
    requires OccursBelow(top, e, below)
    ensures Occurs(top.children, top.id, e, below) && top.children != []
  {
  }

  /** Exactly one of some siblings has this id. */
  ghost predicate ExactlyOne(siblings: seq<Element>, id: nat) {
    exists i :: 0 <= i < |siblings| && siblings[i].id == id
      && forall j :: 0 <= j < |siblings| && siblings[j].id == id ==> j == i
  }

  lemma NotTwice(siblings: seq<Element>, parent: nat, i: nat, j: nat, opus: bool, o: Oracles)
    requires i < j < |siblings| && Unrepeated(siblings[j].id, parent)
    requires Proper(siblings[j], parent, Ids(siblings[..j]), Flat(siblings[j + 1..]), opus, o)
    ensures siblings[i].id != siblings[j].id
  {
    hide Flat, HeaderChild, TrackChild, ReadBlockHead, Uint, FromLittleEndian;
    assert siblings[..j][i] in siblings[..j];
  }

  lemma OneOfThem(siblings: seq<Element>, parent: nat, id: nat, opus: bool, o: Oracles)
    requires AllProper(siblings, parent, {}, opus, o) && Unrepeated(id, parent) && id in Ids(siblings)
    ensures ExactlyOne(siblings, id)
  {
    hide Proper, AllProper, Unrepeated, Flat;
    ProperAt(siblings, parent, {}, opus, o);
    forall i, j | 0 <= i < j < |siblings| && siblings[j].id == id ensures siblings[i].id != id {
      assert {} + Ids(siblings[..j]) == Ids(siblings[..j]);
      NotTwice(siblings, parent, i, j, opus, o);
    }
    var e :| e in siblings && e.id == id;
    var i :| 0 <= i < |siblings| && siblings[i] == e;
  }

  /**
    * What the children of an element of an admitted file are. A track has exactly one type, which is
    * audio, exactly one codec, the one asked for, and exactly one set of codec headers, which are
    * acceptable; a Cluster has exactly one Timestamp; the EBML header asks for nothing newer than is
    * supported; a CRC-32 is a first child and matches what follows it; and nowhere is there a video,
    * an encoding or an operation.
    */
  lemma AdmittedElement(bytes: seq<byte>, opus: bool, o: Oracles, e: Element, below: nat)
    requires Profile(bytes, opus, o).Ok? && Occurs(Profile(bytes, opus, o).value.0, 0, e, below)
    ensures e.id == TRACK ==>
      ExactlyOne(e.children, 0x83) && ExactlyOne(e.children, 0x86) && ExactlyOne(e.children, 0x63A2)
    ensures e.id == TRACK ==> forall i :: 0 <= i < |e.children| ==>
      var c := e.children[i];
      && (c.id == 0x83 ==> Uint(c.payload) == Ok(2))
      && (c.id == 0x86 ==> c.payload == if opus then CODEC_OPUS else CODEC_VORBIS)
      && (c.id == 0x63A2 ==> o.codecPrivate(opus, c.payload))
    ensures e.id == HEADER ==> forall i :: 0 <= i < |e.children| ==> HeaderChild(e.children[i])
    ensures e.id == CLUSTER ==> ExactlyOne(e.children, 0xE7)
    ensures forall i :: 0 <= i < |e.children| ==>
      var c := e.children[i];
      && c.id !in {0xE0, 0x6D80, 0xE2}
      && (c.id == 0xBF ==> i == 0 && |c.payload| == 4 && o.crc32(Flat(e.children[1..])) == FromLittleEndian(c.payload))
  {
    AdmittedIsDocument(bytes, opus, o);
    var tree := Profile(bytes, opus, o).value.0;
    hide Profile, Tiles, AllProper, Shallow, Occurs, Once, Tally, Count, Validate, TimingOf;
    ProperOccurs(tree, bytes, 0, {}, opus, o, e, below);
    if Master(e.id) {
      hide Master, Document;
      ProperChildren(e.children, e.id, opus, o);
    } else {
      hide Document;
      AlwaysMasters(e.id);
    }
  }

  lemma AlwaysMasters(id: nat)
    requires !Master(id)
    ensures id != TRACK && id != HEADER && id != CLUSTER
  {
  }

  lemma ProperChildren(siblings: seq<Element>, parent: nat, opus: bool, o: Oracles)
    requires AllProper(siblings, parent, {}, opus, o)
    ensures parent == TRACK ==>
      ExactlyOne(siblings, 0x83) && ExactlyOne(siblings, 0x86) && ExactlyOne(siblings, 0x63A2)
    ensures parent == TRACK ==> forall i :: 0 <= i < |siblings| ==> TrackChild(siblings[i], opus, o)
    ensures parent == HEADER ==> forall i :: 0 <= i < |siblings| ==> HeaderChild(siblings[i])
    ensures parent == CLUSTER ==> ExactlyOne(siblings, 0xE7)
    ensures forall i :: 0 <= i < |siblings| ==>
      var c := siblings[i];
      && c.id !in {0xE0, 0x6D80, 0xE2}
      && (c.id == 0xBF ==> i == 0 && |c.payload| == 4 && o.crc32(Flat(siblings[1..])) == FromLittleEndian(c.payload))
  {
    hide AllProper, Flat, HeaderChild, TrackChild, ReadBlockHead, Uint, FromLittleEndian, ExactlyOne, Ids;
    ProperAt(siblings, parent, {}, opus, o);
    assert {} + Ids(siblings) == Ids(siblings);
    if parent == TRACK {
      OneOfThem(siblings, parent, 0x83, opus, o);
      OneOfThem(siblings, parent, 0x86, opus, o);
      OneOfThem(siblings, parent, 0x63A2, opus, o);
    }
    if parent == CLUSTER {
      OneOfThem(siblings, parent, 0xE7, opus, o);
    }
    forall i | 0 < i < |siblings| ensures Ids(siblings[..i]) != {} {
      IdsSplit(siblings, i - 1);
    }
  }
}
