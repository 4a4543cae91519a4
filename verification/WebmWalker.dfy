/** The walk as the browser runs it: cursors and counters updated in place, under a work budget. */
module WebmWalker {
  import opened Bytes
  import opened Outcome
  import opened Ebml
  import opened WebmTiming
  import opened WebmModel
  import S = WebmShape

  const CRC_CHUNK := 64 * 1024

  class Policy {
    const opus: bool
    const timing: Timing
    var headers: nat
    var webm: bool
    var segments: nat
    var tracks: nat
    var blocks: nat

    ghost function State(): PolicyState
      reads this, timing
    {
      PolicyState(opus, headers, webm, segments, tracks, blocks, timing.extrema)
    }

    constructor (opus: bool, arithmetic: Arithmetic)
      ensures fresh(timing) && timing.Valid() && timing.arithmetic == arithmetic
      ensures State() == NewPolicy(opus)
    {
      this.opus := opus;
      timing := new Timing(arithmetic);
      headers, webm, segments, tracks, blocks := 0, false, 0, 0, 0;
    }
  }

  /** Work stopped because it was cancelled or grew too large, not because of what the file holds. */
  ghost predicate Interrupted(e: Error, budget: Budget)
    reads budget
  {
    e.Cancelled? || (e.TooComplex? && budget.units > MAX_BUDGET)
  }

  /** The checksum is taken chunk by chunk, each chunk costing one unit of work. */
  method ValidateChecksum(firstChild: bool, payload: seq<byte>, remainder: seq<byte>, budget: Budget, o: Oracles)
    returns (r: Result<(), Error>)
    modifies budget
    ensures budget.units >= old(budget.units)
    ensures r.Ok? ==> budget.units <= MAX_BUDGET || budget.units == old(budget.units)
    ensures r.Ok? ==> firstChild && |payload| == 4 && o.crc32(remainder) == FromLittleEndian(payload)
    ensures r.Err? && !Interrupted(r.error, budget) ==>
      if !firstChild then r.error == Misplaced(CRC)
      else r.error == Rejected(CRC) && (|payload| != 4 || o.crc32(remainder) != FromLittleEndian(payload))
  {
    if !firstChild {
      return Err(Misplaced(CRC));
    }
    if |payload| != 4 {
      return Err(Rejected(CRC));
    }
    var hashed := 0;
    while hashed < |remainder|
      invariant hashed <= |remainder|
      invariant budget.units >= old(budget.units)
      invariant budget.units <= MAX_BUDGET || budget.units == old(budget.units)
    {
      var step := budget.Step();
      if step.Err? {
        return Err(step.error);
      }
      hashed := if |remainder| - hashed < CRC_CHUNK then |remainder| else hashed + CRC_CHUNK;
    }
    if o.crc32(remainder) != FromLittleEndian(payload) {
      return Err(Rejected(CRC));
    }
    return Ok(());
  }

  method ReadNext(bytes: seq<byte>, budget: Budget) returns (r: Result<Element, Error>)
    requires bytes != []
    modifies budget
    ensures budget.units >= old(budget.units)
    ensures r.Ok? ==> budget.units <= MAX_BUDGET || budget.units == old(budget.units)
    ensures r == ReadElement(bytes) || (r.Err? && Interrupted(r.error, budget))
  {
    hide Vint, ClusterLength, FromBigEndian;
    var id := ReadVint(bytes, true);
    if id.Err? {
      return Err(id.error);
    }
    var size := ReadVint(bytes[id.value.1..], false);
    if size.Err? {
      return Err(size.error);
    }
    var headBytes := id.value.1 + size.value.1;
    var unknown := size.value.0 == UnknownSize(size.value.1);
    if unknown && id.value.0 != SEGMENT && id.value.0 != CLUSTER {
      return Err(UnknownSizeForbidden);
    }
    var length: nat;
    if unknown && id.value.0 == CLUSTER {
      var extent := UnknownClusterLength(bytes[headBytes..], budget);
      if extent.Err? {
        return Err(extent.error);
      }
      length := extent.value;
    } else if unknown {
      length := |bytes| - headBytes;
    } else {
      length := size.value.0;
    }
    if headBytes + length > |bytes| {
      return Err(Truncated);
    }
    var payload := bytes[headBytes..headBytes + length];
    if !Master(id.value.0) && id.value.0 != VOID && |payload| > MAX_LEAF {
      return Err(LeafTooLarge);
    }
    return Ok(Element(id.value.0, bytes[..headBytes], unknown, payload, []));
  }

  /** Decides on one element and updates the policy. */
  method AdmitElement(e: Element, parent: nat, first: bool, behind: seq<byte>, flags: Flags, policy: Policy,
      budget: Budget, o: Oracles)
    returns (r: Result<Flags, Error>)
    requires policy.timing.Valid() && policy.timing.arithmetic == o.arithmetic
    modifies budget, policy, policy.timing
    ensures policy.timing.Valid() && budget.units >= old(budget.units)
    ensures r.Ok? ==> Take(e, parent, first, behind, flags, old(policy.State()), o) == Ok((r.value, policy.State()))
    ensures r.Ok? ==> budget.units <= MAX_BUDGET || budget.units == old(budget.units)
    ensures r.Err? ==>
      Interrupted(r.error, budget)
      || Take(e, parent, first, behind, flags, old(policy.State()), o) == Err(r.error)
  {
    hide Metadata, ReadBlockHead, Uint, FromLittleEndian, Summarizes, WithBlock;
    var recorded := policy.timing.Record(e.id, parent, e.payload);
    if recorded.Err? {
      return Err(recorded.error);
    }
    r := Decide(e, parent, first, behind, flags, policy, budget, o);
  }

  method Decide(e: Element, parent: nat, first: bool, behind: seq<byte>, flags: Flags, policy: Policy, budget: Budget,
      o: Oracles)
    returns (r: Result<Flags, Error>)
    requires policy.timing.Valid()
    modifies budget, policy, policy.timing
    ensures policy.timing.Valid() && budget.units >= old(budget.units)
    ensures r.Ok? ==> Admit(e, parent, first, behind, flags, old(policy.State()), o) == Ok((r.value, policy.State()))
    ensures r.Ok? ==> budget.units <= MAX_BUDGET || budget.units == old(budget.units)
    ensures r.Err? ==>
      Interrupted(r.error, budget)
      || Admit(e, parent, first, behind, flags, old(policy.State()), o) == Err(r.error)
  {
    hide ReadBlockHead, Uint, FromLittleEndian, Summarizes, WithBlock, RequireUint, InRange;
    var id, payload := e.id, e.payload;
    if id == CRC {
      var checked := ValidateChecksum(parent != 0 && first, payload, behind, budget, o);
      if checked.Err? {
        return Err(checked.error);
      }
    } else if id == HEADER {
      if parent != 0 || policy.headers != 0 || policy.segments != 0 || e.unknown {
        return Err(Misplaced(id));
      }
      policy.headers := policy.headers + 1;
    } else if id == SEGMENT {
      if parent != 0 || policy.headers != 1 || policy.segments != 0 {
        return Err(Misplaced(id));
      }
      policy.segments := policy.segments + 1;
    } else if id == 0x4282 && parent == HEADER {
      if policy.webm || payload != DOC_TYPE {
        return Err(Rejected(id));
      }
      policy.webm := true;
    } else if id == TRACK {
      if parent != TRACKS || policy.tracks != 0 {
        return Err(Misplaced(id));
      }
      policy.tracks := policy.tracks + 1;
    } else if IsBlock(id) {
      if (id == SIMPLE_BLOCK && (parent != CLUSTER || !flags.timestamp)) || (id == BLOCK && parent != BLOCK_GROUP) {
        return Err(Misplaced(id));
      }
      if payload == [] {
        return Err(Truncated);
      }
      var recorded := policy.timing.RecordBlock(payload);
      if recorded.Err? {
        return Err(recorded.error);
      }
      policy.blocks := policy.blocks + 1;
    } else {
      return Remember(e, parent, first, behind, flags, policy.opus, policy.State(), o);
    }
    return Ok(flags);
  }

  /** The elements that leave no trace but a flag of the walk they occur in. */
  function Remember(e: Element, parent: nat, ghost first: bool, ghost behind: seq<byte>, f: Flags, opus: bool,
      ghost p: PolicyState, o: Oracles)
    : (r: Result<Flags, Error>)
    requires e.id != CRC && e.id != HEADER && e.id != SEGMENT && e.id != TRACK && !IsBlock(e.id) && opus == p.opus
    requires !(e.id == 0x4282 && parent == HEADER)
    ensures Admit(e, parent, first, behind, f, p, o) == if r.Ok? then Ok((r.value, p)) else Err(r.error)
  {
    var id, payload := e.id, e.payload;
    if id == CLUSTER && parent != SEGMENT then Err(Misplaced(id))
    else if id == TIMESTAMP && parent == CLUSTER then
      if f.timestamp then Err(Repeated(id)) else After(Uint(payload), f.(timestamp := true))
    else if id == BLOCK_GROUP && (parent != CLUSTER || !f.timestamp) then Err(Misplaced(id))
    else if id == 0x42F7 && parent == HEADER then After(RequireUint(payload, 1, id), f)
    else if id == 0x42F2 && parent == HEADER then After(RequireUint(payload, 4, id), f)
    else if id == 0x42F3 && parent == HEADER then After(InRange(payload, 1, 8, id), f)
    else if id == 0x4285 && parent == HEADER then After(InRange(payload, 1, 2, id), f)
    else if id == 0x83 && parent == TRACK then
      if f.audioType then Err(Repeated(id)) else After(RequireUint(payload, 2, id), f.(audioType := true))
    else if id == 0x86 && parent == TRACK then
      if f.codec || payload != (if opus then CODEC_OPUS else CODEC_VORBIS) then Err(Rejected(id))
        else Ok(f.(codec := true))
    else if id == 0x63A2 && parent == TRACK then
      if f.private then Err(Repeated(id))
      else if !o.codecPrivate(opus, payload) then Err(Rejected(id))
      else Ok(f.(private := true))
    else if id == 0xE0 || id == 0x6D80 || id == 0xE2 then Err(Unsupported(id))
    else if parent == 0 && id != VOID then Err(Unsupported(id))
    else Ok(f)
  }

  function After<T>(r: Result<T, Error>, f: Flags): Result<Flags, Error> {
    match r
    case Ok(_) => Ok(f)
    case Err(e) => Err(e)
  }

  /** A finished walk, with elements seen earlier put in front. */
  ghost function Prepend(done: seq<Element>,
      r: Result<(seq<Element>, PolicyState), Error>): Result<(seq<Element>, PolicyState), Error>
  {
    match r
    case Err(e) => Err(e)
    case Ok((tree, p)) => Ok((done + tree, p))
  }

  lemma PrependTwice(a: seq<Element>, b: seq<Element>, r: Result<(seq<Element>, PolicyState), Error>)
    ensures Prepend(a, Prepend(b, r)) == Prepend(a + b, r)
  {
    if r.Ok? {
      assert a + (b + r.value.0) == a + b + r.value.0;
    }
  }

  lemma {:induction false} SizeAppend(a: seq<Element>, e: Element)
    ensures S.Size(a + [e]) == S.Size(a) + 1 + S.Size(e.children)
    decreases |a|
  {
    if a == [] {
      assert a + [e] == [e] && [e][1..] == [];
    } else {
      assert (a + [e])[1..] == a[1..] + [e];
      SizeAppend(a[1..], e);
    }
  }

  lemma PrependOne(e: Element, r: Result<(seq<Element>, PolicyState), Error>)
    ensures r.Err? ==> Prepend([e], r) == Err(r.error)
    ensures r.Ok? ==> Prepend([e], r) == Ok(([e] + r.value.0, r.value.1))
    ensures Prepend([], r) == r
  {
    if r.Ok? {
      assert [] + r.value.0 == r.value.0;
    }
  }

  /** One round of the walk. */
  lemma WalkStep(bytes: seq<byte>, parent: nat, depth: nat, first: bool, f: Flags, p: PolicyState, o: Oracles,
                 e: Element, f': Flags, p': PolicyState, children: seq<Element>, p'': PolicyState)
    requires bytes != [] && ReadElement(bytes) == Ok(e)
    requires Take(e, parent, first, bytes[|e.head| + |e.payload|..], f, p, o) == Ok((f', p'))
    requires Descend(e, depth, p', o) == Ok((children, p''))
    ensures WalkRest(bytes, parent, depth, first, f, p, o)
      == Prepend([e.(children := children)],
        WalkRest(bytes[|e.head| + |e.payload|..], parent, depth, false, f', p'', o))
  {
    hide Take, ReadElement, WebmModel.Walk, Descend, Finished, Prepend;
    var end := |e.head| + |e.payload|;
    var rest := WalkRest(bytes[end..], parent, depth, false, f', p'', o);
    PrependOne(e.(children := children), rest);
    assert rest.Err? ==> WalkRest(bytes, parent, depth, first, f, p, o) == Err(rest.error);
    assert rest.Ok? ==>
      WalkRest(bytes, parent, depth, first, f, p, o) ==
      Ok(([e.(children := children)] + rest.value.0, rest.value.1));
  }

  method Walk(bytes: seq<byte>, parent: nat, depth: nat, budget: Budget, policy: Policy, o: Oracles)
    returns (r: Result<(), Error>, ghost tree: seq<Element>)
    requires policy.timing.Valid() && policy.timing.arithmetic == o.arithmetic
    modifies budget, policy, policy.timing
    ensures policy.timing.Valid() && budget.units >= old(budget.units)
    ensures r.Ok? ==> WebmModel.Walk(bytes, parent, depth, old(policy.State()), o) == Ok((tree, policy.State()))
    ensures r.Ok? ==> S.Size(tree) <= budget.units - old(budget.units)
    ensures r.Ok? ==> budget.units <= MAX_BUDGET || budget.units == old(budget.units)
    ensures r.Err? ==>
      Interrupted(r.error, budget)
      || WebmModel.Walk(bytes, parent, depth, old(policy.State()), o) == Err(r.error)
    decreases |bytes|
  {
    hide *;
    WalkStarts(bytes, parent, depth, policy.State(), o);
    tree := [];
    if depth > MAX_DEPTH {
      return Err(TooDeep), [];
    }
    var rest, flags, first := bytes, NoFlags, true;
    ghost var whole := WalkRest(bytes, parent, depth, true, NoFlags, policy.State(), o);
    SizeNone();
    PrependOne(Element(0, [], false, [], []), whole);
    while rest != []
      invariant |rest| <= |bytes|
      invariant policy.timing.Valid() && budget.units >= old(budget.units) + S.Size(tree)
      invariant budget.units <= MAX_BUDGET || budget.units == old(budget.units)
      invariant whole == Prepend(tree, WalkRest(rest, parent, depth, first, flags, policy.State(), o))
      decreases |rest|
    {
      ghost var before, had, wasFirst, had' := policy.State(), rest, first, flags;
      Prepended(tree, before);
      var step := budget.Step();
      if step.Err? {
        Interrupts(step.error, budget);
        return Err(step.error), [];
      }
      var next := ReadNext(rest, budget);
      if next.Err? {
        assert !Interrupted(next.error, budget) ==>
          WalkRest(had, parent, depth, wasFirst, had', before, o) == Err(next.error) by {
          WalkReadFails(had, parent, depth, wasFirst, had', before, o);
        }
        return Err(next.error), [];
      }
      var e := next.value;
      var end := |e.head| + |e.payload|;
      var admitted := AdmitElement(e, parent, first, rest[end..], flags, policy, budget, o);
      if admitted.Err? {
        assert !Interrupted(admitted.error, budget) ==>
          WalkRest(had, parent, depth, wasFirst, had', before, o) == Err(admitted.error) by {
          WalkTakeFails(had, parent, depth, wasFirst, had', before, o);
        }
        return Err(admitted.error), [];
      }
      ghost var middle := policy.State();
      ghost var children: seq<Element> := [];
      if Master(e.id) {
        var below;
        below, children := Walk(e.payload, e.id, depth + 1, budget, policy, o);
        if below.Err? {
          if !Interrupted(below.error, budget) {
            WalkBelowFails(had, parent, depth, wasFirst, had', before, o, e, admitted.value, middle, below.error);
          }
          return below, [];
        }
      }
      Descends(e, depth, middle, o);
      WalkStep(had, parent, depth, wasFirst, had', before, o, e, admitted.value, middle, children, policy.State());
      PrependTwice(tree, [e.(children := children)],
                   WalkRest(rest[end..], parent, depth, false, admitted.value, policy.State(), o));
      SizeAppend(tree, e.(children := children));
      tree := tree + [e.(children := children)];
      rest, flags, first := rest[end..], admitted.value, false;
    }
    WalkEnds(parent, depth, first, flags, policy.State(), o);
    Prepended(tree, policy.State());
    if !Finished(parent, flags) {
      return Err(Incomplete), [];
    }
    return Ok(()), tree;
  }

  lemma WalkStarts(bytes: seq<byte>, parent: nat, depth: nat, p: PolicyState, o: Oracles)
    ensures WebmModel.Walk(bytes, parent, depth, p, o) ==
      if depth > MAX_DEPTH then Err(TooDeep) else WalkRest(bytes, parent, depth, true, NoFlags, p, o)
  {
    hide WalkRest;
  }

  lemma Interrupts(e: Error, budget: Budget)
    requires e.Cancelled? || (e.TooComplex? && budget.units > MAX_BUDGET)
    ensures Interrupted(e, budget)
  {
  }

  lemma Descends(e: Element, depth: nat, p: PolicyState, o: Oracles)
    ensures Descend(e, depth, p, o) ==
      if Master(e.id) then WebmModel.Walk(e.payload, e.id, depth + 1, p, o) else Ok(([], p))
  {
  }

  lemma Prepended(done: seq<Element>, p: PolicyState)
    ensures Prepend(done, Ok(([], p))) == Ok((done, p))
    ensures forall e :: Prepend(done, Err(e)) == Err(e)
  {
    assert done + [] == done;
  }

  lemma SizeNone()
    ensures S.Size([]) == 0
  {
  }

  lemma WalkEnds(parent: nat, depth: nat, first: bool, f: Flags, p: PolicyState, o: Oracles)
    ensures WalkRest([], parent, depth, first, f, p, o) == if Finished(parent, f) then Ok(([], p)) else Err(Incomplete)
  {
  }

  lemma WalkReadFails(bytes: seq<byte>, parent: nat, depth: nat, first: bool, f: Flags, p: PolicyState, o: Oracles)
    requires bytes != []
    ensures ReadElement(bytes).Err? ==> WalkRest(bytes, parent, depth, first, f, p, o) == Err(ReadElement(bytes).error)
  {
    hide ReadElement, Take;
  }

  lemma WalkTakeFails(bytes: seq<byte>, parent: nat, depth: nat, first: bool, f: Flags, p: PolicyState, o: Oracles)
    requires bytes != [] && ReadElement(bytes).Ok?
    ensures var e := ReadElement(bytes).value;
      var r := Take(e, parent, first, bytes[|e.head| + |e.payload|..], f, p, o);
      r.Err? ==> WalkRest(bytes, parent, depth, first, f, p, o) == Err(r.error)
  {
    hide ReadElement, Take;
  }

  lemma WalkBelowFails(bytes: seq<byte>, parent: nat, depth: nat, first: bool, f: Flags, p: PolicyState, o: Oracles,
                       e: Element, f': Flags, p': PolicyState, error: Error)
    requires bytes != [] && ReadElement(bytes) == Ok(e) && Master(e.id)
    requires Take(e, parent, first, bytes[|e.head| + |e.payload|..], f, p, o) == Ok((f', p'))
    requires WebmModel.Walk(e.payload, e.id, depth + 1, p', o) == Err(error)
    ensures WalkRest(bytes, parent, depth, first, f, p, o) == Err(error)
  {
    hide ReadElement, Take, WebmModel.Walk;
  }

  /** The verdict on a file, reached within the work budget or not at all. */
  method ValidateProfile(bytes: seq<byte>, opus: bool, budget: Budget, o: Oracles)
      returns (r: Result<(), Error>, ghost tree: seq<Element>)
    modifies budget
    ensures r.Ok? ==> Profile(bytes, opus, o).Ok? && Profile(bytes, opus, o).value.0 == tree
    ensures r.Ok? && old(budget.units) <= MAX_BUDGET ==>
      S.Size(tree) <= budget.units - old(budget.units) && budget.units <= MAX_BUDGET
    ensures r.Err? ==> Interrupted(r.error, budget) || Profile(bytes, opus, o) == Err(r.error)
  {
    hide WebmModel.Walk, Validate;
    tree := [];
    if |bytes| < 4 || bytes[..4] != BigEndian(HEADER, 4) {
      return Err(Rejected(HEADER)), [];
    }
    var policy := new Policy(opus, o.arithmetic);
    ghost var walked;
    r, walked := Walk(bytes, 0, 0, budget, policy, o);
    if r.Err? {
      return r, [];
    }
    if policy.headers != 1 || !policy.webm || policy.segments != 1 || policy.tracks != 1 || policy.blocks == 0 {
      return Err(Incomplete), [];
    }
    r := Validate(policy.timing.extrema, o.arithmetic);
    return r, walked;
  }
}
