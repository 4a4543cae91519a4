/** The store behind the Cache API: loaded on first use, and committed only after its snapshot is written. */
module CacheStorage {
  import opened Outcome
  import opened CacheModel
  import Snapshots

  type State = map<string, seq<NamedCache>>

  /** Memory and disk; a store without a path keeps everything in memory. */
  datatype World = World(memory: Option<State>, disk: Snapshots.Disk<State>, persistent: bool)

  datatype Reaction = Replied(reply: Reply) | Refused(error: CacheError) | Died

  datatype Call = Call(origin: string, command: Command, faults: Snapshots.Faults<State>)

  function FromSnapshots(e: Snapshots.Error): CacheError {
    if e.Quota? then Quota else Persistence
  }

  function CachesAt(s: State, origin: string): seq<NamedCache> {
    if origin in s then s[origin] else []
  }

  // ---------- What a call means ----------

  /** What a call replies from a state, and the state it leaves, if nothing goes wrong. */
  function Meaning(o: Oracle, s: State, c: Call): Result<(Reply, State), CacheError> {
    if !o.trusted(c.origin) then Err(InvalidRequest)
    else
      var caches := CachesAt(s, c.origin);
      if !Changes(c.command) then Ok((Answer(o, caches, c.command), s))
      else
        match Edit(o, caches, c.command)
        case Err(e) => Err(e)
        case Ok((reply, changed, after)) => Ok((reply, if changed then s[c.origin := after] else s))
  }

  /** The state after a call that took effect. */
  function After(o: Oracle, s: State, c: Call): State {
    match Meaning(o, s, c)
    case Err(_) => s
    case Ok((_, after)) => after
  }

  /**
    * An edit that succeeds is what the origin holds afterwards: not committing one that changed
    * nothing loses nothing.
    */
  lemma EditLands(o: Oracle, s: State, c: Call)
    requires o.trusted(c.origin) && Changes(c.command) && Edit(o, CachesAt(s, c.origin), c.command).Ok?
    ensures CachesAt(After(o, s, c), c.origin) == Edit(o, CachesAt(s, c.origin), c.command).value.2
    ensures forall origin :: origin != c.origin ==> CachesAt(After(o, s, c), origin) == CachesAt(s, origin)
  {
    hide Edit;
    if !Edit(o, CachesAt(s, c.origin), c.command).value.1 {
      UnchangedSame(o, CachesAt(s, c.origin), c.command);
    }
  }

  predicate Asks(c: Command) {
    c.Has? || c.Names? || c.Match? || c.MatchAll? || c.Keys?
  }

  /**
    * No call means anything to an untrusted origin; a query answers from the origin's own caches, none if
    * there are none, and changes nothing; only opening, deleting and putting may change the state.
    */
  lemma MeaningExact(o: Oracle, s: State, c: Call)
    ensures !o.trusted(c.origin) ==> Meaning(o, s, c) == Err(InvalidRequest) && After(o, s, c) == s
    ensures o.trusted(c.origin) && Asks(c.command) ==>
      After(o, s, c) == s
        && Meaning(o, s, c) == Ok((Answer(o, if c.origin in s then s[c.origin] else [], c.command), s))
    ensures After(o, s, c) != s ==>
      Changes(c.command) && c.origin in After(o, s, c) && After(o, s, c) == s[c.origin := After(o, s, c)[c.origin]]
  {
    hide Edit, Answer;
  }

  // ---------- What the store does ----------

  function Loaded(w: World, rules: Snapshots.Rules<State>): Result<State, CacheError> {
    if w.memory.Some? then Ok(w.memory.value)
    else
      match Snapshots.Load(w.disk, rules)
      case Ok(s) => Ok(s)
      case Err(e) => Err(FromSnapshots(e))
  }

  /** Commits a changed candidate: validated, written, and only then remembered. */
  function Commit(w: World, candidate: State, reply: Reply, rules: Snapshots.Rules<State>,
      f: Snapshots.Faults<State>): (World, Reaction)
  {
    if !rules.valid(candidate) then (w, Refused(Quota))
    else if !w.persistent then (w.(memory := Some(candidate)), Replied(reply))
    else
      var (disk, ending) := Snapshots.Write(w.disk, candidate, rules, f);
      match ending
      case Done => (w.(disk := disk, memory := Some(candidate)), Replied(reply))
      case Failed(e) => (w.(disk := disk), Refused(FromSnapshots(e)))
      case Crashed => (w.(disk := disk, memory := None), Died)
  }

  function Execute(o: Oracle, rules: Snapshots.Rules<State>, w: World, c: Call): (World, Reaction) {
    if !o.trusted(c.origin) then (w, Refused(InvalidRequest))
    else
      match Loaded(w, rules)
      case Err(e) => (w, Refused(e))
      case Ok(s) =>
        var l := w.(memory := Some(s));
        var caches := CachesAt(s, c.origin);
        if !Changes(c.command) then (l, Replied(Answer(o, caches, c.command)))
        else
          match Edit(o, caches, c.command)
          case Err(e) => (l, Refused(e))
          case Ok((reply, changed, after)) =>
            if !changed then (l, Replied(reply)) else Commit(l, s[c.origin := after], reply, rules, c.faults)
  }

  // ---------- Memory and disk agree ----------

  /** The state the next call sees, or the next start would. */
  function Visible(w: World, rules: Snapshots.Rules<State>): Option<State> {
    if w.memory.Some? then w.memory else Snapshots.Survives(w.disk, rules)
  }

  /** What is in memory is what loading would return, and the disk is in no state a write could not survive. */
  ghost predicate Coherent(w: World, rules: Snapshots.Rules<State>) {
    && (w.persistent ==> Snapshots.Safe(w.disk, rules))
    && (w.persistent && w.memory.Some? ==> Snapshots.Survives(w.disk, rules) == w.memory)
    && (!w.persistent ==> w.memory.Some?)
  }

  /** A reply is that of the call's meaning and the call took effect; a refusal changed nothing; a death left either. */
  ghost predicate Lawful(o: Oracle, s: State, c: Call, r: Reaction, seen: Option<State>) {
    match r
    case Replied(reply) => Meaning(o, s, c) == Ok((reply, After(o, s, c))) && seen == Some(After(o, s, c))
    case Refused(_) => seen == Some(s)
    case Died => seen == Some(s) || seen == Some(After(o, s, c))
  }

  lemma CommitLawful(w: World, s: State, candidate: State, reply: Reply, rules: Snapshots.Rules<State>,
      f: Snapshots.Faults<State>)
    requires Snapshots.Sensible(rules) && Coherent(w, rules) && w.memory == Some(s) && !Snapshots.Deceives(f)
    ensures var (after, r) := Commit(w, candidate, reply, rules, f);
      && Coherent(after, rules)
      && match r
         case Replied(given) => given == reply && Visible(after, rules) == Some(candidate)
         case Refused(_) => Visible(after, rules) == Some(s)
         case Died => Visible(after, rules) == Some(s) || Visible(after, rules) == Some(candidate)
  {
    hide Snapshots.Write, Snapshots.Survives, Snapshots.Safe;
    if w.persistent && rules.valid(candidate) {
      Snapshots.WriteAtomic(w.disk, candidate, rules, f);
    }
  }

  /** Every call, however it ends, keeps memory and disk together and does what it says. */
  lemma ExecuteLawful(o: Oracle, rules: Snapshots.Rules<State>, w: World, c: Call, s: State)
    requires Snapshots.Sensible(rules) && Coherent(w, rules) && Visible(w, rules) == Some(s)
      && !Snapshots.Deceives(c.faults)
    ensures var (after, r) := Execute(o, rules, w, c);
      Coherent(after, rules) && after.persistent == w.persistent && Lawful(o, s, c, r, Visible(after, rules))
  {
    hide Commit, Edit, Answer, Snapshots.Safe;
    var caches := CachesAt(s, c.origin);
    var l := w.(memory := Some(s));
    if o.trusted(c.origin) && Changes(c.command) && Edit(o, caches, c.command).Ok? {
      var (reply, changed, after) := Edit(o, caches, c.command).value;
      if changed {
        CommitLawful(l, s, s[c.origin := after], reply, rules, c.faults);
        CommitKeepsKind(l, s[c.origin := after], reply, rules, c.faults);
      }
    }
  }

  /** A changed state is committed if it is within the limits and no fault strikes; one that is not is refused. */
  lemma FaultlessCommit(w: World, candidate: State, reply: Reply, rules: Snapshots.Rules<State>,
      f: Snapshots.Faults<State>)
    requires Snapshots.Sensible(rules) && f.crash.None? && f.failing == {}
    ensures var (after, r) := Commit(w, candidate, reply, rules, f);
      if rules.valid(candidate) then r == Replied(reply) && after.memory == Some(candidate)
      else r == Refused(Quota) && after == w
  {
    Snapshots.WriteExact(w.disk, candidate, rules, f);
    hide Snapshots.Write;
  }

  /**
    * Without faults every call of a loaded store is replied to with its meaning, unless it means an error or
    * a change beyond the limits.
    */
  lemma FaultlessCall(o: Oracle, rules: Snapshots.Rules<State>, w: World, c: Call, s: State)
    requires Snapshots.Sensible(rules) && w.memory == Some(s) && c.faults.crash.None? && c.faults.failing == {}
    requires rules.valid(s)
    ensures var (after, r) := Execute(o, rules, w, c);
      match Meaning(o, s, c)
      case Err(e) => r == Refused(e) && after.memory == Some(s)
      case Ok((reply, next)) =>
        if rules.valid(next) then r == Replied(reply) && after.memory == Some(next)
        else r == Refused(Quota) && after.memory == Some(s)
  {
    hide Commit, Edit, Answer, Snapshots.Sensible;
    var caches := CachesAt(s, c.origin);
    if o.trusted(c.origin) && Changes(c.command) && Edit(o, caches, c.command).Ok? {
      var (reply, _, after) := Edit(o, caches, c.command).value;
      FaultlessCommit(w, s[c.origin := after], reply, rules, c.faults);
    }
  }

  lemma CommitKeepsKind(w: World, candidate: State, reply: Reply, rules: Snapshots.Rules<State>,
      f: Snapshots.Faults<State>)
    ensures Commit(w, candidate, reply, rules, f).0.persistent == w.persistent
  {
    hide Snapshots.Write;
  }

  // ---------- Whole runs ----------

  function Runs(o: Oracle, rules: Snapshots.Rules<State>, w: World, calls: seq<Call>): (World, seq<Reaction>)
    decreases |calls|
  {
    if calls == [] then (w, [])
    else
      var n := |calls| - 1;
      var (before, reactions) := Runs(o, rules, w, calls[..n]);
      var (after, r) := Execute(o, rules, before, calls[n]);
      (after, reactions + [r])
  }

  /** The calls that took effect, applied one after the other to a plain map. */
  function Folded(o: Oracle, s: State, calls: seq<Call>, took: seq<bool>): State
    requires |took| == |calls|
    decreases |calls|
  {
    if calls == [] then s
    else
      var n := |calls| - 1;
      var before := Folded(o, s, calls[..n], took[..n]);
      if took[n] then After(o, before, calls[n]) else before
  }

  /** Which calls took effect: every one that was replied to and none that was refused. */
  ghost predicate Explains(took: seq<bool>, reactions: seq<Reaction>) {
    |took| == |reactions|
      && forall i :: 0 <= i < |took| ==> (reactions[i].Replied? ==> took[i]) && (reactions[i].Refused? ==> !took[i])
  }

  /** Each reply is the one the plain map would give at that moment. */
  ghost predicate RepliesAgree(o: Oracle, s: State, calls: seq<Call>, took: seq<bool>, reactions: seq<Reaction>)
    requires |took| == |calls| == |reactions|
  {
    forall i :: 0 <= i < |calls| && reactions[i].Replied? ==> RepliesAt(o, s, calls, took, reactions, i)
  }

  ghost predicate RepliesAt(o: Oracle, s: State, calls: seq<Call>, took: seq<bool>, reactions: seq<Reaction>, i: nat)
    requires |took| == |calls| == |reactions| && i < |calls| && reactions[i].Replied?
  {
    var before := Folded(o, s, calls[..i], took[..i]);
    Meaning(o, before, calls[i]).Ok? && Meaning(o, before, calls[i]).value.0 == reactions[i].reply
  }

  /**
    * Over every run of calls, with failures and deaths anywhere that deceive no existence check, the
    * store behaves as a plain map on which exactly the calls that replied, and some of those during
    * which the process died, took effect; and memory is at every end what loading would return.
    */
  lemma {:induction false} RunsLikeAMap(o: Oracle, rules: Snapshots.Rules<State>, w: World, calls: seq<Call>, s: State)
      returns (took: seq<bool>)
    requires Snapshots.Sensible(rules) && Coherent(w, rules) && Visible(w, rules) == Some(s)
    requires forall i :: 0 <= i < |calls| ==> !Snapshots.Deceives(calls[i].faults)
    ensures var (after, reactions) := Runs(o, rules, w, calls);
      && Coherent(after, rules) && after.persistent == w.persistent
      && |took| == |calls| == |reactions|
      && Explains(took, reactions)
      && Visible(after, rules) == Some(Folded(o, s, calls, took))
      && RepliesAgree(o, s, calls, took, reactions)
    decreases |calls|
  {
    hide Coherent, Visible, Execute, Meaning, After, RepliesAt;
    if calls == [] {
      took := [];
    } else {
      var n := |calls| - 1;
      var earlier := RunsLikeAMap(o, rules, w, calls[..n], s);
      var (before, reactions) := Runs(o, rules, w, calls[..n]);
      var middle := Folded(o, s, calls[..n], earlier);
      ExecuteLawful(o, rules, before, calls[n], middle);
      var (after, r) := Execute(o, rules, before, calls[n]);
      var last := if r.Died? then Visible(after, rules) != Some(middle) else r.Replied?;
      took := earlier + [last];
      assert took[..n] == earlier;
      assert reactions + [r] == Runs(o, rules, w, calls).1;
      ExtendReplies(o, s, calls, earlier, last, reactions, r);
    }
  }

  /** Whatever befalls the files, a process that lives and has loaded gives a call its meaning. */
  lemma LivingCall(o: Oracle, rules: Snapshots.Rules<State>, w: World, c: Call, s: State)
    requires w.memory == Some(s)
    ensures var (after, r) := Execute(o, rules, w, c);
      !r.Died? ==>
        && after.memory == Some(if r.Replied? then After(o, s, c) else s)
        && (r.Replied? ==> Meaning(o, s, c) == Ok((r.reply, After(o, s, c))))
  {
    hide Snapshots.Write, Edit, Answer;
  }

  /** As long as the process lives, its replies are those of a plain map under every fault, deceived writes included. */
  lemma {:induction false} LivingRun(o: Oracle, rules: Snapshots.Rules<State>, w: World, calls: seq<Call>, s: State)
    returns (took: seq<bool>)
    requires w.memory == Some(s) && forall r :: r in Runs(o, rules, w, calls).1 ==> !r.Died?
    ensures var (after, reactions) := Runs(o, rules, w, calls);
      && |took| == |calls| == |reactions|
      && (forall i :: 0 <= i < |took| ==> took[i] == reactions[i].Replied?)
      && after.memory == Some(Folded(o, s, calls, took))
      && RepliesAgree(o, s, calls, took, reactions)
    decreases |calls|
  {
    hide Execute, Meaning, After, RepliesAt;
    if calls == [] {
      took := [];
    } else {
      var n := |calls| - 1;
      var (before, reactions) := Runs(o, rules, w, calls[..n]);
      var (after, r) := Execute(o, rules, before, calls[n]);
      assert Runs(o, rules, w, calls).1 == reactions + [r];
      var earlier := LivingRun(o, rules, w, calls[..n], s);
      LivingCall(o, rules, before, calls[n], Folded(o, s, calls[..n], earlier));
      took := earlier + [r.Replied?];
      assert took[..n] == earlier;
      ExtendReplies(o, s, calls, earlier, r.Replied?, reactions, r);
    }
  }

  lemma ExtendReplies(o: Oracle, s: State, calls: seq<Call>, earlier: seq<bool>, last: bool, reactions: seq<Reaction>,
      r: Reaction)
    requires calls != [] && |earlier| == |reactions| == |calls| - 1
    requires RepliesAgree(o, s, calls[..|calls| - 1], earlier, reactions)
    requires r.Replied? ==>
      Meaning(o, Folded(o, s, calls[..|calls| - 1], earlier), calls[|calls| - 1]) ==
        Ok((r.reply, After(o, Folded(o, s, calls[..|calls| - 1], earlier), calls[|calls| - 1])))
    ensures RepliesAgree(o, s, calls, earlier + [last], reactions + [r])
  {
    hide Folded, Meaning, After;
    var n := |calls| - 1;
    var took, all := earlier + [last], reactions + [r];
    forall i | 0 <= i < |calls| && all[i].Replied? ensures RepliesAt(o, s, calls, took, all, i) {
      assert calls[..i] == calls[..n][..i] && took[..i] == earlier[..i];
      if i < n {
        assert RepliesAt(o, s, calls[..n], earlier, reactions, i);
      } else {
        assert earlier[..n] == earlier;
      }
    }
  }

  // ---------- Origins and names over a run ----------

  ghost predicate WellNamed(s: State) {
    forall origin :: origin in s ==> DistinctNames(s[origin])
  }

  /** A call touches no other origin, and keeps cache names distinct. */
  lemma AfterIsolated(o: Oracle, s: State, c: Call)
    requires WellNamed(s)
    ensures WellNamed(After(o, s, c))
    ensures forall origin :: origin != c.origin ==> CachesAt(After(o, s, c), origin) == CachesAt(s, origin)
  {
    assert DistinctNames([]);
    hide Edit, Answer, DistinctNames;
    var caches := CachesAt(s, c.origin);
    if o.trusted(c.origin) && Changes(c.command) && Edit(o, caches, c.command).Ok? {
      EditKeepsDistinct(o, caches, c.command);
    }
  }

  /** Over every run an origin no call names keeps its caches, and names stay distinct everywhere. */
  lemma {:induction false} FoldedIsolated(o: Oracle, s: State, calls: seq<Call>, took: seq<bool>, origin: string)
    requires WellNamed(s) && |took| == |calls|
    ensures WellNamed(Folded(o, s, calls, took))
    ensures (forall i :: 0 <= i < |calls| ==> calls[i].origin != origin) ==>
      CachesAt(Folded(o, s, calls, took), origin) == CachesAt(s, origin)
    decreases |calls|
  {
    hide After, WellNamed, CachesAt;
    if calls != [] {
      var n := |calls| - 1;
      FoldedIsolated(o, s, calls[..n], took[..n], origin);
      AfterIsolated(o, Folded(o, s, calls[..n], took[..n]), calls[n]);
    }
  }

  // ---------- The store as an object ----------

  class Storage {
    const oracle: Oracle
    const rules: Snapshots.Rules<State>
    const persistent: bool
    const files: Snapshots.SnapshotFiles<State>
    var memory: Option<State>

    ghost function Contents(): World
      reads this, files
    {
      World(memory, files.Contents(), persistent)
    }

    ghost predicate Valid()
      reads this, files
    {
      files.rules == rules && (!persistent ==> memory.Some?)
    }

    constructor InMemory(oracle: Oracle, rules: Snapshots.Rules<State>)
      ensures Valid() && fresh(files)
      ensures !persistent && memory == Some(map[]) && this.oracle == oracle && this.rules == rules
    {
      this.oracle, this.rules, persistent := oracle, rules, false;
      files := new Snapshots.SnapshotFiles(rules, Snapshots.Disk(Snapshots.Absent, Snapshots.Absent, Snapshots.Absent));
      memory := Some(map[]);
    }

    /** Opening reads nothing: the first call does. */
    constructor OpenAt(oracle: Oracle, rules: Snapshots.Rules<State>, disk: Snapshots.Disk<State>)
      ensures Valid() && fresh(files)
      ensures Contents() == World(None, disk, true) && this.oracle == oracle && this.rules == rules
    {
      this.oracle, this.rules, persistent := oracle, rules, true;
      files := new Snapshots.SnapshotFiles(rules, disk);
      memory := None;
    }

    method EnsureLoaded() returns (r: Result<State, CacheError>)
      requires Valid()
      modifies this`memory
      ensures r == Loaded(old(Contents()), rules)
      ensures memory == (if r.Ok? then Some(r.value) else old(memory))
    {
      if memory.None? {
        var loaded := files.LoadState();
        if loaded.Err? {
          return Err(FromSnapshots(loaded.error));
        }
        memory := Some(loaded.value);
      }
      return Ok(memory.value);
    }

    /** A changed candidate becomes the state only after it was validated and written. */
    method Mutate(origin: string, command: Command, faults: Snapshots.Faults<State>) returns (r: Reaction)
      requires Valid() && oracle.trusted(origin) && Changes(command)
      modifies this`memory, files
      ensures Valid() && (Contents(), r) == Execute(oracle, rules, old(Contents()), Call(origin, command, faults))
    {
      var loaded := EnsureLoaded();
      if loaded.Err? {
        return Refused(loaded.error);
      }
      var state := loaded.value;
      var edited := Edit(oracle, CachesAt(state, origin), command);
      if edited.Err? {
        return Refused(edited.error);
      }
      var (reply, changed, caches) := edited.value;
      if !changed {
        return Replied(reply);
      }
      var candidate := state[origin := caches];
      if !rules.valid(candidate) {
        return Refused(Quota);
      }
      if persistent {
        var ending := files.WriteState(candidate, faults);
        match ending {
          case Done =>
          case Failed(e) =>
            return Refused(FromSnapshots(e));
          case Crashed =>
            memory := None;
            return Died;
        }
      }
      memory := Some(candidate);
      return Replied(reply);
    }

    method Perform(origin: string, command: Command, faults: Snapshots.Faults<State>) returns (r: Reaction)
      requires Valid()
      modifies this`memory, files
      ensures Valid() && (Contents(), r) == Execute(oracle, rules, old(Contents()), Call(origin, command, faults))
    {
      if !oracle.trusted(origin) {
        return Refused(InvalidRequest);
      }
      if Changes(command) {
        r := Mutate(origin, command, faults);
      } else {
        var loaded := EnsureLoaded();
        if loaded.Err? {
          return Refused(loaded.error);
        }
        r := Replied(Answer(oracle, CachesAt(loaded.value, origin), command));
      }
    }
  }
}
