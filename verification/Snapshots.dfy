/**
  * Crash-safe snapshots of a store: a primary file, the backup it is rotated into and a temporary
  * file. Every file operation may fail, and the process may die before any of them. CacheStorage
  * and IndexedDB use the same protocol with different limits, so the state is a parameter.
  */
module Snapshots {
  import opened Outcome

  /** What a file name holds: nothing, a complete snapshot, or something that cannot be read as one. */
  datatype Slot<S> = Absent | Stored(state: S) | Damaged(reason: nat)

  datatype Disk<S> = Disk(primary: Slot<S>, backup: Slot<S>, temporary: Slot<S>)

  datatype Error = Quota | Persistence(reason: nat)

  /**
    * The limits: `valid` is what reading demands of a snapshot, `fits` the total size alone, which is
    * all that writing checks; `start` is the state of a store that was never written.
    */
  datatype Rules<!S> = Rules(valid: S -> bool, fits: S -> bool, start: S)

  ghost predicate Sensible<S(!new)>(rules: Rules<S>) {
    rules.valid(rules.start) && forall s :: rules.valid(s) ==> rules.fits(s)
  }

  // ---------- Loading ----------

  function Read<S>(slot: Slot<S>, rules: Rules<S>): Result<Option<S>, Error> {
    match slot
    case Absent => Ok(None)
    case Damaged(reason) => Err(Persistence(reason))
    case Stored(s) => if rules.valid(s) then Ok(Some(s)) else Err(Quota)
  }

  function Load<S>(d: Disk<S>, rules: Rules<S>): Result<S, Error> {
    match Read(d.primary, rules)
    case Ok(Some(s)) => Ok(s)
    case Ok(None) =>
      (match Read(d.backup, rules)
       case Err(e) => Err(e)
       case Ok(None) => Ok(rules.start)
       case Ok(Some(s)) => Ok(s))
    case Err(primary) =>
      match Read(d.backup, rules)
      case Err(e) => Err(e)
      case Ok(None) => Err(primary)
      case Ok(Some(s)) => Ok(s)
  }

  /** Why a file that is there cannot be read: it is damaged, or what it holds is over the limits. */
  ghost predicate Faulty<S>(slot: Slot<S>, rules: Rules<S>, e: Error) {
    || (slot.Damaged? && e == Persistence(slot.reason))
    || (slot.Stored? && !rules.valid(slot.state) && e == Quota)
  }

  /**
    * Loading finds the primary if it can be read, then the backup if that can, and starts afresh only if
    * there is neither file; otherwise it tells what is wrong with the backup, or with the primary if there is
    * no backup.
    */
  lemma LoadExact<S>(d: Disk<S>, rules: Rules<S>, e: Error)
    ensures var good, spare := Readable(d.primary, rules), Readable(d.backup, rules);
      && (good ==> Load(d, rules) == Ok(d.primary.state))
      && (!good && spare ==> Load(d, rules) == Ok(d.backup.state))
      && (d.primary.Absent? && d.backup.Absent? ==> Load(d, rules) == Ok(rules.start))
      && (Load(d, rules) == Err(e) <==>
           !good && (Faulty(d.backup, rules, e) || (d.backup.Absent? && Faulty(d.primary, rules, e))))
  {
  }

  // ---------- Writing ----------

  datatype Operation =
    | MakeDirectory | CreateFile | WriteFile | SyncFile
    | CheckPrimary | RemoveBackup | RenamePrimary
    | InstallNew | RestoreBackup

  datatype Verdict = Works | Fails | Crashes

  /**
    * How one write goes: which operations fail, before which one the process dies, and what an
    * unfinished temporary file holds.
    */
  datatype Faults<S> = Faults(crash: Option<Operation>, failing: set<Operation>, leftover: Slot<S>)

  function At<S>(f: Faults<S>, op: Operation): Verdict {
    if f.crash == Some(op) then Crashes else if op in f.failing then Fails else Works
  }

  datatype Ending = Done | Failed(error: Error) | Crashed

  function Broken<S>(f: Faults<S>, op: Operation): Ending {
    if At(f, op).Crashes? then Crashed else Failed(Persistence(0))
  }

  function WriteTemporary<S>(d: Disk<S>, next: S, f: Faults<S>): (Disk<S>, Ending) {
    if !At(f, MakeDirectory).Works? then (d, Broken(f, MakeDirectory))
    else if !At(f, CreateFile).Works? then (d.(temporary := f.leftover), Broken(f, CreateFile))
    else if !At(f, WriteFile).Works? then (d.(temporary := f.leftover), Broken(f, WriteFile))
    else if !At(f, SyncFile).Works? then (d.(temporary := f.leftover), Broken(f, SyncFile))
    else (d.(temporary := Stored(next)), Done)
  }

  /** Makes room: an existing primary becomes the backup. A failing existence check says there is none. */
  function Rotate<S>(d: Disk<S>, f: Faults<S>): (Disk<S>, Ending) {
    if At(f, CheckPrimary).Crashes? then (d, Crashed)
    else if At(f, CheckPrimary).Fails? || d.primary.Absent? then (d, Done)
    else if !At(f, RemoveBackup).Works? then (d, Broken(f, RemoveBackup))
    else
      var bare := d.(backup := Absent);
      if !At(f, RenamePrimary).Works? then (bare, Broken(f, RenamePrimary))
      else (bare.(backup := d.primary, primary := Absent), Done)
  }

  /** Renames the temporary file over the primary, or tries to put the backup back. */
  function Install<S>(d: Disk<S>, f: Faults<S>): (Disk<S>, Ending) {
    match At(f, InstallNew)
    case Works => (d.(primary := d.temporary, temporary := Absent), Done)
    case Crashes => (d, Crashed)
    case Fails =>
      if At(f, RestoreBackup).Crashes? then (d, Crashed)
      else if At(f, RestoreBackup).Fails? || d.backup.Absent? then (d, Failed(Persistence(0)))
      else (d.(primary := d.backup, backup := Absent), Failed(Persistence(0)))
  }

  function Write<S>(d: Disk<S>, next: S, rules: Rules<S>, f: Faults<S>): (Disk<S>, Ending) {
    if !rules.fits(next) then (d, Failed(Quota))
    else
      var (a, wrote) := WriteTemporary(d, next, f);
      if !wrote.Done? then (a, wrote)
      else
        var (b, rotated) := Rotate(a, f);
        if !rotated.Done? then (b, rotated) else Install(b, f)
  }

  // ---------- What survives ----------

  /** The state the next start would find, if it would find one. */
  function Survives<S>(d: Disk<S>, rules: Rules<S>): Option<S> {
    match Load(d, rules)
    case Ok(s) => Some(s)
    case Err(_) => None
  }

  predicate Readable<S>(slot: Slot<S>, rules: Rules<S>) {
    slot.Stored? && rules.valid(slot.state)
  }

  predicate Unreadable<S>(slot: Slot<S>, rules: Rules<S>) {
    !slot.Absent? && !Readable(slot, rules)
  }

  /** Not the one situation the protocol cannot survive: a primary that is lost already while its backup is good. */
  predicate Safe<S>(d: Disk<S>, rules: Rules<S>) {
    !(Unreadable(d.primary, rules) && Readable(d.backup, rules))
  }

  /** The new state is completely in the temporary file before the primary is touched. */
  predicate Prepares<S>(f: Faults<S>) {
    At(f, MakeDirectory).Works? && At(f, CreateFile).Works? && At(f, WriteFile).Works? && At(f, SyncFile).Works?
  }

  /**
    * The existence check wrongly finds no primary, the new file is not installed, and the backup is
    * put back instead.
    */
  predicate Deceives<S>(f: Faults<S>) {
    && Prepares(f) && At(f, CheckPrimary).Fails?
    && At(f, InstallNew).Fails? && At(f, RestoreBackup).Works?
  }

  /** The old backup is removed, and then the new file does not get into its place. */
  predicate Spends<S>(f: Faults<S>) {
    && Prepares(f) && At(f, CheckPrimary).Works? && At(f, RemoveBackup).Works?
    && !(At(f, RenamePrimary).Works? && At(f, InstallNew).Works?)
  }

  /** A good primary beside a backup of something else. */
  ghost predicate Superseded<S>(d: Disk<S>, rules: Rules<S>) {
    Readable(d.primary, rules) && !d.backup.Absent? && d.backup != d.primary
  }

  /** One write leaves the old or the new state; once done the new one, on an error the old one. */
  ghost predicate Atomic<S>(d: Disk<S>, next: S, rules: Rules<S>, f: Faults<S>) {
    var (e, outcome) := Write(d, next, rules, f);
    match outcome
    case Done => Survives(e, rules) == Some(next)
    case Failed(_) => Survives(e, rules) == Survives(d, rules)
    case Crashed => Survives(e, rules) == Survives(d, rules) || Survives(e, rules) == Some(next)
  }

  /** There is a primary, as far as the existence check tells. */
  predicate SeesPrimary<S>(d: Disk<S>, f: Faults<S>) {
    At(f, CheckPrimary).Works? && !d.primary.Absent?
  }

  /** Every step up to the last rename works; the two that make room need to only if a primary is seen. */
  predicate RunsThrough<S>(d: Disk<S>, f: Faults<S>) {
    && Prepares(f) && !At(f, CheckPrimary).Crashes?
    && (SeesPrimary(d, f) ==> At(f, RemoveBackup).Works? && At(f, RenamePrimary).Works?)
    && At(f, InstallNew).Works?
  }

  /**
    * When a write is done, and what it leaves: the new state as primary, and the old primary, if it was
    * seen, as backup. A state that is too large changes nothing at all, and as long as the temporary file
    * is not complete neither of the other two is touched. Only a crash kills.
    */
  lemma WriteExact<S>(d: Disk<S>, next: S, rules: Rules<S>, f: Faults<S>)
    ensures var (e, outcome) := Write(d, next, rules, f);
      && (!rules.fits(next) ==> e == d && outcome == Failed(Quota))
      && (rules.fits(next) ==>
           && (outcome == Done <==> RunsThrough(d, f))
           && (outcome == Done ==>
                e == Disk(Stored(next), if SeesPrimary(d, f) then d.primary else d.backup, Absent))
           && (outcome.Failed? ==> outcome.error.Persistence?)
           && (!Prepares(f) ==> e.primary == d.primary && e.backup == d.backup)
           && (f.crash.None? ==> !outcome.Crashed?)
           && (f.failing == {} ==> !outcome.Failed?))
  {
  }

  lemma RotateKeeps<S>(d: Disk<S>, rules: Rules<S>, f: Faults<S>)
    requires Safe(d, rules)
    ensures var e := Rotate(d, f).0;
      Survives(e, rules) == Survives(d, rules) && Safe(e, rules) && e.temporary == d.temporary
    ensures Rotate(d, f).1.Done? ==>
      Rotate(d, f).0.primary.Absent? || (At(f, CheckPrimary).Fails? && Rotate(d, f).0 == d)
  {
  }

  lemma InstallKeeps<S>(d: Disk<S>, next: S, rules: Rules<S>, f: Faults<S>)
    requires d.temporary == Stored(next) && rules.valid(next) && Safe(d, rules)
    requires d.primary.Absent? || !At(f, InstallNew).Fails? || !At(f, RestoreBackup).Works?
    ensures var (e, outcome) := Install(d, f);
      && Safe(e, rules)
      && (if outcome.Done? then Survives(e, rules) == Some(next) else Survives(e, rules) == Survives(d, rules))
  {
  }

  /** From a safe disk every write that is not deceived is atomic wherever it fails or dies, and leaves a safe disk. */
  lemma WriteAtomic<S>(d: Disk<S>, next: S, rules: Rules<S>, f: Faults<S>)
    requires Safe(d, rules) && rules.valid(next) && rules.fits(next) && !Deceives(f)
    ensures Atomic(d, next, rules, f) && Safe(Write(d, next, rules, f).0, rules)
  {
    hide Rotate, Install;
    var (a, wrote) := WriteTemporary(d, next, f);
    if wrote.Done? {
      RotateKeeps(a, rules, f);
      var (b, rotated) := Rotate(a, f);
      if rotated.Done? {
        InstallKeeps(b, next, rules, f);
      }
    }
  }

  /** A deceived write always fails; it puts the backup over the primary, unless there is no backup. */
  lemma DeceivedWrite<S>(d: Disk<S>, next: S, rules: Rules<S>, f: Faults<S>)
    requires rules.fits(next) && Deceives(f)
    ensures Write(d, next, rules, f).1.Failed?
    ensures var e := Write(d, next, rules, f).0;
      && e.primary == (if d.backup.Absent? then d.primary else d.backup)
      && e.backup == Absent
    ensures Atomic(d, next, rules, f) <==> !Superseded(d, rules)
  {
  }

  /** From a disk that is not safe the write loses the backup exactly if it removes it and then stops short. */
  lemma SpentWrite<S>(d: Disk<S>, next: S, rules: Rules<S>, f: Faults<S>)
    requires !Safe(d, rules) && rules.valid(next) && rules.fits(next)
    ensures Atomic(d, next, rules, f) <==> !Spends(f)
  {
  }

  /** Disk by disk and fault by fault, when one write is atomic. */
  lemma AtomicExactly<S>(d: Disk<S>, next: S, rules: Rules<S>, f: Faults<S>)
    requires rules.valid(next) && rules.fits(next)
    ensures Atomic(d, next, rules, f) <==>
      !(Deceives(f) && Superseded(d, rules)) && !(Spends(f) && !Safe(d, rules))
  {
    hide Atomic;
    if !Safe(d, rules) {
      SpentWrite(d, next, rules, f);
    } else if Deceives(f) {
      DeceivedWrite(d, next, rules, f);
    } else {
      WriteAtomic(d, next, rules, f);
    }
  }

  /** From any other disk some crash loses the good backup: the write removes it before it has installed anything. */
  lemma BackupLost<S>(d: Disk<S>, next: S, rules: Rules<S>)
    requires !Safe(d, rules) && rules.fits(next)
    ensures var f := Faults(Some(InstallNew), {}, Absent);
      && !Deceives(f) && Write(d, next, rules, f).1 == Crashed
      && Survives(d, rules).Some? && Survives(Write(d, next, rules, f).0, rules).None?
      && !Atomic(d, next, rules, f)
  {
  }

  /** The faults that deceive no existence check are survived exactly from the safe disks. */
  lemma AtomicExactlyWhenSafe<S>(d: Disk<S>, next: S, rules: Rules<S>)
    requires rules.valid(next) && rules.fits(next)
    ensures Safe(d, rules) <==> forall f :: !Deceives(f) ==> Atomic(d, next, rules, f)
  {
    hide Atomic;
    if Safe(d, rules) {
      forall f | !Deceives(f) ensures Atomic(d, next, rules, f) {
        WriteAtomic(d, next, rules, f);
      }
    } else {
      BackupLost(d, next, rules);
    }
  }

  /**
    * Every fault is survived exactly from the safe disks where a good primary has no backup, or one
    * that is the same.
    */
  lemma AtomicUnderEveryFault<S>(d: Disk<S>, next: S, rules: Rules<S>)
    requires rules.valid(next) && rules.fits(next)
    ensures (forall f :: Atomic(d, next, rules, f)) <==>
      Safe(d, rules) && (Readable(d.primary, rules) ==> d.backup.Absent? || d.backup == d.primary)
  {
    hide Atomic;
    AtomicExactlyWhenSafe(d, next, rules);
    if !Safe(d, rules) {
      BackupLost(d, next, rules);
    } else if Superseded(d, rules) {
      AtomicExactly(d, next, rules, Faults(None, {CheckPrimary, InstallNew}, Absent));
    } else {
      forall f ensures Atomic(d, next, rules, f) {
        AtomicExactly(d, next, rules, f);
      }
    }
  }

  /** A fault is survived from every safe disk exactly if it does not deceive. */
  lemma AtomicFromEverySafeDisk<S(!new)>(next: S, rules: Rules<S>, f: Faults<S>)
    requires rules.valid(next) && rules.fits(next)
    ensures (forall d :: Safe(d, rules) ==> Atomic(d, next, rules, f)) <==> !Deceives(f)
  {
    hide Atomic;
    if Deceives(f) {
      DeceivedWrite(Disk(Stored(next), Damaged(0), Absent), next, rules, f);
    } else {
      forall d | Safe(d, rules) ensures Atomic(d, next, rules, f) {
        WriteAtomic(d, next, rules, f);
      }
    }
  }

  /** Two undisturbed writes are enough to reach a disk on which a third, deceived one falls back to the first state. */
  lemma FallsBack<S>(rules: Rules<S>, one: S, two: S, three: S)
    requires rules.valid(one) && rules.fits(one) && rules.valid(two) && rules.fits(two) && rules.fits(three)
    ensures var well := Faults(None, {}, Absent);
      var d := Write(Write(Disk(Absent, Absent, Absent), one, rules, well).0, two, rules, well).0;
      var (e, outcome) := Write(d, three, rules, Faults(None, {CheckPrimary, InstallNew}, Absent));
      Load(d, rules) == Ok(two) && outcome.Failed? && Load(e, rules) == Ok(one)
  {
    var well: Faults<S> := Faults(None, {}, Absent);
    var first := Write(Disk(Absent, Absent, Absent), one, rules, well).0;
    assert first == Disk(Stored(one), Absent, Absent);
    var second := Write(first, two, rules, well).0;
    assert second == Disk(Stored(two), Stored(one), Absent);
    DeceivedWrite(second, three, rules, Faults(None, {CheckPrimary, InstallNew}, Absent));
  }

  /**
    * Writing a state that fits in total but that reading would refuse leaves the next start with the
    * previous one: it must be validated first.
    */
  lemma UnvalidatedIsLost<S>(d: Disk<S>, next: S, rules: Rules<S>, f: Faults<S>)
    requires Readable(d.primary, rules) && !rules.valid(next) && rules.fits(next) && f.crash.None? && f.failing == {}
    ensures Write(d, next, rules, f).1 == Done
    ensures Survives(Write(d, next, rules, f).0, rules) == Survives(d, rules)
      && !Safe(Write(d, next, rules, f).0, rules)
  {
  }

  // ---------- The files themselves ----------

  class SnapshotFiles<S(==)> {
    const rules: Rules<S>
    var primary: Slot<S>
    var backup: Slot<S>
    var temporary: Slot<S>

    ghost function Contents(): Disk<S>
      reads this
    {
      Disk(primary, backup, temporary)
    }

    constructor (rules: Rules<S>, disk: Disk<S>)
      ensures this.rules == rules && Contents() == disk
    {
      this.rules := rules;
      primary, backup, temporary := disk.primary, disk.backup, disk.temporary;
    }

    /** Loads what a start finds; files are only read. */
    method LoadState() returns (r: Result<S, Error>)
      ensures r == Load(Contents(), rules)
    {
      var first := Read(primary, rules);
      if first.Ok? && first.value.Some? {
        return Ok(first.value.value);
      }
      var second := Read(backup, rules);
      if second.Err? {
        return Err(second.error);
      }
      if second.value.Some? {
        return Ok(second.value.value);
      }
      return if first.Err? then Err(first.error) else Ok(rules.start);
    }

    /** One write, operation by operation. */
    method WriteState(next: S, f: Faults<S>) returns (outcome: Ending)
      modifies this
      ensures (Contents(), outcome) == Write(old(Contents()), next, rules, f)
    {
      if !rules.fits(next) {
        return Failed(Quota);
      }
      if !At(f, MakeDirectory).Works? {
        return Broken(f, MakeDirectory);
      }
      temporary := f.leftover;
      if !At(f, CreateFile).Works? {
        return Broken(f, CreateFile);
      }
      if !At(f, WriteFile).Works? {
        return Broken(f, WriteFile);
      }
      if !At(f, SyncFile).Works? {
        return Broken(f, SyncFile);
      }
      temporary := Stored(next);
      if At(f, CheckPrimary).Crashes? {
        return Crashed;
      }
      if At(f, CheckPrimary).Works? && !primary.Absent? {
        if !At(f, RemoveBackup).Works? {
          return Broken(f, RemoveBackup);
        }
        backup := Absent;
        if !At(f, RenamePrimary).Works? {
          return Broken(f, RenamePrimary);
        }
        backup, primary := primary, Absent;
      }
      if At(f, InstallNew).Crashes? {
        return Crashed;
      }
      if At(f, InstallNew).Fails? {
        if At(f, RestoreBackup).Crashes? {
          return Crashed;
        }
        if At(f, RestoreBackup).Works? && !backup.Absent? {
          primary, backup := backup, Absent;
        }
        return Failed(Persistence(0));
      }
      primary, temporary := temporary, Absent;
      return Done;
    }
  }
}
