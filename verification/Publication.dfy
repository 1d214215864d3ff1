/** Publication of a prepared file set into one directory: backups, replacement, rollback. */
module Publication {
  import opened Basics

  /** Names given by the caller, and names that a temporary-file call made. */
  datatype Name = Given(id: nat) | Made(id: nat)

  /** A directory binds names to inodes. */
  type Names = map<Name, nat>

  /** What the outside does to a step: nothing, fail it without effect, or report failure after its effect. */
  datatype Fault = Proceed | FailBefore | FailAfter

  datatype OsError = NotFound | AlreadyThere | Faulted

  datatype Pair = Pair(temporary: Name, destination: Name)

  /** The names with a failed cleanup step, the names preserved for recovery, and the names noted on the error
      itself; `unsynced` if the directory was not flushed. */
  datatype Report = Report(failures: seq<Name>, artifacts: seq<Name>, noted: seq<Name>, unsynced: bool)

  datatype Outcome =
    | Published
    | AlreadyPresent(report: Report)
    | Uncleaned(report: Report)
    | BackupFailed(report: Report)
    | RolledBack(report: Report)

  function Bound(names: Names, n: Name): Option<nat> { if n in names then Some(names[n]) else None }

  // ----- directory steps

  function LinkEffect(names: Names, source: Name, target: Name): Result<Names, OsError> {
    if source !in names then Err(NotFound)
    else if target in names then Err(AlreadyThere)
    else Ok(names[target := names[source]])
  }

  /** Renaming one hard link over another link of the same inode does nothing. */
  function ReplaceEffect(names: Names, source: Name, target: Name): Result<Names, OsError> {
    if source !in names then Err(NotFound)
    else if Bound(names, target) == Some(names[source]) then Ok(names)
    else Ok(names[target := names[source]] - {source})
  }

  function UnlinkEffect(names: Names, n: Name): Result<Names, OsError> {
    if n in names then Ok(names - {n}) else Err(NotFound)
  }

  /** The binding and the error that a step leaves under a fault. */
  function Attempt(names: Names, effect: Result<Names, OsError>, fault: Fault): (Names, Option<OsError>) {
    if fault.FailBefore? then (names, Some(Faulted))
    else if effect.Err? then (names, Some(effect.error))
    else (effect.value, if fault.FailAfter? then Some(Faulted) else None)
  }

  /** A step as the directory's log records it. */
  datatype Operation =
    | Exists(name: Name)
    | Stat(name: Name)
    | Flush
    | LinkTo(source: Name, target: Name)
    | Rename(source: Name, target: Name)
    | Remove(name: Name)
    | Create(name: Name, inode: nat)

  function Effect(names: Names, op: Operation): Result<Names, OsError> {
    match op
    case Exists(_) => Ok(names)
    case Stat(_) => Ok(names)
    case Flush => Ok(names)
    case LinkTo(source, target) => LinkEffect(names, source, target)
    case Rename(source, target) => ReplaceEffect(names, source, target)
    case Remove(n) => UnlinkEffect(names, n)
    case Create(n, inode) => Ok(names[n := inode])
  }

  function After(names: Names, op: Operation, fault: Fault): Names { Attempt(names, Effect(names, op), fault).0 }

  predicate WellBound(names: Names, made: nat, inodes: nat) {
    forall n :: n in names ==> names[n] < inodes && (n.Made? ==> n.id < made)
  }

  ghost predicate InodesBelow(history: seq<Names>, inodes: nat) {
    forall k, n :: 0 <= k < |history| && n in history[k] ==> history[k][n] < inodes
  }

  /** Step `s` leads from one state to the next, and a file it creates has an inode that no earlier state binds. */
  ghost predicate StepFits(history: seq<Names>, log: seq<Operation>, faults: nat -> Fault, s: nat)
    requires s < |log| && |history| == |log| + 1
  {
    && history[s + 1] == After(history[s], log[s], faults(s))
    && (log[s].Create? ==> InodesBelow(history[..s + 1], log[s].inode))
  }

  /** The log explains the history: `history[s]` is the state before step `s`. */
  ghost predicate Traced(history: seq<Names>, log: seq<Operation>, faults: nat -> Fault) {
    |history| == |log| + 1 && forall s :: 0 <= s < |log| ==> StepFits(history, log, faults, s)
  }

  lemma TracedSnoc(history: seq<Names>, log: seq<Operation>, faults: nat -> Fault, op: Operation)
    requires Traced(history, log, faults) && (op.Create? ==> InodesBelow(history, op.inode))
    ensures Traced(history + [After(history[|log|], op, faults(|log|))], log + [op], faults)
  {
    hide After, InodesBelow;
    var later := history + [After(history[|log|], op, faults(|log|))];
    forall s | 0 <= s < |log + [op]| ensures StepFits(later, log + [op], faults, s) {
      assert later[..s + 1] == history[..s + 1];
      if s < |log| { assert StepFits(history, log, faults, s); } else { assert history[..s + 1] == history; }
    }
  }

  class Directory {
    var names: Names
    var made: nat
    var inodes: nat
    var step: nat
    const faults: nat -> Fault
    ghost var history: seq<Names>
    ghost var log: seq<Operation>

    ghost predicate Valid()
      reads this
    {
      && WellBound(names, made, inodes)
      && step == |log| && |history| == |log| + 1 && history[step] == names
      && Traced(history, log, faults) && InodesBelow(history, inodes)
    }

    constructor (names: Names, made: nat, inodes: nat, faults: nat -> Fault)
      requires WellBound(names, made, inodes)
      ensures Valid() && this.names == names && this.made == made && this.inodes == inodes && this.faults == faults
      ensures step == 0
    {
      this.names, this.made, this.inodes, this.faults := names, made, inodes, faults;
      step := 0;
      history := [names];
      log := [];
    }

    twostate predicate OneStep(op: Operation)
      reads this
    {
      step == old(step) + 1 && history == old(history) + [names] && log == old(log) + [op]
    }

    twostate predicate SameNames()
      reads this
    {
      names == old(names) && made == old(made) && inodes == old(inodes)
    }

    /** The log and the history only grow. */
    twostate predicate Extends()
      reads this
    {
      && old(history) <= history && old(log) <= log
      && made >= old(made) && inodes >= old(inodes)
    }

    method Perform(op: Operation) returns (e: Option<OsError>)
      requires Valid() && WellBound(After(names, op, faults(step)), made, inodes)
      requires op.Create? ==> InodesBelow(history, op.inode)
      modifies this
      ensures Valid() && OneStep(op) && made == old(made) && inodes == old(inodes)
      ensures (names, e) == Attempt(old(names), Effect(old(names), op), faults(old(step)))
    {
      TracedSnoc(history, log, faults, op);
      var after := Attempt(names, Effect(names, op), faults(step));
      names := after.0;
      step := step + 1;
      history := history + [names];
      log := log + [op];
      return after.1;
    }

    /** An existence probe answers no when it fails. */
    method Lexists(n: Name) returns (there: bool)
      requires Valid()
      modifies this
      ensures Valid() && OneStep(Exists(n)) && SameNames()
      ensures there == (n in names && faults(old(step)).Proceed?)
    {
      var error := Perform(Exists(n));
      return n in names && error.None?;
    }

    method Lstat(n: Name) returns (r: Result<nat, OsError>)
      requires Valid()
      modifies this
      ensures Valid() && OneStep(Stat(n)) && SameNames()
      ensures r == if !faults(old(step)).Proceed? then Err(Faulted)
                   else if n in names then Ok(names[n]) else Err(NotFound)
    {
      var error := Perform(Stat(n));
      return if error.Some? then Err(Faulted) else if n in names then Ok(names[n]) else Err(NotFound);
    }

    method Fsync() returns (e: Option<OsError>)
      requires Valid()
      modifies this
      ensures Valid() && OneStep(Flush) && SameNames()
      ensures e.None? <==> faults(old(step)).Proceed?
    {
      e := Perform(Flush);
    }

    method Link(source: Name, target: Name) returns (e: Option<OsError>)
      requires Valid() && (target.Made? ==> target.id < made)
      modifies this
      ensures Valid() && OneStep(LinkTo(source, target)) && made == old(made) && inodes == old(inodes)
      ensures (names, e) == Attempt(old(names), LinkEffect(old(names), source, target), faults(old(step)))
    {
      e := Perform(LinkTo(source, target));
    }

    method Replace(source: Name, target: Name) returns (e: Option<OsError>)
      requires Valid() && (target.Made? ==> target.id < made)
      modifies this
      ensures Valid() && OneStep(Rename(source, target)) && made == old(made) && inodes == old(inodes)
      ensures (names, e) == Attempt(old(names), ReplaceEffect(old(names), source, target), faults(old(step)))
    {
      e := Perform(Rename(source, target));
    }

    method Unlink(n: Name) returns (e: Option<OsError>)
      requires Valid()
      modifies this
      ensures Valid() && OneStep(Remove(n)) && made == old(made) && inodes == old(inodes)
      ensures (names, e) == Attempt(old(names), UnlinkEffect(old(names), n), faults(old(step)))
    {
      e := Perform(Remove(n));
    }

    /** Create a file under a new name. */
    method MakeTemporary() returns (r: Result<Name, OsError>)
      requires Valid()
      modifies this
      ensures Valid() && OneStep(Create(Made(old(made)), old(inodes)))
      ensures made == old(made) + 1 && inodes == old(inodes) + 1
      ensures names == if faults(old(step)).FailBefore? then old(names) else old(names)[Made(old(made)) := old(inodes)]
      ensures r == if faults(old(step)).Proceed? then Ok(Made(old(made))) else Err(Faulted)
    {
      var name, inode := Made(made), inodes;
      made, inodes := made + 1, inodes + 1;
      var error := Perform(Create(name, inode));
      return if error.None? then Ok(name) else Err(error.value);
    }
  }

  // ----- reading the log

  /** No step is made to fail. */
  ghost predicate NoFaults(faults: nat -> Fault) { forall s: nat :: faults(s).Proceed? }

  /** A step other than an existence probe was made to fail. */
  ghost predicate StepFailed(faults: nat -> Fault, log: seq<Operation>, from: nat) {
    exists s :: from <= s < |log| && !log[s].Exists? && !faults(s).Proceed?
  }

  /** An existence probe of this very name was made to fail. */
  ghost predicate ProbeFailed(faults: nat -> Fault, log: seq<Operation>, from: nat, n: Name) {
    exists s :: from <= s < |log| && log[s] == Exists(n) && !faults(s).Proceed?
  }

  /** A step that removes this very name was made to fail. */
  ghost predicate RemoveFailed(faults: nat -> Fault, log: seq<Operation>, from: nat, n: Name) {
    exists s :: from <= s < |log| && log[s] == Remove(n) && !faults(s).Proceed?
  }

  /** Each of these names is there because removing it failed. */
  ghost predicate AllStuck(names: seq<Name>, faults: nat -> Fault, log: seq<Operation>, from: nat) {
    forall n :: n in names ==> RemoveFailed(faults, log, from, n)
  }

  /** A step that looks at this very name or removes it was made to fail. */
  ghost predicate TouchFailed(faults: nat -> Fault, log: seq<Operation>, from: nat, n: Name) {
    exists s :: from <= s < |log| && (log[s] == Stat(n) || log[s] == Remove(n)) && !faults(s).Proceed?
  }

  /** Each of these names is reported because a step on it failed. */
  ghost predicate AllTouchFailed(names: seq<Name>, faults: nat -> Fault, log: seq<Operation>, from: nat) {
    forall n :: n in names ==> TouchFailed(faults, log, from, n)
  }

  /** The call that created the file under this name reported a failure after its effect. */
  ghost predicate CreatedLate(faults: nat -> Fault, log: seq<Operation>, from: nat, n: Name) {
    exists s :: from <= s < |log| && log[s].Create? && log[s].name == n && faults(s).FailAfter?
  }

  lemma StepFailedLater(faults: nat -> Fault, log: seq<Operation>, from: nat, later: seq<Operation>, start: nat)
    requires log <= later && start <= from
    ensures StepFailed(faults, log, from) ==> StepFailed(faults, later, start)
  {
    if StepFailed(faults, log, from) {
      var s :| from <= s < |log| && !log[s].Exists? && !faults(s).Proceed?;
      assert later[s] == log[s];
    }
  }

  lemma ProbeFailedLater(faults: nat -> Fault, log: seq<Operation>, from: nat, later: seq<Operation>, start: nat,
                         n: Name)
    requires log <= later && start <= from && ProbeFailed(faults, log, from, n)
    ensures ProbeFailed(faults, later, start, n)
  {
    var s :| from <= s < |log| && log[s] == Exists(n) && !faults(s).Proceed?;
    assert later[s] == log[s];
  }

  lemma CreatedLateLater(faults: nat -> Fault, log: seq<Operation>, from: nat, later: seq<Operation>, start: nat,
                         n: Name)
    requires log <= later && start <= from && CreatedLate(faults, log, from, n)
    ensures CreatedLate(faults, later, start, n)
  {
    var s :| from <= s < |log| && log[s].Create? && log[s].name == n && faults(s).FailAfter?;
    assert later[s] == log[s];
  }

  lemma AllStuckLater(names: seq<Name>, faults: nat -> Fault, log: seq<Operation>, from: nat, later: seq<Operation>,
                      start: nat)
    requires log <= later && start <= from && AllStuck(names, faults, log, from)
    ensures AllStuck(names, faults, later, start)
  {
    forall n | n in names ensures RemoveFailed(faults, later, start, n) {
      var s :| from <= s < |log| && log[s] == Remove(n) && !faults(s).Proceed?;
      assert later[s] == log[s];
    }
  }

  lemma AllTouchFailedLater(names: seq<Name>, faults: nat -> Fault, log: seq<Operation>, from: nat,
                            later: seq<Operation>, start: nat)
    requires log <= later && start <= from && AllTouchFailed(names, faults, log, from)
    ensures AllTouchFailed(names, faults, later, start)
  {
    forall n | n in names ensures TouchFailed(faults, later, start, n) {
      var s :| from <= s < |log| && (log[s] == Stat(n) || log[s] == Remove(n)) && !faults(s).Proceed?;
      assert later[s] == log[s];
    }
  }

  lemma AllTouchFailedSnoc(names: seq<Name>, faults: nat -> Fault, log: seq<Operation>, from: nat,
                           later: seq<Operation>, start: nat, n: Name)
    requires log <= later && start <= from && AllTouchFailed(names, faults, log, start)
    requires TouchFailed(faults, later, from, n)
    ensures AllTouchFailed(names + [n], faults, later, start)
  {
    hide TouchFailed;
    AllTouchFailedLater(names, faults, log, start, later, start);
    assert AllTouchFailed([n], faults, later, from);
    AllTouchFailedLater([n], faults, later, from, later, start);
    assert n in [n];
  }

  lemma AllStuckSnoc(names: seq<Name>, faults: nat -> Fault, log: seq<Operation>, from: nat, later: seq<Operation>,
                     start: nat, n: Name)
    requires log <= later && start <= from && AllStuck(names, faults, log, start) && AllStuck([n], faults, later, from)
    ensures AllStuck(names + [n], faults, later, start)
  {
    hide RemoveFailed;
    AllStuckLater(names, faults, log, start, later, start);
    AllStuckLater([n], faults, later, from, later, start);
    assert n in [n];
  }

  /** No name is bound to the inode. */
  ghost predicate Unbound(names: Names, inode: nat) { forall n :: n in names ==> names[n] != inode }

  /** An inode that some state bound and a later state does not is bound by no state after that. */
  lemma {:induction false} GoneForGood(history: seq<Names>, log: seq<Operation>, faults: nat -> Fault,
                                       seen: nat, n: Name, s: nat, t: nat)
    requires Traced(history, log, faults) && seen <= s <= t < |history| && n in history[seen]
    requires Unbound(history[s], history[seen][n])
    ensures Unbound(history[t], history[seen][n])
    decreases t
  {
    if s < t {
      GoneForGood(history, log, faults, seen, n, s, t - 1);
      assert StepFits(history, log, faults, t - 1);
      if log[t - 1].Create? { assert history[..t][seen] == history[seen]; }
    }
  }

  // ----- phase one: backups

  /** Every name of `base` is still bound as it was, and only names made since `made` were added. */
  ghost predicate Grows(names: Names, base: Names, made: nat) {
    && (forall n :: n in base ==> n in names && names[n] == base[n])
    && (forall n :: n in names && n !in base ==> n.Made? && n.id >= made)
  }

  ghost predicate AllGrow(history: seq<Names>, from: nat, base: Names, made: nat) {
    forall k :: from <= k < |history| ==> Grows(history[k], base, made)
  }

  lemma GrowsMore(names: Names, middle: Names, base: Names, later: nat, made: nat)
    requires Grows(names, middle, later) && Grows(middle, base, made) && made <= later
    ensures Grows(names, base, made)
  {
  }

  lemma AllGrowSnoc(history: seq<Names>, from: nat, base: Names, made: nat, names: Names)
    requires AllGrow(history, from, base, made) && Grows(names, base, made)
    ensures AllGrow(history + [names], from, base, made)
  {
    hide Grows;
  }

  lemma GrowsStart(history: seq<Names>, names: Names, made: nat)
    ensures Grows(names, names, made) && AllGrow(history, |history|, names, made)
  {
  }

  /** Binding or unbinding a name made since keeps the growth. */
  lemma MadeGrows(base: Names, made: nat, n: Name, inode: nat)
    requires n !in base && n.Made? && n.id >= made
    ensures Grows(base[n := inode], base, made) && Grows(base, base, made) && base[n := inode] - {n} == base
  {
  }

  lemma MadeIsNew(names: Names, made: nat, inodes: nat)
    requires WellBound(names, made, inodes)
    ensures Made(made) !in names
  {
  }

  /** A name that a failed backup leaves behind is noted, unless the call that made it reported a late failure. */
  ghost predicate Noted(names: Names, base: Names, noted: seq<Name>, faults: nat -> Fault, log: seq<Operation>,
                        from: nat) {
    forall n :: n in names && n !in base ==> n in noted || CreatedLate(faults, log, from, n)
  }

  /** Link an existing destination to a new backup name; on failure remove the half-made backup. */
  method Backup(dir: Directory, destination: Name) returns (r: Result<Option<Name>, OsError>, noted: seq<Name>)
    requires dir.Valid()
    modifies dir
    ensures dir.Valid() && dir.Extends() && |dir.log| > old(dir.step) && dir.log[old(dir.step)] == Exists(destination)
    ensures Grows(dir.names, old(dir.names), old(dir.made))
    ensures AllGrow(dir.history, |old(dir.history)|, old(dir.names), old(dir.made))
    ensures r == Ok(None) <==> destination !in old(dir.names) || !dir.faults(old(dir.step)).Proceed?
    ensures r == Ok(None) ==> dir.names == old(dir.names)
    ensures r.Ok? && r.value.Some? ==>
              && r.value.value == Made(old(dir.made)) && dir.made > old(dir.made) && destination in old(dir.names)
              && dir.names == old(dir.names)[Made(old(dir.made)) := old(dir.names)[destination]]
    ensures r.Err? ==> StepFailed(dir.faults, dir.log, old(dir.step))
    ensures r.Err? ==> Noted(dir.names, old(dir.names), noted, dir.faults, dir.log, old(dir.step))
    ensures AllStuck(noted, dir.faults, dir.log, old(dir.step))
  {
    hide Grows, AllGrow, WellBound, Traced, InodesBelow, StepFailed, CreatedLate;
    ghost var base, made, from, start := dir.names, dir.made, |dir.history|, dir.step;
    GrowsStart(dir.history, base, made);
    noted := [];
    MadeIsNew(base, made, dir.inodes);
    AllGrowSnoc(dir.history, from, base, made, base);
    var there := dir.Lexists(destination);
    if !there { return Ok(None), []; }
    MadeGrows(base, made, Made(made), dir.inodes);
    AllGrowSnoc(dir.history, from, base, made, base);
    AllGrowSnoc(dir.history, from, base, made, base[Made(made) := dir.inodes]);
    ghost var inode := dir.inodes;
    label creation:
    var created := dir.MakeTemporary();
    if created.Err? {
      CreationFailed(dir.faults, dir.log, start, Made(made), old@creation(dir.step));
      return Err(created.error), [];
    }
    label filling:
    var error := Fill(dir, created.value, destination, base, made, from, inode);
    StepFailedLater(dir.faults, dir.log, old@filling(dir.step), dir.log, start);
    if error.Some? {
      AllGrowSnoc(dir.history, from, base, made, base);
      AllGrowSnoc(dir.history, from, base, made, dir.names);
      ghost var logged := dir.log;
      var cleanup := dir.Unlink(created.value);
      StepFailedLater(dir.faults, logged, start, dir.log, start);
      if cleanup.Some? && cleanup != Some(NotFound) {
        noted := [created.value];
        assert dir.log[|logged|] == Remove(created.value);
      }
      return Err(error.value), noted;
    }
    return Ok(Some(created.value)), [];
  }

  lemma CreationFailed(faults: nat -> Fault, log: seq<Operation>, from: nat, n: Name, s: nat)
    requires from <= s < |log| && log[s].Create? && log[s].name == n && !faults(s).Proceed?
    ensures StepFailed(faults, log, from) && (faults(s).FailAfter? ==> CreatedLate(faults, log, from, n))
  {
  }

  /** Turn the placeholder into a hard link of the destination. */
  method Fill(dir: Directory, backup: Name, destination: Name, ghost base: Names, ghost made: nat, ghost from: nat,
              ghost inode: nat) returns (error: Option<OsError>)
    requires dir.Valid() && dir.names == base[backup := inode] && AllGrow(dir.history, from, base, made)
    requires backup.Made? && made <= backup.id < dir.made && backup !in base && destination in base
    modifies dir
    ensures dir.Valid() && dir.Extends() && dir.made == old(dir.made)
    ensures AllGrow(dir.history, from, base, made) && Grows(dir.names, base, made)
    ensures dir.names - {backup} == base
    ensures error.None? ==> dir.names == base[backup := base[destination]]
    ensures error.Some? ==> StepFailed(dir.faults, dir.log, old(dir.step))
  {
    hide AllGrow, WellBound, Grows, Traced, InodesBelow;
    MadeGrows(base, made, backup, inode);
    MadeGrows(base, made, backup, base[destination]);
    AllGrowSnoc(dir.history, from, base, made, dir.names);
    AllGrowSnoc(dir.history, from, base, made, base);
    error := dir.Unlink(backup);
    if error.Some? {
      assert !dir.log[old(dir.step)].Exists?;
      return;
    }
    label linking:
    AllGrowSnoc(dir.history, from, base, made, base);
    AllGrowSnoc(dir.history, from, base, made, base[backup := base[destination]]);
    error := dir.Link(destination, backup);
    assert !dir.log[old@linking(dir.step)].Exists?;
  }

  /** A backup is a name made for this publication, bound to the original inode of its own destination. */
  ghost predicate Backed(names: Names, base: Names, made: nat, pairs: seq<Pair>, backups: seq<Option<Name>>) {
    && |backups| <= |pairs|
    && (forall i :: 0 <= i < |backups| && backups[i].Some? ==>
          BackedBy(names, base, made, pairs[i].destination, backups[i].value))
    && (forall i, j :: 0 <= i < j < |backups| && backups[i].Some? && backups[j].Some? ==> backups[i] != backups[j])
  }

  ghost predicate BackedBy(names: Names, base: Names, made: nat, destination: Name, backup: Name) {
    backup.Made? && backup.id >= made && destination in base && Bound(names, backup) == Some(base[destination])
  }

  /** The backups are the only names added. */
  ghost predicate OnlyBackups(names: Names, base: Names, backups: seq<Option<Name>>) {
    forall n :: n in names && n !in base ==> Some(n) in backups
  }

  /** `probes[i]` is the step that probed destination `i`, in order, from step `from` on and before step `to`. A
      destination goes without a backup exactly when it did not exist or that probe failed. */
  ghost predicate Probed(faults: nat -> Fault, log: seq<Operation>, from: nat, to: nat, base: Names, pairs: seq<Pair>,
                         backups: seq<Option<Name>>, probes: seq<nat>) {
    && |probes| == |backups| <= |pairs| && to <= |log|
    && (forall i :: 0 <= i < |probes| ==>
          from <= probes[i] < to && log[probes[i]] == Exists(pairs[i].destination))
    && (forall i, j :: 0 <= i < j < |probes| ==> probes[i] < probes[j]) && (probes != [] ==> probes[0] == from)
    && (forall i :: 0 <= i < |backups| ==>
          (backups[i].None? <==> pairs[i].destination !in base || !faults(probes[i]).Proceed?))
  }

  lemma ProbedSnoc(faults: nat -> Fault, log: seq<Operation>, later: seq<Operation>, from: nat, base: Names,
                   pairs: seq<Pair>, backups: seq<Option<Name>>, probes: seq<nat>, more: Option<Name>)
    requires Probed(faults, log, from, |log|, base, pairs, backups, probes) && log <= later && |backups| < |pairs|
    requires from <= |log| < |later| && later[|log|] == Exists(pairs[|backups|].destination)
    requires more.None? <==> pairs[|backups|].destination !in base || !faults(|log|).Proceed?
    requires probes == [] ==> from == |log|
    ensures Probed(faults, later, from, |later|, base, pairs, backups + [more], probes + [|log|])
  {
  }

  lemma ProbedLater(faults: nat -> Fault, log: seq<Operation>, later: seq<Operation>, from: nat, base: Names,
                    pairs: seq<Pair>, backups: seq<Option<Name>>, probes: seq<nat>)
    requires Probed(faults, log, from, |log|, base, pairs, backups, probes) && log <= later
    ensures Probed(faults, later, from, |log|, base, pairs, backups, probes)
  {
  }

  /** One more backup leaves the earlier ones as they are. */
  lemma BackedSnoc(middle: Names, names: Names, base: Names, made: nat, later: nat, pairs: seq<Pair>,
                   backups: seq<Option<Name>>, more: Option<Name>, inodes: nat)
    requires Grows(middle, base, made) && WellBound(middle, later, inodes) && made <= later
    requires Backed(middle, base, made, pairs, backups) && |backups| < |pairs| && OnlyBackups(middle, base, backups)
    requires more.None? ==> names == middle
    requires more.Some? ==> && more.value == Made(later) && pairs[|backups|].destination in base
                            && names == middle[Made(later) := base[pairs[|backups|].destination]]
    ensures Backed(names, base, made, pairs, backups + [more]) && OnlyBackups(names, base, backups + [more])
  {
    var all := backups + [more];
    forall i | 0 <= i < |backups| && backups[i].Some?
      ensures BackedBy(names, base, made, pairs[i].destination, backups[i].value) && backups[i] != more {
      assert BackedBy(middle, base, made, pairs[i].destination, backups[i].value);
    }
    forall n | n in names && n !in base ensures Some(n) in all {
      if n in middle {
        assert Some(n) in backups;
      } else {
        assert all[|backups|] == Some(n);
      }
    }
  }

  predicate Fresh(pairs: seq<Pair>, made: nat) {
    forall i :: 0 <= i < |pairs| ==> (pairs[i].destination.Made? ==> pairs[i].destination.id < made)
                                     && (pairs[i].temporary.Made? ==> pairs[i].temporary.id < made)
  }

  /** A name that remains after a failed phase is reported, or noted on the error, or an existence probe of it failed
      or the call that made it failed late. */
  ghost predicate Accounted(names: Names, base: Names, report: Report, faults: nat -> Fault, log: seq<Operation>,
                            from: nat) {
    forall n :: n in names && n !in base ==>
      || n in report.artifacts || n in report.noted
      || ProbeFailed(faults, log, from, n) || CreatedLate(faults, log, from, n)
  }

  /** Back up every destination, or undo the backups already made. */
  method MakeBackups(dir: Directory, pairs: seq<Pair>)
    returns (r: Result<seq<Option<Name>>, Report>, ghost probes: seq<nat>)
    requires dir.Valid() && Fresh(pairs, dir.made)
    modifies dir
    ensures dir.Valid() && dir.Extends()
    ensures Grows(dir.names, old(dir.names), old(dir.made))
    ensures AllGrow(dir.history, |old(dir.history)|, old(dir.names), old(dir.made))
    ensures pairs != [] ==> |dir.log| > old(dir.step) && dir.log[old(dir.step)] == Exists(pairs[0].destination)
    ensures r.Ok? ==> |r.value| == |pairs| && Backed(dir.names, old(dir.names), old(dir.made), pairs, r.value)
    ensures r.Ok? ==> OnlyBackups(dir.names, old(dir.names), r.value)
    ensures r.Ok? ==> Probed(dir.faults, dir.log, old(dir.step), dir.step, old(dir.names), pairs, r.value, probes)
    ensures r.Err? ==> StepFailed(dir.faults, dir.log, old(dir.step))
    ensures r.Err? ==> Accounted(dir.names, old(dir.names), r.error, dir.faults, dir.log, old(dir.step))
    ensures r.Err? ==> AllStuck(r.error.artifacts, dir.faults, dir.log, old(dir.step))
    ensures r.Err? ==> AllStuck(r.error.noted, dir.faults, dir.log, old(dir.step))
  {
    hide Grows, AllGrow, WellBound, Traced, InodesBelow, Probed, Backed, OnlyBackups, StepFailed, Noted;
    hide Accounted, Pending, AllStuck;
    ghost var base, made, from, start := dir.names, dir.made, |dir.history|, dir.step;
    GrowsStart(dir.history, base, made);
    NoBackups(dir.faults, dir.log, base, made, pairs);
    var backups: seq<Option<Name>> := [];
    probes := [];
    for i := 0 to |pairs|
      invariant |backups| == i == |probes| && dir.Valid() && dir.Extends()
      invariant Probed(dir.faults, dir.log, start, |dir.log|, base, pairs, backups, probes)
      invariant Grows(dir.names, base, made) && AllGrow(dir.history, from, base, made)
      invariant Backed(dir.names, base, made, pairs, backups) && OnlyBackups(dir.names, base, backups)
      invariant if i == 0 then dir.step == start
                else dir.step > start && dir.log[start] == Exists(pairs[0].destination)
    {
      ghost var middle, later, logged, inodes, steps := dir.names, dir.made, dir.history, dir.inodes, dir.log;
      DestinationStays(middle, base, made, pairs, i);
      var backup, noted := Backup(dir, pairs[i].destination);
      GrowsMore(dir.names, middle, base, later, made);
      AllGrowMore(logged, dir.history, from, middle, later, base, made);
      if backup.Err? {
        BackupsAreNew(middle, base, made, pairs, backups, old(dir.inodes));
        StepFailedLater(dir.faults, dir.log, |steps|, dir.log, start);
        PendingAfter(dir.names, middle, base, backups, noted, dir.faults, dir.log, |steps|, start);
        ghost var failed := dir.log;
        AllStuckLater(noted, dir.faults, failed, |steps|, failed, start);
        var report := DropBackups(dir, backups, noted, base, made, from, start);
        StepFailedLater(dir.faults, failed, start, dir.log, start);
        assert dir.log[start] == Exists(pairs[0].destination);
        return Err(report), probes;
      }
      BackedSnoc(middle, dir.names, base, made, later, pairs, backups, backup.value, inodes);
      ProbedSnoc(dir.faults, steps, dir.log, start, base, pairs, backups, probes, backup.value);
      backups := backups + [backup.value];
      probes := probes + [|steps|];
    }
    return Ok(backups), probes;
  }

  lemma NoBackups(faults: nat -> Fault, log: seq<Operation>, base: Names, made: nat, pairs: seq<Pair>)
    ensures Probed(faults, log, |log|, |log|, base, pairs, [], [])
    ensures Backed(base, base, made, pairs, []) && OnlyBackups(base, base, [])
  {
  }

  lemma BackupsAreNew(names: Names, base: Names, made: nat, pairs: seq<Pair>, backups: seq<Option<Name>>, inodes: nat)
    requires Backed(names, base, made, pairs, backups) && WellBound(base, made, inodes)
    ensures forall i :: 0 <= i < |backups| && backups[i].Some? ==> backups[i].value !in base
  {
    forall i | 0 <= i < |backups| && backups[i].Some? ensures backups[i].value !in base {
      assert BackedBy(names, base, made, pairs[i].destination, backups[i].value);
    }
  }

  /** A destination name is not one of the made names, so it was bound before if it is bound now. */
  lemma DestinationStays(names: Names, base: Names, made: nat, pairs: seq<Pair>, i: nat)
    requires Grows(names, base, made) && Fresh(pairs, made) && i < |pairs|
    ensures Bound(names, pairs[i].destination) == Bound(base, pairs[i].destination)
    ensures Bound(names, pairs[i].temporary) == Bound(base, pairs[i].temporary)
  {
  }

  lemma AllGrowMore(logged: seq<Names>, history: seq<Names>, from: nat, middle: Names, later: nat, base: Names,
                    made: nat)
    requires logged <= history && from <= |logged| && made <= later && AllGrow(logged, from, base, made)
    requires AllGrow(history, |logged|, middle, later) && Grows(middle, base, made)
    ensures AllGrow(history, from, base, made)
  {
    hide Grows;
    forall k | from <= k < |history| ensures Grows(history[k], base, made) {
      if k < |logged| { assert history[k] == logged[k]; } else { GrowsMore(history[k], middle, base, later, made); }
    }
  }

  /** The names to account for once a backup failed. */
  ghost predicate Pending(names: Names, base: Names, backups: seq<Option<Name>>, noted: seq<Name>,
                          faults: nat -> Fault, log: seq<Operation>, from: nat) {
    forall n :: n in names && n !in base ==>
      Some(n) in backups || n in noted || CreatedLate(faults, log, from, n)
  }

  lemma PendingAfter(names: Names, middle: Names, base: Names, backups: seq<Option<Name>>, noted: seq<Name>,
                     faults: nat -> Fault, log: seq<Operation>, from: nat, start: nat)
    requires OnlyBackups(middle, base, backups) && Noted(names, middle, noted, faults, log, from) && start <= from
    ensures Pending(names, base, backups, noted, faults, log, start)
  {
    hide CreatedLate;
    forall n | n in names && n !in base
      ensures Some(n) in backups || n in noted || CreatedLate(faults, log, start, n) {
      if n !in middle && n !in noted { CreatedLateLater(faults, log, from, log, start, n); }
    }
  }

  // ----- removing a backup

  /** The backup is gone, or reported, or its own existence probe failed. */
  ghost predicate Cleared(names: Names, artifacts: seq<Name>, faults: nat -> Fault, log: seq<Operation>, from: nat,
                          backup: Name) {
    backup !in names || backup in artifacts || ProbeFailed(faults, log, from, backup)
  }

  ghost predicate AllCleared(names: Names, artifacts: seq<Name>, faults: nat -> Fault, log: seq<Operation>, from: nat,
                             backups: seq<Option<Name>>, m: nat) {
    m <= |backups| &&
    forall i :: 0 <= i < m && backups[i].Some? ==> Cleared(names, artifacts, faults, log, from, backups[i].value)
  }

  lemma AllClearedLater(names: Names, after: Names, artifacts: seq<Name>, more: seq<Name>, faults: nat -> Fault,
                        log: seq<Operation>, later: seq<Operation>, from: nat, start: nat, backups: seq<Option<Name>>,
                        m: nat)
    requires AllCleared(names, artifacts, faults, log, from, backups, m) && log <= later && start <= from
    requires (forall n :: n in after ==> n in names) && (forall n :: n in artifacts ==> n in more)
    ensures AllCleared(after, more, faults, later, start, backups, m)
  {
    hide ProbeFailed;
    forall i | 0 <= i < m && backups[i].Some?
      ensures Cleared(after, more, faults, later, start, backups[i].value) {
      assert Cleared(names, artifacts, faults, log, from, backups[i].value);
      if ProbeFailed(faults, log, from, backups[i].value) {
        ProbeFailedLater(faults, log, from, later, start, backups[i].value);
      }
    }
  }

  /** Every state is the one before, with or without the backup. */
  ghost predicate Dropping(history: seq<Names>, from: nat, before: Names, backup: Name) {
    forall k :: from <= k < |history| ==> history[k] == before || history[k] == before - {backup}
  }

  /** Remove one backup if it is there. */
  method DropOne(dir: Directory, backup: Name) returns (removed: bool, failed: bool)
    requires dir.Valid()
    modifies dir
    ensures dir.Valid() && dir.Extends() && dir.made == old(dir.made)
    ensures dir.names == old(dir.names) || dir.names == old(dir.names) - {backup}
    ensures Dropping(dir.history, |old(dir.history)|, old(dir.names), backup)
    ensures !failed ==> Cleared(dir.names, [], dir.faults, dir.log, old(dir.step), backup)
    ensures removed ==> !failed && backup in old(dir.names) && backup !in dir.names
    ensures failed ==> StepFailed(dir.faults, dir.log, old(dir.step))
    ensures failed ==> AllStuck([backup], dir.faults, dir.log, old(dir.step))
  {
    hide WellBound, Traced, InodesBelow;
    var there := dir.Lexists(backup);
    if !there {
      assert dir.log[old(dir.step)] == Exists(backup);
      return false, false;
    }
    var error := dir.Unlink(backup);
    assert dir.log[old(dir.step) + 1] == Remove(backup);
    return error.None?, error.Some?;
  }

  lemma DroppingGrows(logged: seq<Names>, history: seq<Names>, from: nat, before: Names, backup: Name, base: Names,
                      made: nat)
    requires logged <= history && from <= |logged| && Dropping(history, |logged|, before, backup)
    requires AllGrow(logged, from, base, made) && Grows(before, base, made) && backup !in base
    ensures AllGrow(history, from, base, made)
  {
    DropGrows(before, backup, base, made);
    hide Grows;
    forall k | from <= k < |history| ensures Grows(history[k], base, made) {
      if k < |logged| { assert history[k] == logged[k]; }
    }
  }

  lemma DropGrows(before: Names, backup: Name, base: Names, made: nat)
    requires Grows(before, base, made) && backup !in base
    ensures Grows(before - {backup}, base, made)
  {
  }

  /** After a failed backup, remove the earlier ones, recording what cannot be removed. */
  method DropBackups(dir: Directory, backups: seq<Option<Name>>, noted: seq<Name>, ghost base: Names, ghost made: nat,
                     ghost from: nat, ghost start: nat) returns (report: Report)
    requires dir.Valid() && Grows(dir.names, base, made) && AllGrow(dir.history, from, base, made)
    requires from <= |dir.history| && start <= dir.step
    requires forall i :: 0 <= i < |backups| && backups[i].Some? ==> backups[i].value !in base
    requires Pending(dir.names, base, backups, noted, dir.faults, dir.log, start)
    requires AllStuck(noted, dir.faults, dir.log, start)
    modifies dir
    ensures dir.Valid() && dir.Extends() && dir.made == old(dir.made)
    ensures Grows(dir.names, base, made) && AllGrow(dir.history, from, base, made)
    ensures Accounted(dir.names, base, report, dir.faults, dir.log, start)
    ensures AllStuck(report.artifacts, dir.faults, dir.log, start)
    ensures AllStuck(report.noted, dir.faults, dir.log, start)
  {
    hide Grows, AllGrow, WellBound, Traced, InodesBelow, Pending, Accounted, AllCleared, Cleared, StepFailed, Dropping;
    hide AllStuck;
    var failures: seq<Name> := [];
    NothingCleared(dir.names, dir.faults, dir.log, start, backups);
    NoneStuck(dir.faults, dir.log, start);
    for i := 0 to |backups|
      invariant dir.Valid() && dir.Extends() && dir.made == old(dir.made)
      invariant Grows(dir.names, base, made) && AllGrow(dir.history, from, base, made)
      invariant AllCleared(dir.names, failures, dir.faults, dir.log, start, backups, i)
      invariant AllStuck(failures, dir.faults, dir.log, start)
      invariant forall n :: n in dir.names ==> n in old(dir.names)
    {
      ghost var before, logged, steps, known := dir.names, dir.history, dir.log, failures;
      if backups[i].None? {
        AllClearedNext(before, dir.names, failures, failures, dir.faults, steps, dir.log, start, backups, i);
        continue;
      }
      var removed, failed := DropOne(dir, backups[i].value);
      DropGrows(before, backups[i].value, base, made);
      DroppingGrows(logged, dir.history, from, before, backups[i].value, base, made);
      if failed {
        AllStuckSnoc(failures, dir.faults, steps, |steps|, dir.log, start, backups[i].value);
        failures := failures + [backups[i].value];
      } else {
        AllStuckLater(failures, dir.faults, steps, start, dir.log, start);
      }
      ClearedNow(dir.names, failures, dir.faults, dir.log, |steps|, start, backups[i].value, failed);
      AllClearedNext(before, dir.names, known, failures, dir.faults, steps, dir.log, start, backups, i);
    }
    ghost var steps := dir.log;
    AllGrowSnoc(dir.history, from, base, made, dir.names);
    var flushed := dir.Fsync();
    report := Report(failures, failures, noted, flushed.Some?);
    AllStuckLater(failures, dir.faults, steps, start, dir.log, start);
    AllStuckLater(noted, dir.faults, old(dir.log), start, dir.log, start);
    AllClearedLater(dir.names, dir.names, failures, failures, dir.faults, steps, dir.log, start, start, backups,
                    |backups|);
    AllAccounted(old(dir.names), dir.names, base, backups, report, dir.faults, old(dir.log), dir.log, start);
  }

  lemma NoneStuck(faults: nat -> Fault, log: seq<Operation>, from: nat)
    ensures AllStuck([], faults, log, from)
  {
  }

  lemma NothingCleared(names: Names, faults: nat -> Fault, log: seq<Operation>, from: nat, backups: seq<Option<Name>>)
    ensures AllCleared(names, [], faults, log, from, backups, 0)
  {
  }

  lemma ClearedNow(names: Names, artifacts: seq<Name>, faults: nat -> Fault, log: seq<Operation>, from: nat, start: nat,
                   backup: Name, failed: bool)
    requires start <= from && (failed ==> backup in artifacts)
    requires failed || Cleared(names, [], faults, log, from, backup)
    ensures Cleared(names, artifacts, faults, log, start, backup)
  {
    hide ProbeFailed;
    if ProbeFailed(faults, log, from, backup) { ProbeFailedLater(faults, log, from, log, start, backup); }
  }

  lemma AllClearedNext(names: Names, after: Names, artifacts: seq<Name>, more: seq<Name>, faults: nat -> Fault,
                       log: seq<Operation>, later: seq<Operation>, from: nat, backups: seq<Option<Name>>, m: nat)
    requires AllCleared(names, artifacts, faults, log, from, backups, m) && log <= later && m < |backups|
    requires (forall n :: n in after ==> n in names) && (forall n :: n in artifacts ==> n in more)
    requires backups[m].Some? ==> Cleared(after, more, faults, later, from, backups[m].value)
    ensures AllCleared(after, more, faults, later, from, backups, m + 1)
  {
    hide Cleared;
    AllClearedLater(names, after, artifacts, more, faults, log, later, from, from, backups, m);
  }

  lemma AllAccounted(names: Names, after: Names, base: Names, backups: seq<Option<Name>>, report: Report,
                     faults: nat -> Fault, log: seq<Operation>, later: seq<Operation>, from: nat)
    requires Pending(names, base, backups, report.noted, faults, log, from) && log <= later
    requires (forall n :: n in after ==> n in names)
    requires AllCleared(after, report.artifacts, faults, later, from, backups, |backups|)
    ensures Accounted(after, base, report, faults, later, from)
  {
    hide ProbeFailed, CreatedLate;
    forall n | n in after && n !in base && n !in report.noted && !CreatedLate(faults, later, from, n)
      ensures n in report.artifacts || ProbeFailed(faults, later, from, n) {
      if CreatedLate(faults, log, from, n) { CreatedLateLater(faults, log, from, later, from, n); }
      assert Some(n) in backups;
      var i :| 0 <= i < |backups| && backups[i] == Some(n);
      assert Cleared(after, report.artifacts, faults, later, from, backups[i].value);
    }
  }

  // ----- phase two: replacement

  predicate Mentioned(pairs: seq<Pair>, n: Name) {
    exists i :: 0 <= i < |pairs| && (n == pairs[i].destination || n == pairs[i].temporary)
  }

  /** Distinct destinations and temporaries, and temporaries whose inodes are their own. */
  ghost predicate Prepared(base: Names, pairs: seq<Pair>) {
    && (forall i, j :: 0 <= i < j < |pairs| ==>
          pairs[i].destination != pairs[j].destination && pairs[i].temporary != pairs[j].temporary)
    && (forall i, j :: 0 <= i < |pairs| && 0 <= j < |pairs| ==> pairs[i].destination != pairs[j].temporary)
    && (forall i, j :: 0 <= i < |pairs| && 0 <= j < |pairs| && pairs[i].temporary in base ==>
          Bound(base, pairs[j].destination) != Some(base[pairs[i].temporary]))
  }

  ghost predicate IsNew(names: Names, base: Names, pair: Pair) {
    pair.temporary in base && Bound(names, pair.destination) == Some(base[pair.temporary])
  }

  ghost predicate IsOriginal(names: Names, base: Names, pair: Pair) {
    Bound(names, pair.destination) == Bound(base, pair.destination)
  }

  /** Outside the pairs nothing changed. */
  ghost predicate RestSame(names: Names, base: Names, pairs: seq<Pair>) {
    forall n: Name :: !Mentioned(pairs, n) ==> Bound(names, n) == Bound(base, n)
  }

  /** Exactly the first `m` pairs are replaced, and nothing else changed. */
  ghost predicate Replaced(names: Names, base: Names, pairs: seq<Pair>, m: nat) {
    && m <= |pairs| && RestSame(names, base, pairs)
    && (forall i :: 0 <= i < m ==> IsNew(names, base, pairs[i]) && pairs[i].temporary !in names)
    && (forall i :: m <= i < |pairs| ==>
          IsOriginal(names, base, pairs[i]) && Bound(names, pairs[i].temporary) == Bound(base, pairs[i].temporary))
  }

  /** Some number of pairs up to `w` is replaced. */
  ghost predicate PartlyReplaced(names: Names, base: Names, pairs: seq<Pair>, w: nat) {
    exists m :: 0 <= m <= w && Replaced(names, base, pairs, m)
  }

  ghost predicate AllReplaced(history: seq<Names>, from: nat, base: Names, pairs: seq<Pair>, w: nat) {
    forall k :: from <= k < |history| ==> PartlyReplaced(history[k], base, pairs, w)
  }

  lemma AllReplacedSnoc(history: seq<Names>, from: nat, base: Names, pairs: seq<Pair>, names: Names, m: nat, w: nat)
    requires AllReplaced(history, from, base, pairs, m) && m <= w && Replaced(names, base, pairs, w)
    ensures AllReplaced(history + [names], from, base, pairs, w)
  {
    hide Replaced;
    forall k | from <= k < |history + [names]| ensures PartlyReplaced((history + [names])[k], base, pairs, w) {
      if k < |history| {
        assert PartlyReplaced(history[k], base, pairs, m);
        assert (history + [names])[k] == history[k];
      } else {
        assert (history + [names])[k] == names;
      }
    }
  }

  /** Replacing pair `m` moves it exactly when the step is not failed before its effect. */
  lemma ReplaceStep(names: Names, base: Names, pairs: seq<Pair>, m: nat, fault: Fault)
    requires Prepared(base, pairs) && Replaced(names, base, pairs, m) && m < |pairs| && pairs[m].temporary in base
    ensures var after := Attempt(names, ReplaceEffect(names, pairs[m].temporary, pairs[m].destination), fault);
            && (if fault.FailBefore? then after.0 == names else Replaced(after.0, base, pairs, m + 1))
            && (after.1.None? <==> fault.Proceed?)
  {
    var after := Attempt(names, ReplaceEffect(names, pairs[m].temporary, pairs[m].destination), fault);
    assert IsOriginal(names, base, pairs[m]);
    if !fault.FailBefore? {
      assert after.0 == names[pairs[m].destination := names[pairs[m].temporary]] - {pairs[m].temporary};
      forall n: Name | !Mentioned(pairs, n) ensures Bound(after.0, n) == Bound(base, n) {
        assert n != pairs[m].destination && n != pairs[m].temporary;
        assert Bound(names, n) == Bound(base, n);
      }
      forall i | 0 <= i < |pairs| && i != m
        ensures Bound(after.0, pairs[i].destination) == Bound(names, pairs[i].destination)
        ensures Bound(after.0, pairs[i].temporary) == Bound(names, pairs[i].temporary) {
        assert pairs[i].destination != pairs[m].destination && pairs[i].temporary != pairs[m].temporary;
        assert pairs[i].destination != pairs[m].temporary && pairs[m].destination != pairs[i].temporary;
      }
    }
  }

  datatype Tried = Tried(destination: Name, identity: nat)

  ghost predicate TriedPrefix(tried: seq<Tried>, base: Names, pairs: seq<Pair>) {
    && |tried| <= |pairs|
    && forall i :: 0 <= i < |tried| ==>
         && tried[i].destination == pairs[i].destination
         && Bound(base, pairs[i].temporary) == Some(tried[i].identity)
  }

  /** `tries[i]` is the step that renamed temporary `i` over its destination, in order and before step `to`. The first
      `moved` of them took effect: those that were not failed before it. */
  ghost predicate Attempted(faults: nat -> Fault, log: seq<Operation>, from: nat, to: nat, pairs: seq<Pair>,
                            tries: seq<nat>, moved: nat) {
    && moved <= |tries| <= |pairs| && to <= |log|
    && (forall i :: 0 <= i < |tries| ==>
          && from <= tries[i] < to && log[tries[i]] == Rename(pairs[i].temporary, pairs[i].destination)
          && (i < moved <==> !faults(tries[i]).FailBefore?))
    && (forall i, j :: 0 <= i < j < |tries| ==> tries[i] < tries[j])
  }

  lemma AttemptedSnoc(faults: nat -> Fault, log: seq<Operation>, later: seq<Operation>, from: nat, pairs: seq<Pair>,
                      tries: seq<nat>)
    requires Attempted(faults, log, from, |log|, pairs, tries, |tries|) && log <= later && |tries| < |pairs|
    requires from <= |log| < |later|
    requires later[|log|] == Rename(pairs[|tries|].temporary, pairs[|tries|].destination)
    ensures Attempted(faults, later, from, |later|, pairs, tries + [|log|],
                      if faults(|log|).FailBefore? then |tries| else |tries| + 1)
  {
  }

  lemma AttemptedLater(faults: nat -> Fault, log: seq<Operation>, later: seq<Operation>, from: nat, pairs: seq<Pair>,
                       tries: seq<nat>, moved: nat)
    requires Attempted(faults, log, from, |log|, pairs, tries, moved) && log <= later
    ensures Attempted(faults, later, from, |log|, pairs, tries, moved)
    ensures Attempted(faults, later, from, |later|, pairs, tries, moved)
  {
  }

  /** Some temporary was not there. */
  predicate TemporaryMissing(base: Names, pairs: seq<Pair>) {
    exists i :: 0 <= i < |pairs| && pairs[i].temporary !in base
  }

  /** Move every temporary over its destination and flush the directory. */
  method ReplaceAll(dir: Directory, pairs: seq<Pair>)
    returns (tried: seq<Tried>, done: bool, ghost tries: seq<nat>, ghost moved: nat)
    requires dir.Valid() && Fresh(pairs, dir.made) && Prepared(dir.names, pairs)
    modifies dir
    ensures dir.Valid() && dir.Extends() && dir.made == old(dir.made)
    ensures TriedPrefix(tried, old(dir.names), pairs) && |tried| == |tries|
    ensures Attempted(dir.faults, dir.log, old(dir.step), dir.step, pairs, tries, moved)
    ensures Replaced(dir.names, old(dir.names), pairs, moved)
    ensures AllReplaced(dir.history, |old(dir.history)|, old(dir.names), pairs, moved)
    ensures done ==> moved == |pairs|
    ensures !done ==> StepFailed(dir.faults, dir.log, old(dir.step)) || TemporaryMissing(old(dir.names), pairs)
  {
    hide Prepared, Replaced, AllReplaced, Attempted, WellBound, Traced, InodesBelow;
    ghost var base, from, start := dir.names, |dir.history|, dir.step;
    NothingReplaced(base, pairs, dir.history, dir.faults, dir.log);
    tried, tries, moved := [], [], 0;
    for i := 0 to |pairs|
      invariant |tried| == i == |tries| == moved && TriedPrefix(tried, base, pairs)
      invariant dir.Valid() && dir.Extends() && dir.made == old(dir.made)
      invariant Attempted(dir.faults, dir.log, start, |dir.log|, pairs, tries, moved)
      invariant Replaced(dir.names, base, pairs, i) && AllReplaced(dir.history, from, base, pairs, i)
    {
      ghost var steps := dir.log;
      AllReplacedSnoc(dir.history, from, base, pairs, dir.names, i, i);
      TemporaryStays(dir.names, base, pairs, i);
      var identity := dir.Lstat(pairs[i].temporary);
      AttemptedLater(dir.faults, steps, dir.log, start, pairs, tries, moved);
      if identity.Err? {
        assert !dir.log[|steps|].Exists?;
        return tried, false, tries, moved;
      }
      tried := tried + [Tried(pairs[i].destination, identity.value)];
      ReplaceStep(dir.names, base, pairs, i, dir.faults(dir.step));
      ghost var before, logged, renaming := dir.names, dir.history, dir.log;
      var error := dir.Replace(pairs[i].temporary, pairs[i].destination);
      AttemptedSnoc(dir.faults, renaming, dir.log, start, pairs, tries);
      tries := tries + [|renaming|];
      moved := if dir.faults(|renaming|).FailBefore? then i else i + 1;
      AllReplacedSnoc(logged, from, base, pairs, dir.names, i, moved);
      if error.Some? {
        assert !dir.log[|renaming|].Exists?;
        return tried, false, tries, moved;
      }
    }
    if pairs == [] { return tried, true, tries, moved; }
    ghost var steps := dir.log;
    AllReplacedSnoc(dir.history, from, base, pairs, dir.names, |pairs|, |pairs|);
    var flushed := dir.Fsync();
    AttemptedLater(dir.faults, steps, dir.log, start, pairs, tries, moved);
    assert !dir.log[|steps|].Exists?;
    return tried, flushed.None?, tries, moved;
  }

  lemma NothingReplaced(base: Names, pairs: seq<Pair>, history: seq<Names>, faults: nat -> Fault, log: seq<Operation>)
    ensures Replaced(base, base, pairs, 0) && AllReplaced(history, |history|, base, pairs, 0)
    ensures Attempted(faults, log, |log|, |log|, pairs, [], 0)
  {
  }

  lemma TemporaryStays(names: Names, base: Names, pairs: seq<Pair>, m: nat)
    requires Replaced(names, base, pairs, m) && m < |pairs|
    ensures Bound(names, pairs[m].temporary) == Bound(base, pairs[m].temporary)
  {
  }

  // ----- rollback

  /** Backups are names of their own, one per destination. */
  predicate Apart(pairs: seq<Pair>, backups: seq<Option<Name>>) {
    && |backups| == |pairs|
    && (forall i, j :: 0 <= i < j < |pairs| ==> pairs[i].destination != pairs[j].destination)
    && (forall i, j :: 0 <= i < j < |pairs| && backups[i].Some? ==> backups[i] != backups[j])
    && (forall i, j :: 0 <= i < |pairs| && 0 <= j < |pairs| && backups[i].Some? ==>
          backups[i].value != pairs[j].destination && backups[i].value != pairs[j].temporary)
  }

  /** The original inode of a destination is bound to it or to its backup. */
  ghost predicate PairHeld(names: Names, base: Names, pair: Pair, backup: Name) {
    && Bound(base, pair.destination).Some?
    && (IsOriginal(names, base, pair) || Bound(names, backup) == Bound(base, pair.destination))
  }

  /** Destinations with a backup hold their originals, and so do those without one that were not replaced. */
  ghost predicate Held(names: Names, base: Names, pairs: seq<Pair>, backups: seq<Option<Name>>, moved: nat)
    requires |backups| == |pairs|
  {
    forall i :: 0 <= i < |pairs| ==>
      match backups[i]
      case Some(b) => PairHeld(names, base, pairs[i], b)
      case None => i < moved || IsOriginal(names, base, pairs[i])
  }

  ghost predicate AllHeld(history: seq<Names>, from: nat, base: Names, pairs: seq<Pair>, backups: seq<Option<Name>>,
                          moved: nat)
    requires |backups| == |pairs|
  {
    forall k :: from <= k < |history| ==> Held(history[k], base, pairs, backups, moved)
  }

  lemma AllHeldSnoc(history: seq<Names>, from: nat, base: Names, pairs: seq<Pair>, backups: seq<Option<Name>>,
                    moved: nat, names: Names)
    requires |backups| == |pairs| && AllHeld(history, from, base, pairs, backups, moved)
    requires Held(names, base, pairs, backups, moved)
    ensures AllHeld(history + [names], from, base, pairs, backups, moved)
  {
    hide Held;
  }

  /** Where the rollback of one pair stands: `left` is its remaining backup, `taken` says that the pair was replaced,
      and `pending` that it is still to be visited. */
  ghost predicate Status(names: Names, base: Names, pair: Pair, backup: Option<Name>, left: Option<Name>,
                         failed: set<Name>, artifacts: set<Name>, taken: bool, pending: bool) {
    match backup
    case Some(b) =>
      && Bound(base, pair.destination).Some?
      && (left.None? ==> IsOriginal(names, base, pair) && b !in names)
      && (left.Some? ==> left == backup)
      && (left.Some? && b in failed ==> b in artifacts && PairHeld(names, base, pair, b))
      && (left.Some? && b !in failed ==>
            && Bound(names, b) == Bound(base, pair.destination)
            && (IsOriginal(names, base, pair) || (pending && IsNew(names, base, pair))))
    case None =>
      && left.None?
      && (if !taken then IsOriginal(names, base, pair)
          else if pending then IsNew(names, base, pair)
          else Undone(names, base, pair, artifacts))
  }

  /** The published file was removed, or is still there and reported. */
  ghost predicate Undone(names: Names, base: Names, pair: Pair, artifacts: set<Name>) {
    pair.destination !in names || (pair.destination in artifacts && IsNew(names, base, pair))
  }

  /** `left`, `failed` and `artifacts` as the rollback updates them. */
  datatype Undo = Undo(left: seq<Option<Name>>, failed: set<Name>, failures: seq<Name>, artifacts: seq<Name>)

  ghost predicate AllStatus(names: Names, base: Names, pairs: seq<Pair>, backups: seq<Option<Name>>, undo: Undo,
                            moved: nat, visited: nat) {
    && |backups| == |pairs| == |undo.left|
    && forall i :: 0 <= i < |pairs| ==>
         Status(names, base, pairs[i], backups[i], undo.left[i], undo.failed, SetOf(undo.artifacts), i < moved,
                i < visited)
  }

  lemma StatusHeld(names: Names, base: Names, pairs: seq<Pair>, backups: seq<Option<Name>>, undo: Undo, moved: nat,
                   visited: nat)
    requires AllStatus(names, base, pairs, backups, undo, moved, visited)
    ensures Held(names, base, pairs, backups, moved)
  {
    forall i | 0 <= i < |pairs|
      ensures backups[i].Some? ==> PairHeld(names, base, pairs[i], backups[i].value)
      ensures backups[i].None? && i >= moved ==> IsOriginal(names, base, pairs[i]) {
      assert Status(names, base, pairs[i], backups[i], undo.left[i], undo.failed, SetOf(undo.artifacts), i < moved,
                    i < visited);
    }
  }

  /** Only the names of pair `k` changed. */
  ghost predicate OnlyPair(names: Names, before: Names, pair: Pair, backup: Option<Name>) {
    forall n: Name :: n != pair.destination && Some(n) != backup ==> Bound(names, n) == Bound(before, n)
  }

  /** A step on one pair leaves the status of the others. */
  lemma OtherStatus(names: Names, before: Names, base: Names, pairs: seq<Pair>, backups: seq<Option<Name>>, undo: Undo,
                    moved: nat, k: nat, after: Undo)
    requires Apart(pairs, backups) && AllStatus(before, base, pairs, backups, undo, moved, k + 1) && k < |pairs|
    requires OnlyPair(names, before, pairs[k], backups[k])
    requires |after.left| == |undo.left| && (forall i :: 0 <= i < |pairs| && i != k ==> after.left[i] == undo.left[i])
    requires undo.failed <= after.failed
    requires after.failed <= undo.failed + (if backups[k].Some? then {backups[k].value} else {})
    requires SetOf(undo.artifacts) <= SetOf(after.artifacts)
    requires Status(names, base, pairs[k], backups[k], after.left[k], after.failed, SetOf(after.artifacts), k < moved,
                    false)
    ensures AllStatus(names, base, pairs, backups, after, moved, k)
  {
    forall i | 0 <= i < |pairs|
      ensures Status(names, base, pairs[i], backups[i], after.left[i], after.failed, SetOf(after.artifacts), i < moved,
                     i < k) {
      assert Status(before, base, pairs[i], backups[i], undo.left[i], undo.failed, SetOf(undo.artifacts), i < moved,
                    i < k + 1);
      if i != k {
        assert pairs[i].destination != pairs[k].destination;
        assert Bound(names, pairs[i].destination) == Bound(before, pairs[i].destination);
        if backups[i].Some? {
          assert backups[i] != backups[k] && backups[i].value != pairs[k].destination;
          assert Bound(names, backups[i].value) == Bound(before, backups[i].value);
        }
      }
    }
  }

  datatype Restored = Moved | Untouched | Changed | Failed

  /** Every new state changed only this pair and kept its original reachable. */
  ghost predicate LocallyHeld(history: seq<Names>, from: nat, before: Names, base: Names, pair: Pair, backup: Name) {
    forall k :: from <= k < |history| ==>
      OnlyPair(history[k], before, pair, Some(backup)) && PairHeld(history[k], base, pair, backup)
  }

  /** Put the original of one destination back from its backup, unless it is still there. */
  method RestoreFromBackup(dir: Directory, tried: Tried, backup: Name, ghost base: Names, ghost pair: Pair)
    returns (r: Restored)
    requires dir.Valid() && (tried.destination.Made? ==> tried.destination.id < dir.made)
    requires backup != tried.destination
    requires tried.destination == pair.destination && Bound(base, pair.temporary) == Some(tried.identity)
    requires Bound(base, pair.destination) != Some(tried.identity)
    requires Bound(base, pair.destination).Some? && Bound(dir.names, backup) == Bound(base, pair.destination)
    requires IsOriginal(dir.names, base, pair) || IsNew(dir.names, base, pair)
    modifies dir
    ensures dir.Valid() && dir.Extends() && dir.made == old(dir.made)
    ensures LocallyHeld(dir.history, |old(dir.history)|, old(dir.names), base, pair, backup)
    ensures OnlyPair(dir.names, old(dir.names), pair, Some(backup)) && PairHeld(dir.names, base, pair, backup)
    ensures r.Failed? ==> StepFailed(dir.faults, dir.log, old(dir.step))
    ensures r.Moved? ==> IsOriginal(dir.names, base, pair) && backup !in dir.names
    ensures r.Untouched? ==> dir.names == old(dir.names) && IsOriginal(dir.names, base, pair)
    ensures !r.Changed?
  {
    hide WellBound, Traced, InodesBelow;
    var saved := dir.Lstat(backup);
    assert !dir.log[old(dir.step)].Exists?;
    if saved.Err? { return Failed; }
    var current := dir.Lstat(tried.destination);
    assert !dir.log[old(dir.step) + 1].Exists?;
    if current == Err(Faulted) { return Failed; }
    if current == Ok(tried.identity) || current == Err(NotFound) {
      var error := dir.Replace(backup, tried.destination);
      assert !dir.log[old(dir.step) + 2].Exists?;
      return if error.Some? then Failed else Moved;
    }
    return if current.Ok? && current.value != saved.value then Changed else Untouched;
  }

  /** Every new state changed only this pair, and nothing at all unless it was replaced. */
  ghost predicate LocallyChanged(history: seq<Names>, from: nat, before: Names, base: Names, pair: Pair) {
    forall k :: from <= k < |history| ==>
      OnlyPair(history[k], before, pair, None) && (IsNew(before, base, pair) || history[k] == before)
  }

  /** Remove a destination that has no backup, if it is the file that was published. */
  method RemovePublished(dir: Directory, tried: Tried, ghost base: Names, ghost pair: Pair) returns (failed: bool)
    requires dir.Valid() && tried.destination == pair.destination
    requires Bound(base, pair.temporary) == Some(tried.identity)
    requires IsOriginal(dir.names, base, pair) || IsNew(dir.names, base, pair)
    modifies dir
    ensures dir.Valid() && dir.Extends() && dir.made == old(dir.made)
    ensures LocallyChanged(dir.history, |old(dir.history)|, old(dir.names), base, pair)
    ensures OnlyPair(dir.names, old(dir.names), pair, None)
    ensures failed ==> StepFailed(dir.faults, dir.log, old(dir.step))
    ensures failed ==> TouchFailed(dir.faults, dir.log, old(dir.step), pair.destination)
    ensures failed || pair.destination !in dir.names || !IsNew(old(dir.names), base, pair)
    ensures failed || pair.destination !in dir.names || IsOriginal(dir.names, base, pair)
    ensures || dir.names == old(dir.names)
            || (IsNew(old(dir.names), base, pair) && dir.names == old(dir.names) - {pair.destination})
  {
    hide WellBound, Traced, InodesBelow;
    var current := dir.Lstat(tried.destination);
    if current == Err(NotFound) { return false; }
    assert dir.log[old(dir.step)] == Stat(pair.destination);
    if current.Err? { return true; }
    if current.value != tried.identity { return false; }
    var error := dir.Unlink(tried.destination);
    assert dir.log[old(dir.step) + 1] == Remove(pair.destination);
    return error.Some? && error != Some(NotFound);
  }

  lemma LiftHeld(names: Names, before: Names, base: Names, pairs: seq<Pair>, backups: seq<Option<Name>>, moved: nat,
                 k: nat)
    requires Apart(pairs, backups) && k < |pairs| && Held(before, base, pairs, backups, moved)
    requires OnlyPair(names, before, pairs[k], backups[k])
    requires backups[k].Some? ==> PairHeld(names, base, pairs[k], backups[k].value)
    requires backups[k].None? && k >= moved ==> names == before
    ensures Held(names, base, pairs, backups, moved)
  {
    forall i | 0 <= i < |pairs| && i != k
      ensures Bound(names, pairs[i].destination) == Bound(before, pairs[i].destination)
      ensures backups[i].Some? ==> Bound(names, backups[i].value) == Bound(before, backups[i].value) {
      assert pairs[i].destination != pairs[k].destination && (backups[i].Some? ==> backups[i] != backups[k]);
      assert backups[k].Some? ==> backups[k].value != pairs[i].destination;
    }
  }

  /** The states of one pair's step are held for all pairs. */
  lemma LiftHistory(logged: seq<Names>, history: seq<Names>, from: nat, before: Names, base: Names, pairs: seq<Pair>,
                    backups: seq<Option<Name>>, moved: nat, k: nat)
    requires Apart(pairs, backups) && k < |pairs| && from <= |logged| && logged <= history
    requires AllHeld(logged, from, base, pairs, backups, moved) && Held(before, base, pairs, backups, moved)
    requires match backups[k]
             case Some(b) => LocallyHeld(history, |logged|, before, base, pairs[k], b)
             case None => LocallyChanged(history, |logged|, before, base, pairs[k])
    requires backups[k].None? && k >= moved ==> !IsNew(before, base, pairs[k])
    ensures AllHeld(history, from, base, pairs, backups, moved)
  {
    hide Held, PairHeld, OnlyPair, IsNew;
    assert |backups| == |pairs|;
    forall j | from <= j < |history| ensures Held(history[j], base, pairs, backups, moved) {
      if j < |logged| {
        assert history[j] == logged[j];
      } else {
        LiftHeld(history[j], before, base, pairs, backups, moved, k);
      }
    }
  }

  /** Before the rollback the replaced pairs are new, the others original, and every backup is in place. */
  lemma StartStatus(names: Names, base: Names, pairs: seq<Pair>, backups: seq<Option<Name>>, moved: nat, m: nat)
    requires Apart(pairs, backups) && Replaced(names, base, pairs, moved) && moved <= m
    requires BackupsBound(base, pairs, backups)
    ensures AllStatus(names, base, pairs, backups, Undo(backups, {}, [], []), moved, m)
  {
    forall i | 0 <= i < |pairs| && backups[i].Some?
      ensures Bound(names, backups[i].value) == Bound(base, pairs[i].destination) {
      assert !Mentioned(pairs, backups[i].value);
    }
  }

  /** Every backup is bound to the inode of its own destination. */
  ghost predicate BackupsBound(base: Names, pairs: seq<Pair>, backups: seq<Option<Name>>) {
    && |backups| == |pairs|
    && forall i :: 0 <= i < |pairs| && backups[i].Some? ==>
         && Bound(base, pairs[i].destination).Some?
         && Bound(base, backups[i].value) == Bound(base, pairs[i].destination)
  }

  function Resolved(undo: Undo, k: nat, destination: Name, backup: Name, r: Restored): Undo
    requires k < |undo.left|
  {
    match r
    case Moved => undo.(left := undo.left[k := None])
    case Untouched => undo
    case Changed =>
      undo.(failed := undo.failed + {backup}, failures := undo.failures + [destination],
            artifacts := undo.artifacts + [backup])
    case Failed =>
      undo.(failed := undo.failed + {backup}, failures := undo.failures + [backup],
            artifacts := undo.artifacts + [backup])
  }

  /** Undo one attempted replacement. */
  method UndoOne(dir: Directory, pairs: seq<Pair>, tried: seq<Tried>, backups: seq<Option<Name>>, k: nat, undo: Undo,
                 ghost base: Names, ghost from: nat, ghost moved: nat) returns (after: Undo)
    requires dir.Valid() && Fresh(pairs, dir.made) && Prepared(base, pairs) && Apart(pairs, backups)
    requires TriedPrefix(tried, base, pairs) && k < |tried|
    requires AllStatus(dir.names, base, pairs, backups, undo, moved, k + 1) && undo.left[k] == backups[k]
    requires backups[k].Some? ==> backups[k].value !in undo.failed
    requires pairs[k].destination !in undo.artifacts
    requires from <= |dir.history| && AllHeld(dir.history, from, base, pairs, backups, moved)
    modifies dir
    ensures dir.Valid() && dir.Extends() && dir.made == old(dir.made)
    ensures AllHeld(dir.history, from, base, pairs, backups, moved)
    ensures AllStatus(dir.names, base, pairs, backups, after, moved, k)
    ensures forall i :: 0 <= i < k ==> after.left[i] == undo.left[i]
    ensures after.failed <= undo.failed + (if backups[k].Some? then {backups[k].value} else {})
    ensures forall n :: n in after.artifacts ==>
              n in undo.artifacts || Some(n) == backups[k] || n == pairs[k].destination
    ensures after.artifacts == undo.artifacts || StepFailed(dir.faults, dir.log, old(dir.step))
  {
    hide AllHeld, WellBound, Traced, InodesBelow, Held, LocallyHeld, LocallyChanged, OnlyPair, Fresh, Apart, Prepared;
    hide StepFailed, TouchFailed;
    ghost var before, logged := dir.names, dir.history;
    StatusHeld(before, base, pairs, backups, undo, moved, k + 1);
    assert Status(before, base, pairs[k], backups[k], undo.left[k], undo.failed, SetOf(undo.artifacts), k < moved,
                  true);
    assert tried[k].destination == pairs[k].destination;
    KnownName(pairs, backups, base, k, dir.made);
    match backups[k] {
      case Some(b) =>
        var r := RestoreFromBackup(dir, tried[k], b, base, pairs[k]);
        after := Resolved(undo, k, tried[k].destination, b, r);
        ResolvedStatus(dir.names, before, base, pairs[k], b, undo, k, tried[k].destination, k < moved, r);
      case None =>
        var failed := RemovePublished(dir, tried[k], base, pairs[k]);
        var d := tried[k].destination;
        after := if failed then undo.(failures := undo.failures + [d], artifacts := undo.artifacts + [d]) else undo;
        assert failed ==> d in after.artifacts && d in SetOf(after.artifacts);
        assert SetOf(undo.artifacts) <= SetOf(after.artifacts);
    }
    LiftHistory(logged, dir.history, from, before, base, pairs, backups, moved, k);
    OtherStatus(dir.names, before, base, pairs, backups, undo, moved, k, after);
  }

  lemma KnownName(pairs: seq<Pair>, backups: seq<Option<Name>>, base: Names, k: nat, made: nat)
    requires Fresh(pairs, made) && Apart(pairs, backups) && Prepared(base, pairs) && k < |pairs|
    ensures pairs[k].destination.Made? ==> pairs[k].destination.id < made
    ensures backups[k].Some? ==> backups[k].value != pairs[k].destination
    ensures pairs[k].temporary in base ==> Bound(base, pairs[k].destination) != Some(base[pairs[k].temporary])
  {
  }

  lemma ResolvedStatus(names: Names, before: Names, base: Names, pair: Pair, b: Name, undo: Undo, k: nat,
                       destination: Name, taken: bool, r: Restored)
    requires k < |undo.left| && undo.left[k] == Some(b) && b !in undo.failed && Bound(base, pair.destination).Some?
    requires Bound(before, b) == Bound(base, pair.destination) && PairHeld(names, base, pair, b) && !r.Changed?
    requires r.Moved? ==> IsOriginal(names, base, pair) && b !in names
    requires r.Untouched? ==> names == before && IsOriginal(names, base, pair)
    ensures var after := Resolved(undo, k, destination, b, r);
            && Status(names, base, pair, Some(b), after.left[k], after.failed, SetOf(after.artifacts), taken, false)
            && SetOf(undo.artifacts) <= SetOf(after.artifacts)
  {
    var after := Resolved(undo, k, destination, b, r);
    assert forall n :: n in undo.artifacts ==> n in after.artifacts;
    if r.Failed? { assert b in after.artifacts; }
  }

  /** Pairs not yet visited are as the failed replacement left them. */
  predicate Unvisited(pairs: seq<Pair>, backups: seq<Option<Name>>, undo: Undo, k: nat) {
    && |undo.left| == |backups| == |pairs| && k <= |pairs|
    && forall i :: 0 <= i < k ==>
         && undo.left[i] == backups[i] && pairs[i].destination !in undo.artifacts
         && (backups[i].Some? ==> backups[i].value !in undo.failed)
  }

  lemma VisitedOne(pairs: seq<Pair>, backups: seq<Option<Name>>, undo: Undo, after: Undo, k: nat)
    requires Apart(pairs, backups) && Unvisited(pairs, backups, undo, k + 1) && |after.left| == |pairs|
    requires forall i :: 0 <= i < k ==> after.left[i] == undo.left[i]
    requires after.failed <= undo.failed + (if backups[k].Some? then {backups[k].value} else {})
    requires forall n :: n in after.artifacts ==>
               n in undo.artifacts || Some(n) == backups[k] || n == pairs[k].destination
    ensures Unvisited(pairs, backups, after, k)
  {
    forall i | 0 <= i < k
      ensures pairs[i].destination !in after.artifacts
      ensures backups[i].Some? ==> backups[i].value !in after.failed {
      assert pairs[i].destination != pairs[k].destination;
      assert backups[i].Some? ==> backups[i] != backups[k];
    }
  }

  /** With a backup, the original is back, or its backup still holds it and is reported. Without one, a pair that was
      not replaced has its original, and a replaced one was removed or is reported. */
  ghost predicate Settled(names: Names, base: Names, pair: Pair, backup: Option<Name>, artifacts: seq<Name>,
                          taken: bool) {
    match backup
    case Some(b) =>
      && Bound(base, pair.destination).Some?
      && (IsOriginal(names, base, pair) || (Bound(names, b) == Bound(base, pair.destination) && b in artifacts))
    case None =>
      if taken then Undone(names, base, pair, SetOf(artifacts)) else IsOriginal(names, base, pair)
  }

  ghost predicate AllSettled(names: Names, base: Names, pairs: seq<Pair>, backups: seq<Option<Name>>,
                             artifacts: seq<Name>, moved: nat) {
    && |backups| == |pairs|
    && forall i :: 0 <= i < |pairs| ==> Settled(names, base, pairs[i], backups[i], artifacts, i < moved)
  }

  /** A remaining backup that no failed restore needs belongs to a destination that has its original. */
  ghost predicate Spare(names: Names, base: Names, pairs: seq<Pair>, undo: Undo) {
    && |undo.left| == |pairs|
    && forall i :: 0 <= i < |pairs| && undo.left[i].Some? && undo.left[i].value !in undo.failed ==>
         IsOriginal(names, base, pairs[i])
  }

  /** A backup was moved back and is gone, or is reported, or is still to be dropped. */
  ghost predicate Leftovers(names: Names, backups: seq<Option<Name>>, undo: Undo, artifacts: seq<Name>) {
    && |undo.left| == |backups|
    && forall i :: 0 <= i < |backups| && backups[i].Some? ==>
         && (undo.left[i].None? ==> backups[i].value !in names)
         && (undo.left[i].Some? ==> undo.left[i] == backups[i])
         && (undo.left[i].Some? && backups[i].value in undo.failed ==> backups[i].value in artifacts)
  }

  lemma StatusSettles(names: Names, base: Names, pairs: seq<Pair>, backups: seq<Option<Name>>, undo: Undo, moved: nat)
    requires AllStatus(names, base, pairs, backups, undo, moved, 0)
    ensures AllSettled(names, base, pairs, backups, undo.artifacts, moved) && Spare(names, base, pairs, undo)
    ensures Leftovers(names, backups, undo, undo.artifacts)
    ensures forall i :: 0 <= i < |pairs| && undo.left[i].Some? ==> undo.left[i] == backups[i]
  {
    forall i | 0 <= i < |pairs|
      ensures Settled(names, base, pairs[i], backups[i], undo.artifacts, i < moved)
      ensures undo.left[i].Some? ==> undo.left[i] == backups[i]
      ensures undo.left[i].Some? && undo.left[i].value !in undo.failed ==> IsOriginal(names, base, pairs[i])
      ensures backups[i].Some? && undo.left[i].None? ==> backups[i].value !in names
      ensures undo.left[i].Some? && backups[i].value in undo.failed ==> backups[i].value in undo.artifacts {
      assert Status(names, base, pairs[i], backups[i], undo.left[i], undo.failed, SetOf(undo.artifacts), i < moved,
                    false);
    }
  }

  /** Removing a spare backup settles nothing anew and unsettles nothing. */
  lemma DropSpare(names: Names, after: Names, base: Names, pairs: seq<Pair>, backups: seq<Option<Name>>, undo: Undo,
                  i: nat, artifacts: seq<Name>, more: seq<Name>, moved: nat)
    requires Apart(pairs, backups) && AllSettled(names, base, pairs, backups, artifacts, moved)
    requires Spare(names, base, pairs, undo) && Held(names, base, pairs, backups, moved)
    requires i < |pairs| && undo.left[i].Some? && undo.left[i] == backups[i] && undo.left[i].value !in undo.failed
    requires after == names || after == names - {undo.left[i].value}
    requires forall n :: n in artifacts ==> n in more
    ensures AllSettled(after, base, pairs, backups, more, moved) && Spare(after, base, pairs, undo)
    ensures Held(after, base, pairs, backups, moved)
  {
    var b := backups[i].value;
    forall j | 0 <= j < |pairs|
      ensures Bound(after, pairs[j].destination) == Bound(names, pairs[j].destination)
      ensures j != i && backups[j].Some? ==> Bound(after, backups[j].value) == Bound(names, backups[j].value) {
      assert b != pairs[j].destination;
      assert j != i && backups[j].Some? ==> backups[j] != backups[i];
    }
    forall j | 0 <= j < |pairs| ensures Settled(after, base, pairs[j], backups[j], more, j < moved) {
      assert Settled(names, base, pairs[j], backups[j], artifacts, j < moved);
    }
    forall j | 0 <= j < |pairs| && backups[j].Some? ensures PairHeld(after, base, pairs[j], backups[j].value) {
      assert PairHeld(names, base, pairs[j], backups[j].value);
    }
  }

  lemma DroppingHeld(logged: seq<Names>, history: seq<Names>, from: nat, before: Names, backup: Name, base: Names,
                     pairs: seq<Pair>, backups: seq<Option<Name>>, moved: nat)
    requires |backups| == |pairs| && logged <= history && from <= |logged|
    requires AllHeld(logged, from, base, pairs, backups, moved) && Dropping(history, |logged|, before, backup)
    requires Held(before, base, pairs, backups, moved) && Held(before - {backup}, base, pairs, backups, moved)
    ensures AllHeld(history, from, base, pairs, backups, moved)
  {
    hide Held;
    forall k | from <= k < |history| ensures Held(history[k], base, pairs, backups, moved) {
      if k < |logged| { assert history[k] == logged[k]; }
    }
  }

  /** Remove the backups that no failed restore needs. */
  method DropRemaining(dir: Directory, pairs: seq<Pair>, backups: seq<Option<Name>>, undo: Undo, ghost base: Names,
                       ghost from: nat, ghost moved: nat) returns (failures: seq<Name>, artifacts: seq<Name>)
    requires |backups| == |pairs| && dir.Valid() && Apart(pairs, backups)
    requires AllSettled(dir.names, base, pairs, backups, undo.artifacts, moved) && Spare(dir.names, base, pairs, undo)
    requires Held(dir.names, base, pairs, backups, moved)
    requires from <= |dir.history| && AllHeld(dir.history, from, base, pairs, backups, moved)
    requires forall i :: 0 <= i < |pairs| && undo.left[i].Some? ==> undo.left[i] == backups[i]
    requires Leftovers(dir.names, backups, undo, undo.artifacts)
    modifies dir
    ensures dir.Valid() && dir.Extends() && dir.made == old(dir.made)
    ensures AllHeld(dir.history, from, base, pairs, backups, moved)
    ensures AllSettled(dir.names, base, pairs, backups, artifacts, moved)
    ensures Held(dir.names, base, pairs, backups, moved)
    ensures AllCleared(dir.names, artifacts, dir.faults, dir.log, old(dir.step), backups, |backups|)
    ensures artifacts == undo.artifacts || StepFailed(dir.faults, dir.log, old(dir.step))
  {
    hide AllHeld, WellBound, Traced, InodesBelow, Held, AllSettled, Spare, Apart, AllCleared, Cleared, Dropping;
    hide StepFailed, Leftovers;
    failures, artifacts := undo.failures, undo.artifacts;
    ghost var start := dir.step;
    NothingCleared(dir.names, dir.faults, dir.log, start, backups);
    AllClearedLater(dir.names, dir.names, [], artifacts, dir.faults, dir.log, dir.log, start, start, backups, 0);
    for i := 0 to |pairs|
      invariant dir.Valid() && dir.Extends() && dir.made == old(dir.made)
      invariant AllHeld(dir.history, from, base, pairs, backups, moved)
      invariant AllSettled(dir.names, base, pairs, backups, artifacts, moved) && Spare(dir.names, base, pairs, undo)
      invariant Held(dir.names, base, pairs, backups, moved) && Leftovers(dir.names, backups, undo, artifacts)
      invariant AllCleared(dir.names, artifacts, dir.faults, dir.log, start, backups, i)
      invariant artifacts == undo.artifacts || StepFailed(dir.faults, dir.log, start)
    {
      ghost var before, logged, steps, known := dir.names, dir.history, dir.log, artifacts;
      SpareLength(dir.names, base, pairs, backups, undo);
      if undo.left[i].None? || undo.left[i].value in undo.failed {
        LeftoverCleared(dir.names, backups, undo, artifacts, i, dir.faults, dir.log, start);
        AllClearedNext(before, dir.names, known, artifacts, dir.faults, steps, dir.log, start, backups, i);
        continue;
      }
      var b := undo.left[i].value;
      var removed, failed := DropOne(dir, b);
      if failed {
        failures := failures + [b];
        artifacts := artifacts + [b];
      }
      StepFailedLater(dir.faults, steps, start, dir.log, start);
      StepFailedLater(dir.faults, dir.log, |steps|, dir.log, start);
      DropSpare(before, before - {b}, base, pairs, backups, undo, i, known, artifacts, moved);
      DropSpare(before, dir.names, base, pairs, backups, undo, i, known, artifacts, moved);
      DroppingHeld(logged, dir.history, from, before, b, base, pairs, backups, moved);
      LeftoversStay(before, dir.names, backups, undo, known, artifacts);
      ClearedNow(dir.names, artifacts, dir.faults, dir.log, |steps|, start, b, failed);
      AllClearedNext(before, dir.names, known, artifacts, dir.faults, steps, dir.log, start, backups, i);
    }
  }

  lemma LeftoverCleared(names: Names, backups: seq<Option<Name>>, undo: Undo, artifacts: seq<Name>, i: nat,
                        faults: nat -> Fault, log: seq<Operation>, from: nat)
    requires Leftovers(names, backups, undo, artifacts) && i < |backups|
    requires undo.left[i].None? || undo.left[i].value in undo.failed
    ensures backups[i].Some? ==> Cleared(names, artifacts, faults, log, from, backups[i].value)
  {
  }

  lemma LeftoversStay(names: Names, after: Names, backups: seq<Option<Name>>, undo: Undo, artifacts: seq<Name>,
                      more: seq<Name>)
    requires Leftovers(names, backups, undo, artifacts)
    requires (forall n :: n in after ==> n in names) && (forall n :: n in artifacts ==> n in more)
    ensures Leftovers(after, backups, undo, more)
  {
  }

  lemma SpareLength(names: Names, base: Names, pairs: seq<Pair>, backups: seq<Option<Name>>, undo: Undo)
    requires Spare(names, base, pairs, undo)
    ensures |undo.left| == |pairs|
  {
  }

  /** Undo the attempted replacements in reverse order, drop spare backups and flush the directory. */
  method Rollback(dir: Directory, pairs: seq<Pair>, tried: seq<Tried>, backups: seq<Option<Name>>, ghost base: Names,
                  ghost from: nat, ghost moved: nat) returns (report: Report)
    requires dir.Valid() && Fresh(pairs, dir.made) && Prepared(base, pairs) && Apart(pairs, backups)
    requires TriedPrefix(tried, base, pairs) && moved <= |tried|
    requires Replaced(dir.names, base, pairs, moved) && BackupsBound(base, pairs, backups)
    requires from <= |dir.history| && AllHeld(dir.history, from, base, pairs, backups, moved)
    modifies dir
    ensures dir.Valid() && dir.Extends()
    ensures AllHeld(dir.history, from, base, pairs, backups, moved)
    ensures AllSettled(dir.names, base, pairs, backups, report.artifacts, moved)
    ensures AllCleared(dir.names, report.artifacts, dir.faults, dir.log, old(dir.step), backups, |backups|)
    ensures report.artifacts != [] ==> StepFailed(dir.faults, dir.log, old(dir.step))
  {
    hide AllHeld, WellBound, Traced, InodesBelow, Held, AllSettled, Spare, AllStatus, Replaced, Prepared, Unvisited;
    hide AllCleared, Leftovers, BackupsBound, StepFailed;
    ghost var start := dir.step;
    StartStatus(dir.names, base, pairs, backups, moved, |tried|);
    var undo := Undo(backups, {}, [], []);
    NoneVisited(pairs, backups, |tried|);
    for k := |tried| downto 0
      invariant dir.Valid() && dir.Extends() && dir.made == old(dir.made)
      invariant AllHeld(dir.history, from, base, pairs, backups, moved)
      invariant AllStatus(dir.names, base, pairs, backups, undo, moved, k) && Unvisited(pairs, backups, undo, k)
      invariant undo.artifacts != [] ==> StepFailed(dir.faults, dir.log, start)
    {
      ghost var steps := dir.log;
      UnvisitedAt(pairs, backups, undo, k);
      var after := UndoOne(dir, pairs, tried, backups, k, undo, base, from, moved);
      StepFailedLater(dir.faults, steps, start, dir.log, start);
      StepFailedLater(dir.faults, dir.log, |steps|, dir.log, start);
      StatusLength(dir.names, base, pairs, backups, after, moved, k);
      VisitedOne(pairs, backups, undo, after, k);
      undo := after;
    }
    StatusSettles(dir.names, base, pairs, backups, undo, moved);
    StatusHeld(dir.names, base, pairs, backups, undo, moved, 0);
    ghost var undone := dir.log;
    var failures, artifacts := DropRemaining(dir, pairs, backups, undo, base, from, moved);
    ghost var steps := dir.log;
    StepFailedLater(dir.faults, undone, start, steps, start);
    StepFailedLater(dir.faults, steps, |undone|, steps, start);
    AllHeldSnoc(dir.history, from, base, pairs, backups, moved, dir.names);
    var flushed := dir.Fsync();
    StepFailedLater(dir.faults, steps, start, dir.log, start);
    AllClearedLater(dir.names, dir.names, artifacts, artifacts, dir.faults, steps, dir.log, |undone|, start, backups,
                    |backups|);
    return Report(failures, artifacts, [], flushed.Some?);
  }

  lemma NoneVisited(pairs: seq<Pair>, backups: seq<Option<Name>>, k: nat)
    requires |backups| == |pairs| && k <= |pairs|
    ensures Unvisited(pairs, backups, Undo(backups, {}, [], []), k)
  {
  }

  lemma UnvisitedAt(pairs: seq<Pair>, backups: seq<Option<Name>>, undo: Undo, k: nat)
    requires Unvisited(pairs, backups, undo, k + 1)
    ensures |undo.left| == |backups| == |pairs| && k < |pairs|
    ensures undo.left[k] == backups[k] && pairs[k].destination !in undo.artifacts
    ensures backups[k].Some? ==> backups[k].value !in undo.failed
    ensures forall i :: 0 <= i < k ==> undo.left[i] == backups[i]
  {
  }

  lemma StatusLength(names: Names, base: Names, pairs: seq<Pair>, backups: seq<Option<Name>>, undo: Undo, moved: nat,
                     k: nat)
    requires AllStatus(names, base, pairs, backups, undo, moved, k)
    ensures |backups| == |pairs| == |undo.left|
  {
  }

  // ----- forced publication

  ghost predicate AllNew(names: Names, base: Names, pairs: seq<Pair>) {
    forall i :: 0 <= i < |pairs| ==> IsNew(names, base, pairs[i])
  }

  lemma DropKeepsNew(names: Names, after: Names, base: Names, pairs: seq<Pair>, backups: seq<Option<Name>>, i: nat)
    requires Apart(pairs, backups) && AllNew(names, base, pairs) && i < |pairs| && backups[i].Some?
    requires after == names || after == names - {backups[i].value}
    ensures AllNew(after, base, pairs)
  {
    forall j | 0 <= j < |pairs| ensures IsNew(after, base, pairs[j]) {
      assert IsNew(names, base, pairs[j]) && backups[i].value != pairs[j].destination;
    }
  }

  /** The recovery artifacts that an outcome names. */
  function Artifacts(outcome: Outcome): seq<Name> { if outcome.Published? then [] else outcome.report.artifacts }

  /** After the commit point, remove the backups. */
  method ClearBackups(dir: Directory, pairs: seq<Pair>, backups: seq<Option<Name>>, ghost base: Names)
    returns (outcome: Outcome)
    requires |backups| == |pairs| && dir.Valid() && Apart(pairs, backups) && AllNew(dir.names, base, pairs)
    modifies dir
    ensures dir.Valid() && dir.Extends() && AllNew(dir.names, base, pairs)
    ensures outcome.Published? || outcome.Uncleaned?
    ensures AllCleared(dir.names, Artifacts(outcome), dir.faults, dir.log, old(dir.step), backups, |backups|)
    ensures AllStuck(Artifacts(outcome), dir.faults, dir.log, old(dir.step))
    ensures outcome.Uncleaned? ==> StepFailed(dir.faults, dir.log, old(dir.step))
  {
    hide AllNew, WellBound, Traced, InodesBelow, Apart, AllCleared, Cleared, Dropping, StepFailed, AllStuck;
    var failures: seq<Name> := [];
    var any := false;
    ghost var start := dir.step;
    NothingCleared(dir.names, dir.faults, dir.log, start, backups);
    NoneStuck(dir.faults, dir.log, start);
    for i := 0 to |pairs|
      invariant dir.Valid() && dir.Extends() && AllNew(dir.names, base, pairs)
      invariant AllCleared(dir.names, failures, dir.faults, dir.log, start, backups, i)
      invariant AllStuck(failures, dir.faults, dir.log, start)
      invariant failures != [] ==> StepFailed(dir.faults, dir.log, start)
    {
      ghost var before, steps, known := dir.names, dir.log, failures;
      if backups[i].None? {
        AllClearedNext(before, dir.names, known, failures, dir.faults, steps, dir.log, start, backups, i);
        continue;
      }
      var removed, failed := DropOne(dir, backups[i].value);
      DropKeepsNew(before, dir.names, base, pairs, backups, i);
      if failed {
        AllStuckSnoc(failures, dir.faults, steps, |steps|, dir.log, start, backups[i].value);
        failures := failures + [backups[i].value];
      } else {
        AllStuckLater(failures, dir.faults, steps, start, dir.log, start);
      }
      any := any || removed;
      StepFailedLater(dir.faults, steps, start, dir.log, start);
      StepFailedLater(dir.faults, dir.log, |steps|, dir.log, start);
      ClearedNow(dir.names, failures, dir.faults, dir.log, |steps|, start, backups[i].value, failed);
      AllClearedNext(before, dir.names, known, failures, dir.faults, steps, dir.log, start, backups, i);
    }
    var unsynced := false;
    if pairs != [] && any {
      ghost var steps := dir.log;
      var flushed := dir.Fsync();
      unsynced := flushed.Some?;
      StepFailedLater(dir.faults, steps, start, dir.log, start);
      AllStuckLater(failures, dir.faults, steps, start, dir.log, start);
      if unsynced { FailedHere(dir.faults, dir.log, start, |steps|); }
      AllClearedLater(dir.names, dir.names, failures, failures, dir.faults, steps, dir.log, start, start, backups,
                      |backups|);
    }
    return if failures != [] || unsynced then Uncleaned(Report(failures, failures, [], unsynced)) else Published;
  }

  lemma FailedHere(faults: nat -> Fault, log: seq<Operation>, from: nat, s: nat)
    requires from <= s < |log| && !log[s].Exists? && !faults(s).Proceed?
    ensures StepFailed(faults, log, from)
  {
  }

  /** Judging by the names before the backups is the same, because they kept every binding. */
  lemma Rebase(names: Names, base: Names, first: Names, made: nat, pairs: seq<Pair>)
    requires Grows(base, first, made) && Fresh(pairs, made)
    ensures forall i :: 0 <= i < |pairs| ==> (IsNew(names, base, pairs[i]) <==> IsNew(names, first, pairs[i]))
    ensures forall i :: 0 <= i < |pairs| ==> (IsOriginal(names, base, pairs[i]) <==> IsOriginal(names, first, pairs[i]))
    ensures forall i :: 0 <= i < |pairs| ==> Bound(base, pairs[i].destination) == Bound(first, pairs[i].destination)
  {
    forall i | 0 <= i < |pairs|
      ensures Bound(base, pairs[i].destination) == Bound(first, pairs[i].destination)
              && Bound(base, pairs[i].temporary) == Bound(first, pairs[i].temporary) {
      DestinationStays(base, first, made, pairs, i);
    }
  }

  lemma RebaseSettled(names: Names, base: Names, first: Names, made: nat, pairs: seq<Pair>,
                      backups: seq<Option<Name>>, artifacts: seq<Name>, moved: nat)
    requires Grows(base, first, made) && Fresh(pairs, made)
    requires AllSettled(names, base, pairs, backups, artifacts, moved)
    ensures AllSettled(names, first, pairs, backups, artifacts, moved)
  {
    Rebase(names, base, first, made, pairs);
    forall i | 0 <= i < |pairs| ensures Settled(names, first, pairs[i], backups[i], artifacts, i < moved) {
      assert Settled(names, base, pairs[i], backups[i], artifacts, i < moved);
    }
  }

  lemma RebaseHeld(names: Names, base: Names, first: Names, made: nat, pairs: seq<Pair>, backups: seq<Option<Name>>,
                   moved: nat)
    requires Grows(base, first, made) && Fresh(pairs, made)
    requires |backups| == |pairs| && Held(names, base, pairs, backups, moved)
    ensures Held(names, first, pairs, backups, moved)
  {
    Rebase(names, base, first, made, pairs);
    forall i | 0 <= i < |pairs| && backups[i].Some? ensures PairHeld(names, first, pairs[i], backups[i].value) {
      assert PairHeld(names, base, pairs[i], backups[i].value);
    }
  }

  lemma GrowsHeld(names: Names, first: Names, made: nat, pairs: seq<Pair>, backups: seq<Option<Name>>, moved: nat)
    requires Grows(names, first, made) && Fresh(pairs, made) && |backups| == |pairs|
    requires forall i :: 0 <= i < |pairs| && backups[i].Some? ==> pairs[i].destination in first
    ensures Held(names, first, pairs, backups, moved)
  {
    forall i | 0 <= i < |pairs| ensures IsOriginal(names, first, pairs[i]) {
      DestinationStays(names, first, made, pairs, i);
    }
  }

  lemma ReplacedHeld(names: Names, base: Names, pairs: seq<Pair>, backups: seq<Option<Name>>, moved: nat)
    requires Apart(pairs, backups) && PartlyReplaced(names, base, pairs, moved) && BackupsBound(base, pairs, backups)
    ensures Held(names, base, pairs, backups, moved)
  {
    var m :| 0 <= m <= moved && Replaced(names, base, pairs, m);
    forall i | 0 <= i < |pairs| && backups[i].Some? ensures PairHeld(names, base, pairs[i], backups[i].value) {
      assert !Mentioned(pairs, backups[i].value);
    }
  }

  lemma AllReplacedHeld(history: seq<Names>, from: nat, base: Names, pairs: seq<Pair>, backups: seq<Option<Name>>,
                        moved: nat)
    requires Apart(pairs, backups) && AllReplaced(history, from, base, pairs, moved)
    requires BackupsBound(base, pairs, backups)
    ensures AllHeld(history, from, base, pairs, backups, moved)
  {
    hide Held, PartlyReplaced, BackupsBound;
    forall k | from <= k < |history| ensures Held(history[k], base, pairs, backups, moved) {
      ReplacedHeld(history[k], base, pairs, backups, moved);
    }
  }

  /** Backups made in phase one are apart from the pairs. */
  lemma BackupsApart(names: Names, base: Names, made: nat, pairs: seq<Pair>, backups: seq<Option<Name>>)
    requires Backed(names, base, made, pairs, backups) && |backups| == |pairs| && Fresh(pairs, made)
    requires Prepared(base, pairs) && Grows(names, base, made)
    ensures Apart(pairs, backups) && Prepared(names, pairs) && BackupsBound(names, pairs, backups)
    ensures forall i :: 0 <= i < |pairs| && backups[i].Some? ==> pairs[i].destination in base
  {
    forall i | 0 <= i < |pairs|
      ensures Bound(names, pairs[i].destination) == Bound(base, pairs[i].destination)
              && Bound(names, pairs[i].temporary) == Bound(base, pairs[i].temporary) {
      DestinationStays(names, base, made, pairs, i);
    }
    forall i | 0 <= i < |pairs| && backups[i].Some?
      ensures BackedBy(names, base, made, pairs[i].destination, backups[i].value) {
    }
  }

  /** No other name is bound to the inode of the destination. */
  ghost predicate Sole(names: Names, destination: Name) {
    destination in names && forall n :: n in names && n != destination ==> names[n] != names[destination]
  }

  /** Once a destination without backup is replaced, its inode is bound nowhere, unless it had other names. */
  lemma ReplacedLoses(names: Names, base: Names, first: Names, made: nat, pairs: seq<Pair>,
                      backups: seq<Option<Name>>, moved: nat, i: nat)
    requires Replaced(names, base, pairs, moved) && i < moved && Prepared(first, pairs) && Fresh(pairs, made)
    requires Grows(base, first, made) && OnlyBackups(base, first, backups) && |backups| == |pairs|
    requires Backed(base, first, made, pairs, backups) && backups[i].None? && Sole(first, pairs[i].destination)
    ensures Unbound(names, first[pairs[i].destination])
  {
    var inode := first[pairs[i].destination];
    forall n | n in names ensures names[n] != inode {
      if Mentioned(pairs, n) {
        var j :| 0 <= j < |pairs| && (n == pairs[j].destination || n == pairs[j].temporary);
        DestinationStays(base, first, made, pairs, j);
        assert pairs[j].temporary != pairs[i].destination;
        assert j < moved ==> IsNew(names, base, pairs[j]);
        assert j >= moved ==> IsOriginal(names, base, pairs[j]) && pairs[j].destination != pairs[i].destination;
      } else {
        assert Bound(names, n) == Bound(base, n);
        BackupIsOther(base, first, made, pairs, backups, i, n);
      }
    }
  }

  lemma BackupIsOther(base: Names, first: Names, made: nat, pairs: seq<Pair>, backups: seq<Option<Name>>, i: nat,
                      n: Name)
    requires Grows(base, first, made) && OnlyBackups(base, first, backups) && |backups| == |pairs|
    requires Backed(base, first, made, pairs, backups) && i < |pairs| && backups[i].None? && Prepared(first, pairs)
    requires Sole(first, pairs[i].destination) && n in base && n != pairs[i].destination
    ensures base[n] != first[pairs[i].destination]
  {
    if n !in first {
      var j :| 0 <= j < |backups| && backups[j] == Some(n);
      assert BackedBy(base, first, made, pairs[j].destination, backups[j].value);
      assert pairs[j].destination != pairs[i].destination;
    }
  }

  /** What the ghost outputs record: the backups, the steps of their probes, the step after them, the steps of the
      replacements, how many took effect, the step after them, and the step of the commit point. */
  datatype Run = Run(backups: seq<Option<Name>>, probes: seq<nat>, ready: nat, tries: seq<nat>, moved: nat, turn: nat,
                     commit: nat)

  /** A run from step `from` that got past its backups. Every state up to the commit point holds the originals that have
      a backup or were not replaced; at the turn the replaced pairs are new, and an original of which neither a backup
      nor another name exists is bound nowhere. */
  ghost predicate Ran(history: seq<Names>, log: seq<Operation>, faults: nat -> Fault, from: nat, pairs: seq<Pair>,
                      run: Run) {
    && from <= run.ready <= run.turn <= run.commit < |history| && |history| == |log| + 1
    && |run.backups| == |pairs| && run.moved <= |pairs|
    && Probed(faults, log, from, run.ready, history[from], pairs, run.backups, run.probes)
    && Attempted(faults, log, run.ready, run.turn, pairs, run.tries, run.moved)
    && AllHeld(history[..run.commit + 1], from, history[from], pairs, run.backups, run.moved)
    && (forall i :: 0 <= i < run.moved ==> IsNew(history[run.turn], history[from], pairs[i]))
    && (forall i :: 0 <= i < run.moved && run.backups[i].None? && Sole(history[from], pairs[i].destination) ==>
          Unbound(history[run.turn], history[from][pairs[i].destination]))
  }

  /** From the first step to the commit point every state holds the originals. */
  lemma WholeRunHeld(history: seq<Names>, start: nat, middle: nat, first: Names, base: Names, made: nat,
                     pairs: seq<Pair>, backups: seq<Option<Name>>, moved: nat)
    requires start <= middle <= |history| && AllGrow(history[..middle], start, first, made) && |backups| == |pairs|
    requires AllHeld(history, middle, base, pairs, backups, moved) && Grows(base, first, made) && Fresh(pairs, made)
    requires forall i :: 0 <= i < |pairs| && backups[i].Some? ==> pairs[i].destination in first
    ensures AllHeld(history, start, first, pairs, backups, moved)
  {
    hide Held, Grows, Fresh;
    forall k | start <= k < |history| ensures Held(history[k], first, pairs, backups, moved) {
      if k < middle {
        assert history[..middle][k] == history[k];
        GrowsHeld(history[k], first, made, pairs, backups, moved);
      } else {
        RebaseHeld(history[k], base, first, made, pairs, backups, moved);
      }
    }
  }

  /** The facts of the phases make a run. */
  lemma RunFacts(history: seq<Names>, log: seq<Operation>, faults: nat -> Fault, from: nat, pairs: seq<Pair>, run: Run,
                 base: Names, made: nat, steps: seq<Operation>, later: seq<Operation>, logged: seq<Names>,
                 past: seq<Names>)
    requires logged <= past <= history && |logged| == run.ready + 1 && |past| == run.commit + 1
    requires |history| == |log| + 1 && from <= run.ready <= run.turn <= run.commit < |history|
    requires steps <= later <= log && |steps| == run.ready && |later| == run.turn
    requires Probed(faults, steps, from, run.ready, history[from], pairs, run.backups, run.probes)
    requires Attempted(faults, later, run.ready, run.turn, pairs, run.tries, run.moved)
    requires Prepared(history[from], pairs) && Fresh(pairs, made) && Grows(base, history[from], made)
    requires |run.backups| == |pairs| && Backed(base, history[from], made, pairs, run.backups)
    requires OnlyBackups(base, history[from], run.backups) && Replaced(history[run.turn], base, pairs, run.moved)
    requires AllGrow(logged, from + 1, history[from], made)
    requires AllHeld(past, run.ready + 1, base, pairs, run.backups, run.moved)
    ensures Ran(history, log, faults, from, pairs, run)
  {
    hide Held, AllHeld, Probed, Attempted, Backed, OnlyBackups, Grows, AllGrow, Fresh, Prepared, Sole, Unbound;
    ghost var first := history[from];
    assert history[..run.ready + 1] == logged && history[..run.commit + 1] == past;
    ProbedLater(faults, steps, log, from, first, pairs, run.backups, run.probes);
    AttemptedLater(faults, later, log, run.ready, pairs, run.tries, run.moved);
    BackupsApart(base, first, made, pairs, run.backups);
    GrowsStart(history, first, made);
    FirstGrows(history[..run.ready + 1], from, first, made);
    assert history[..run.commit + 1][..run.ready + 1] == history[..run.ready + 1];
    WholeRunHeld(history[..run.commit + 1], from, run.ready + 1, first, base, made, pairs, run.backups, run.moved);
    Rebase(history[run.turn], base, first, made, pairs);
    forall i | 0 <= i < run.moved && run.backups[i].None? && Sole(first, pairs[i].destination)
      ensures pairs[i].destination in first && Unbound(history[run.turn], first[pairs[i].destination]) {
      SoleIsBound(first, pairs[i].destination);
      ReplacedLoses(history[run.turn], base, first, made, pairs, run.backups, run.moved, i);
    }
  }

  lemma SoleIsBound(names: Names, destination: Name)
    requires Sole(names, destination)
    ensures destination in names
  {
  }

  lemma FirstGrows(history: seq<Names>, from: nat, first: Names, made: nat)
    requires from < |history| && history[from] == first && AllGrow(history, from + 1, first, made)
    ensures AllGrow(history, from, first, made)
  {
  }

  /** Publish over existing files: back up, replace, and on any failure roll back. */
  method PublishForce(dir: Directory, pairs: seq<Pair>) returns (outcome: Outcome, ghost run: Run)
    requires dir.Valid() && Fresh(pairs, dir.made) && Prepared(dir.names, pairs)
    modifies dir
    ensures dir.Valid() && dir.Extends() && !outcome.AlreadyPresent?
    ensures pairs != [] ==> dir.step > old(dir.step) && dir.log[old(dir.step)] == Exists(pairs[0].destination)
    ensures outcome.BackupFailed? ==>
              && Grows(dir.names, old(dir.names), old(dir.made))
              && AllGrow(dir.history, old(dir.step), old(dir.names), old(dir.made))
              && Accounted(dir.names, old(dir.names), outcome.report, dir.faults, dir.log, old(dir.step))
              && AllStuck(outcome.report.artifacts, dir.faults, dir.log, old(dir.step))
              && AllStuck(outcome.report.noted, dir.faults, dir.log, old(dir.step))
    ensures !outcome.BackupFailed? ==> Ran(dir.history, dir.log, dir.faults, old(dir.step), pairs, run)
    ensures outcome.Published? || outcome.Uncleaned? ==>
              && run.moved == |pairs| && run.commit == run.turn
              && AllNew(dir.history[run.commit], old(dir.names), pairs) && AllNew(dir.names, old(dir.names), pairs)
    ensures outcome.RolledBack? ==>
              && run.commit == dir.step
              && AllSettled(dir.names, old(dir.names), pairs, run.backups, outcome.report.artifacts, run.moved)
              && (outcome.report.artifacts != [] ==> StepFailed(dir.faults, dir.log, run.turn))
    ensures outcome.Uncleaned? ==> AllStuck(outcome.report.artifacts, dir.faults, dir.log, run.commit)
    ensures !outcome.BackupFailed? ==>
              AllCleared(dir.names, Artifacts(outcome), dir.faults, dir.log, old(dir.step), run.backups, |pairs|)
    ensures !outcome.Published? ==>
              StepFailed(dir.faults, dir.log, old(dir.step)) || TemporaryMissing(old(dir.names), pairs)
  {
    hide WellBound, Traced, InodesBelow, Grows, AllGrow, Backed, OnlyBackups, Prepared, Fresh, AllHeld, Held;
    hide AllSettled, AllNew, AllReplaced, Replaced, Apart, BackupsBound, Probed, Attempted, AllCleared, StepFailed;
    hide Ran, Accounted, TemporaryMissing, TriedPrefix, AllStuck;
    ghost var first, made, from := dir.names, dir.made, dir.step;
    GrowsStart(dir.history, first, made);
    var saved, probes := MakeBackups(dir, pairs);
    FirstGrows(dir.history, from, first, made);
    run := Run([], probes, 0, [], 0, 0, 0);
    if saved.Err? { return BackupFailed(saved.error), run; }
    var kept := saved.value;
    ghost var base, steps, logged := dir.names, dir.log, dir.history;
    BackupsApart(base, first, made, pairs, kept);
    FreshLater(pairs, made, dir.made);
    var tried, done, tries, moved := ReplaceAll(dir, pairs);
    ghost var turned, replaced := dir.log, dir.names;
    StepFailedLater(dir.faults, dir.log, |steps|, dir.log, from);
    TemporariesStay(base, first, made, pairs);
    AllReplacedHeld(dir.history, |logged|, base, pairs, kept, moved);
    run := Run(kept, probes, |steps|, tries, moved, |turned|, |turned|);
    ghost var past := dir.history;
    if !done {
      AttemptedCount(dir.faults, dir.log, |steps|, |turned|, pairs, tries, moved);
      var report := Rollback(dir, pairs, tried, kept, base, |logged|, moved);
      run := run.(commit := dir.step);
      RunFacts(dir.history, dir.log, dir.faults, from, pairs, run, base, made, steps, turned, logged, dir.history);
      RebaseSettled(dir.names, base, first, made, pairs, kept, report.artifacts, moved);
      AllClearedLater(dir.names, dir.names, report.artifacts, report.artifacts, dir.faults, dir.log, dir.log, |turned|,
                      from, kept, |pairs|);
      StepFailedLater(dir.faults, turned, from, dir.log, from);
      return RolledBack(report), run;
    }
    ReplacedIsNew(dir.names, base, first, made, pairs);
    outcome := ClearBackups(dir, pairs, kept, first);
    RunFacts(dir.history, dir.log, dir.faults, from, pairs, run, base, made, steps, turned, logged, past);
    AllClearedLater(dir.names, dir.names, Artifacts(outcome), Artifacts(outcome), dir.faults, dir.log, dir.log,
                    |turned|, from, kept, |pairs|);
    StepFailedLater(dir.faults, dir.log, |turned|, dir.log, from);
  }

  lemma AttemptedCount(faults: nat -> Fault, log: seq<Operation>, from: nat, to: nat, pairs: seq<Pair>,
                       tries: seq<nat>, moved: nat)
    requires Attempted(faults, log, from, to, pairs, tries, moved)
    ensures moved <= |tries|
  {
  }

  lemma TemporariesStay(base: Names, first: Names, made: nat, pairs: seq<Pair>)
    requires Grows(base, first, made) && Fresh(pairs, made)
    ensures TemporaryMissing(base, pairs) ==> TemporaryMissing(first, pairs)
  {
    if TemporaryMissing(base, pairs) {
      var i :| 0 <= i < |pairs| && pairs[i].temporary !in base;
      DestinationStays(base, first, made, pairs, i);
    }
  }

  lemma FreshLater(pairs: seq<Pair>, made: nat, later: nat)
    requires Fresh(pairs, made) && made <= later
    ensures Fresh(pairs, later)
  {
  }

  lemma ReplacedIsNew(names: Names, base: Names, first: Names, made: nat, pairs: seq<Pair>)
    requires Replaced(names, base, pairs, |pairs|) && Grows(base, first, made) && Fresh(pairs, made)
    ensures AllNew(names, first, pairs)
  {
    Rebase(names, base, first, made, pairs);
  }

  // ----- what forced publication guarantees

  /** The original inode of a destination is bound to it or to its backup. */
  ghost predicate Reachable(names: Names, first: Names, pair: Pair, backup: Option<Name>) {
    || IsOriginal(names, first, pair)
    || (backup.Some? && Bound(names, backup.value) == Bound(first, pair.destination))
  }

  /** The existence probe of this destination worked, or its replacement had no effect. */
  ghost predicate Guarded(faults: nat -> Fault, run: Run, i: nat)
    requires i < |run.probes|
  {
    faults(run.probes[i]).Proceed? || i >= run.moved
  }

  /** Up to the commit point the original of a destination is reachable in every state if and only if its existence
      probe worked or its replacement had no effect. */
  lemma ReachableIff(history: seq<Names>, log: seq<Operation>, faults: nat -> Fault, from: nat, pairs: seq<Pair>,
                     run: Run, i: nat)
    requires Ran(history, log, faults, from, pairs, run) && Prepared(history[from], pairs)
    requires i < |pairs| && pairs[i].destination in history[from]
    ensures (forall k :: from <= k <= run.commit ==> Reachable(history[k], history[from], pairs[i], run.backups[i]))
            <==> Guarded(faults, run, i)
  {
    if Guarded(faults, run, i) {
      forall k | from <= k <= run.commit ensures Reachable(history[k], history[from], pairs[i], run.backups[i]) {
        assert history[..run.commit + 1][k] == history[k];
        assert Held(history[k], history[from], pairs, run.backups, run.moved);
      }
    } else {
      assert IsNew(history[run.turn], history[from], pairs[i]);
      assert !Reachable(history[run.turn], history[from], pairs[i], run.backups[i]);
    }
  }

  /** Every state up to the commit point holds every original if and only if each existing destination was guarded. */
  lemma OriginalsStayReachableIff(history: seq<Names>, log: seq<Operation>, faults: nat -> Fault, from: nat,
                                  pairs: seq<Pair>, run: Run)
    requires Ran(history, log, faults, from, pairs, run) && Prepared(history[from], pairs)
    ensures (forall k, i :: from <= k <= run.commit && 0 <= i < |pairs| && pairs[i].destination in history[from] ==>
               Reachable(history[k], history[from], pairs[i], run.backups[i]))
            <==> (forall i :: 0 <= i < |pairs| && pairs[i].destination in history[from] ==> Guarded(faults, run, i))
  {
    hide Reachable, Guarded, Prepared;
    forall i | 0 <= i < |pairs| && pairs[i].destination in history[from]
      ensures (forall k :: from <= k <= run.commit ==> Reachable(history[k], history[from], pairs[i], run.backups[i]))
              <==> Guarded(faults, run, i) {
      ReachableIff(history, log, faults, from, pairs, run, i);
    }
  }

  /** The inode of an existing destination that had no other name is bound to some name in every state up to the commit
      point if and only if the destination was guarded. Otherwise it is bound nowhere from the turn on, for good. */
  lemma LostIff(history: seq<Names>, log: seq<Operation>, faults: nat -> Fault, from: nat, pairs: seq<Pair>, run: Run,
                i: nat)
    requires Traced(history, log, faults) && Ran(history, log, faults, from, pairs, run)
    requires Prepared(history[from], pairs) && i < |pairs| && Sole(history[from], pairs[i].destination)
    ensures (forall k :: from <= k <= run.commit ==> !Unbound(history[k], history[from][pairs[i].destination]))
            <==> Guarded(faults, run, i)
    ensures !Guarded(faults, run, i) ==>
              forall t :: run.turn <= t < |history| ==> Unbound(history[t], history[from][pairs[i].destination])
  {
    hide Traced, Prepared, Sole;
    var d := pairs[i].destination;
    SoleIsBound(history[from], d);
    ReachableIff(history, log, faults, from, pairs, run, i);
    if Guarded(faults, run, i) {
      forall k | from <= k <= run.commit ensures !Unbound(history[k], history[from][d]) {
        assert Reachable(history[k], history[from], pairs[i], run.backups[i]);
      }
    } else {
      assert run.backups[i].None? && Unbound(history[run.turn], history[from][d]);
      forall t | run.turn <= t < |history| ensures Unbound(history[t], history[from][d]) {
        GoneForGood(history, log, faults, from, d, run.turn, t);
      }
    }
  }

  /** After a rollback, a destination has its original binding again or is reported (with the backup that still holds
      its original, or as a published file that could not be removed where there was none), if and only if it did not
      exist or was guarded. */
  lemma RollbackRestoresIff(history: seq<Names>, log: seq<Operation>, faults: nat -> Fault, from: nat,
                            pairs: seq<Pair>, run: Run, names: Names, artifacts: seq<Name>, i: nat)
    requires Ran(history, log, faults, from, pairs, run) && Prepared(history[from], pairs) && i < |pairs|
    requires AllSettled(names, history[from], pairs, run.backups, artifacts, run.moved)
    ensures (|| Bound(names, pairs[i].destination) == Bound(history[from], pairs[i].destination)
             || (&& run.backups[i].Some? && run.backups[i].value in artifacts
                 && Bound(names, run.backups[i].value) == Bound(history[from], pairs[i].destination))
             || (pairs[i].destination !in history[from] && pairs[i].destination in artifacts))
            <==> (pairs[i].destination !in history[from] || Guarded(faults, run, i))
  {
    hide AllHeld, Attempted;
    assert Settled(names, history[from], pairs[i], run.backups[i], artifacts, i < run.moved);
  }

  /** Only the first step fails. */
  function FirstFails(): nat -> Fault { (s: nat) => if s == 0 then FailBefore else Proceed }

  /** One file to publish over one existing file. */
  const TWO_FILES: Names := map[Given(0) := 7, Given(1) := 8]

  lemma TwoFiles(log: seq<Operation>)
    ensures WellBound(TWO_FILES, 0, 9) && Fresh([Pair(Given(0), Given(1))], 0)
    ensures Prepared(TWO_FILES, [Pair(Given(0), Given(1))]) && Sole(TWO_FILES, Given(1))
    ensures !TemporaryMissing(TWO_FILES, [Pair(Given(0), Given(1))])
    ensures log != [] && log[0].Exists? ==> !StepFailed(FirstFails(), log, 0)
  {
  }

  /** A failed existence probe alone loses a file: the publication succeeds, and the inode that the destination had is
      bound nowhere. */
  method LoseOriginal() returns (dir: Directory, outcome: Outcome)
    ensures fresh(dir) && dir.Valid() && dir.faults == FirstFails() && outcome.Published?
    ensures dir.history[0] == TWO_FILES && dir.log != [] && dir.log[0] == Exists(Given(1))
    ensures Unbound(dir.names, TWO_FILES[Given(1)])
  {
    hide WellBound, InodesBelow, Prepared, Fresh, AllHeld, Held, AllSettled, AllNew, Attempted, AllCleared, StepFailed;
    hide Grows, AllGrow, Accounted, TemporaryMissing, Sole, Traced, FirstFails, Unbound;
    var pairs := [Pair(Given(0), Given(1))];
    TwoFiles([]);
    dir := new Directory(TWO_FILES, 0, 9, FirstFails());
    ghost var run;
    outcome, run := PublishForce(dir, pairs);
    TwoFiles(dir.log);
    ProbeOfFirst(dir.history, dir.log, 0, pairs, run);
    LostIff(dir.history, dir.log, dir.faults, 0, pairs, run, 0);
  }

  /** The first probe is the failed step. */
  lemma ProbeOfFirst(history: seq<Names>, log: seq<Operation>, from: nat, pairs: seq<Pair>, run: Run)
    requires Ran(history, log, FirstFails(), from, pairs, run) && pairs != [] && run.moved > 0
    requires |run.probes| > 0 && run.probes[0] == 0
    ensures !Guarded(FirstFails(), run, 0)
  {
  }

  // ----- publication without replacement

  /** A pair's destination is as before, or new while its undoing is pending, or reported. */
  ghost predicate LinkStatus(names: Names, first: Names, pair: Pair, pending: bool, artifacts: set<Name>) {
    || IsOriginal(names, first, pair)
    || (if pending then pair.destination !in first && IsNew(names, first, pair) else pair.destination in artifacts)
  }

  ghost predicate Linked(names: Names, first: Names, pairs: seq<Pair>, m: nat, artifacts: seq<Name>) {
    && (forall n :: n in first ==> Bound(names, n) == Some(first[n]))
    && (forall n :: n in names && n !in first ==> exists i :: 0 <= i < |pairs| && n == pairs[i].destination)
    && (forall i :: 0 <= i < |pairs| ==> LinkStatus(names, first, pairs[i], i < m, SetOf(artifacts)))
  }

  lemma LinkStep(names: Names, first: Names, pairs: seq<Pair>, m: nat, fault: Fault)
    requires Prepared(first, pairs) && m < |pairs| && Linked(names, first, pairs, m, [])
    ensures var after := Attempt(names, LinkEffect(names, pairs[m].temporary, pairs[m].destination), fault);
            && Linked(after.0, first, pairs, m + 1, [])
            && (after.1.None? ==> IsNew(after.0, first, pairs[m]))
            && (forall i :: 0 <= i < m && IsNew(names, first, pairs[i]) ==> IsNew(after.0, first, pairs[i]))
  {
    var after := Attempt(names, LinkEffect(names, pairs[m].temporary, pairs[m].destination), fault);
    assert LinkStatus(names, first, pairs[m], false, SetOf([]));
    TemporaryKept(names, first, pairs, m);
    forall i | 0 <= i < |pairs| ensures LinkStatus(after.0, first, pairs[i], i < m + 1, SetOf([])) {
      assert LinkStatus(names, first, pairs[i], i < m, SetOf([]));
      if i != m { assert pairs[i].destination != pairs[m].destination; }
    }
  }

  lemma TemporaryKept(names: Names, first: Names, pairs: seq<Pair>, m: nat)
    requires Prepared(first, pairs) && m < |pairs| && Linked(names, first, pairs, m, [])
    ensures Bound(names, pairs[m].temporary) == Bound(first, pairs[m].temporary)
  {
    assert forall i :: 0 <= i < |pairs| ==> pairs[i].destination != pairs[m].temporary;
  }

  lemma NextIsOriginal(names: Names, first: Names, pairs: seq<Pair>, m: nat)
    requires m < |pairs| && Linked(names, first, pairs, m, [])
    ensures IsOriginal(names, first, pairs[m])
  {
    assert LinkStatus(names, first, pairs[m], false, SetOf([]));
  }

  /** Undoing one link restores the destination or reports it. */
  lemma UnlinkStep(names: Names, after: Names, first: Names, pairs: seq<Pair>, k: nat, artifacts: seq<Name>,
                   failed: bool)
    requires Prepared(first, pairs) && k < |pairs| && Linked(names, first, pairs, k + 1, artifacts)
    requires OnlyPair(after, names, pairs[k], None)
    requires after == names || (pairs[k].destination !in first && after == names - {pairs[k].destination})
    requires failed || IsOriginal(after, first, pairs[k])
    ensures Linked(after, first, pairs, k, if failed then artifacts + [pairs[k].destination] else artifacts)
  {
    var more := if failed then artifacts + [pairs[k].destination] else artifacts;
    assert SetOf(artifacts) <= SetOf(more);
    forall i | 0 <= i < |pairs| ensures LinkStatus(after, first, pairs[i], i < k, SetOf(more)) {
      assert LinkStatus(names, first, pairs[i], i < k + 1, SetOf(artifacts));
      if i != k { assert pairs[i].destination != pairs[k].destination; }
    }
  }

  /** Every temporary is there and no destination is. */
  predicate Clear(names: Names, pairs: seq<Pair>) {
    forall i :: 0 <= i < |pairs| ==> pairs[i].temporary in names && pairs[i].destination !in names
  }

  /** Link every temporary to a destination that does not exist yet; on failure remove what was linked. */
  method PublishNoReplace(dir: Directory, pairs: seq<Pair>) returns (outcome: Outcome)
    requires dir.Valid() && Fresh(pairs, dir.made) && Prepared(dir.names, pairs)
    modifies dir
    ensures dir.Valid() && !outcome.Uncleaned? && !outcome.BackupFailed?
    ensures forall n :: n in old(dir.names) ==> Bound(dir.names, n) == Some(old(dir.names)[n])
    ensures forall n :: n in dir.names && n !in old(dir.names) ==>
              exists i :: 0 <= i < |pairs| && n == pairs[i].destination
    ensures outcome.Published? ==> AllNew(dir.names, old(dir.names), pairs)
    ensures !outcome.Published? ==>
              forall i :: 0 <= i < |pairs| ==>
                IsOriginal(dir.names, old(dir.names), pairs[i]) || pairs[i].destination in outcome.report.artifacts
    ensures outcome.AlreadyPresent? ==> exists i :: 0 <= i < |pairs| && pairs[i].destination in old(dir.names)
    ensures !outcome.Published? ==>
              AllTouchFailed(outcome.report.artifacts, dir.faults, dir.log, old(dir.step))
    ensures outcome.RolledBack? ==>
              StepFailed(dir.faults, dir.log, old(dir.step)) || TemporaryMissing(old(dir.names), pairs)
    ensures NoFaults(dir.faults) && Clear(old(dir.names), pairs) ==> outcome.Published?
  {
    hide WellBound, Traced, InodesBelow, Fresh, Prepared, StepFailed, TouchFailed, TemporaryMissing;
    ghost var first, start := dir.names, dir.step;
    for i := 0 to |pairs|
      invariant dir.Valid() && dir.Extends() && dir.names == first && dir.made == old(dir.made)
    {
      var there := dir.Lexists(pairs[i].destination);
      if there { return AlreadyPresent(Report([], [], [], false)); }
    }
    ghost var probed := dir.log;
    var tried, done, present := LinkAll(dir, pairs);
    if done { return Published; }
    ghost var linked := dir.log;
    var report := UnlinkAll(dir, pairs, tried, first);
    StepFailedLater(dir.faults, linked, |probed|, dir.log, start);
    AllTouchFailedLater(report.artifacts, dir.faults, dir.log, |linked|, dir.log, start);
    return if present then AlreadyPresent(report) else RolledBack(report);
  }

  method LinkAll(dir: Directory, pairs: seq<Pair>) returns (tried: seq<Tried>, done: bool, present: bool)
    requires dir.Valid() && Fresh(pairs, dir.made) && Prepared(dir.names, pairs)
    modifies dir
    ensures dir.Valid() && dir.Extends() && dir.made == old(dir.made)
    ensures !done && !present ==>
              StepFailed(dir.faults, dir.log, old(dir.step)) || TemporaryMissing(old(dir.names), pairs)
    ensures TriedPrefix(tried, old(dir.names), pairs) && Linked(dir.names, old(dir.names), pairs, |tried|, [])
    ensures done ==> AllNew(dir.names, old(dir.names), pairs)
    ensures present ==> !done && exists i :: 0 <= i < |pairs| && pairs[i].destination in old(dir.names)
    ensures NoFaults(dir.faults) && Clear(old(dir.names), pairs) ==> done
  {
    hide WellBound, Traced, InodesBelow, Prepared, Linked;
    ghost var first := dir.names;
    NothingLinked(first, pairs);
    tried := [];
    for i := 0 to |pairs|
      invariant dir.Valid() && dir.Extends() && dir.made == old(dir.made)
      invariant |tried| == i && TriedPrefix(tried, first, pairs)
      invariant Linked(dir.names, first, pairs, i, []) && forall k :: 0 <= k < i ==> IsNew(dir.names, first, pairs[k])
    {
      TemporaryKept(dir.names, first, pairs, i);
      NextIsOriginal(dir.names, first, pairs, i);
      ghost var steps := dir.log;
      var identity := dir.Lstat(pairs[i].temporary);
      assert !dir.log[|steps|].Exists?;
      if identity.Err? { return tried, false, false; }
      tried := tried + [Tried(pairs[i].destination, identity.value)];
      LinkStep(dir.names, first, pairs, i, dir.faults(dir.step));
      var error := dir.Link(pairs[i].temporary, pairs[i].destination);
      assert !dir.log[|steps| + 1].Exists?;
      if error.Some? { return tried, false, error == Some(AlreadyThere); }
    }
    if pairs == [] { return tried, true, false; }
    ghost var steps := dir.log;
    var flushed := dir.Fsync();
    assert !dir.log[|steps|].Exists?;
    return tried, flushed.None?, false;
  }

  lemma NothingLinked(first: Names, pairs: seq<Pair>)
    ensures Linked(first, first, pairs, 0, [])
  {
  }

  method UnlinkAll(dir: Directory, pairs: seq<Pair>, tried: seq<Tried>, ghost first: Names) returns (report: Report)
    requires dir.Valid() && Prepared(first, pairs) && TriedPrefix(tried, first, pairs)
    requires Linked(dir.names, first, pairs, |tried|, [])
    modifies dir
    ensures dir.Valid() && dir.Extends() && Linked(dir.names, first, pairs, 0, report.artifacts)
    ensures AllTouchFailed(report.artifacts, dir.faults, dir.log, old(dir.step))
  {
    hide WellBound, Traced, InodesBelow, Prepared, Linked, StepFailed, TouchFailed, AllTouchFailed;
    var artifacts: seq<Name> := [];
    ghost var start := dir.step;
    NoneTouched(dir.faults, dir.log, start);
    for k := |tried| downto 0
      invariant dir.Valid() && dir.Extends() && Linked(dir.names, first, pairs, k, artifacts)
      invariant AllTouchFailed(artifacts, dir.faults, dir.log, start)
    {
      ghost var before, steps := dir.names, dir.log;
      PendingStatus(before, first, pairs, k, artifacts);
      NewWasAbsent(before, first, pairs, k, artifacts);
      var failed := RemovePublished(dir, tried[k], first, pairs[k]);
      UnlinkStep(before, dir.names, first, pairs, k, artifacts, failed);
      if failed {
        AllTouchFailedSnoc(artifacts, dir.faults, steps, |steps|, dir.log, start, tried[k].destination);
        artifacts := artifacts + [tried[k].destination];
      } else {
        AllTouchFailedLater(artifacts, dir.faults, steps, start, dir.log, start);
      }
    }
    ghost var steps := dir.log;
    var flushed := dir.Fsync();
    AllTouchFailedLater(artifacts, dir.faults, steps, start, dir.log, start);
    return Report(artifacts, artifacts, [], flushed.Some?);
  }

  lemma NoneTouched(faults: nat -> Fault, log: seq<Operation>, from: nat)
    ensures AllTouchFailed([], faults, log, from)
  {
  }

  lemma NewWasAbsent(names: Names, first: Names, pairs: seq<Pair>, k: nat, artifacts: seq<Name>)
    requires Prepared(first, pairs) && k < |pairs| && Linked(names, first, pairs, k + 1, artifacts)
    ensures IsNew(names, first, pairs[k]) ==> pairs[k].destination !in first
    ensures pairs[k].destination in first ==> IsOriginal(names, first, pairs[k])
  {
    assert LinkStatus(names, first, pairs[k], true, SetOf(artifacts));
  }

  lemma PendingStatus(names: Names, first: Names, pairs: seq<Pair>, k: nat, artifacts: seq<Name>)
    requires k < |pairs| && Linked(names, first, pairs, k + 1, artifacts)
    ensures IsOriginal(names, first, pairs[k]) || (pairs[k].destination !in first && IsNew(names, first, pairs[k]))
  {
    assert LinkStatus(names, first, pairs[k], true, SetOf(artifacts));
  }
}
