/** Replacement of a report by an atomic exchange, on the condition that the displaced file is the expected one. */
module ConditionalReplace {
  import opened Basics
  import opened Publication

  /** What another writer does to the target just before a step. */
  datatype Interference = Idle | Install(inode: nat) | Remove

  datatype Exchange = Exchange(toTarget: nat, toTemporary: nat)

  datatype ReplaceError =
    | TargetUnknown
    | TemporaryUnknown
    | UnsafeTemporary
    | ExchangeFailed(retained: bool)
    | Unverified(rolledBack: bool)
    | TargetChanged(rolledBack: bool)
    | CleanupFailed

  function Meddle(target: Option<nat>, act: Interference): Option<nat> {
    match act
    case Idle => target
    case Install(inode) => Some(inode)
    case Remove => None
  }

  /** The target and the owned temporary name in one directory; other writers reach only the target. */
  class Shared {
    var target: Option<nat>
    var temporary: Option<nat>
    var step: nat
    const faults: nat -> Fault
    const writer: nat -> Interference
    const regular: nat -> bool
    ghost var exchanges: seq<Exchange>
    ghost var unlinked: set<nat>

    twostate predicate OneStep()
      reads this
    {
      step == old(step) + 1
    }

    /** The target as a step finds it. */
    function Now(): Option<nat>
      reads this
    {
      Meddle(target, writer(step))
    }

    constructor (target: Option<nat>, temporary: nat, faults: nat -> Fault, writer: nat -> Interference,
                 regular: nat -> bool)
      ensures this.target == target && this.temporary == Some(temporary) && this.faults == faults
      ensures this.writer == writer
      ensures this.regular == regular && exchanges == [] && unlinked == {} && step == 0
    {
      this.target, this.temporary := target, Some(temporary);
      this.faults, this.writer, this.regular := faults, writer, regular;
      step, exchanges, unlinked := 0, [], {};
    }

    method StatTarget() returns (r: Result<nat, OsError>)
      modifies `target, `step
      ensures OneStep() && target == old(Now())
      ensures r == if !faults(old(step)).Proceed? then Err(Faulted)
                   else if target.Some? then Ok(target.value) else Err(NotFound)
    {
      target := Now();
      var fault := faults(step);
      step := step + 1;
      r := if !fault.Proceed? then Err(Faulted) else if target.Some? then Ok(target.value) else Err(NotFound);
    }

    method StatTemporary() returns (r: Result<nat, OsError>)
      modifies `target, `step
      ensures OneStep() && target == old(Now())
      ensures r == if !faults(old(step)).Proceed? then Err(Faulted)
                   else if temporary.Some? then Ok(temporary.value) else Err(NotFound)
    {
      target := Now();
      var fault := faults(step);
      step := step + 1;
      r := if !fault.Proceed? then Err(Faulted) else if temporary.Some? then Ok(temporary.value) else Err(NotFound);
    }

    /** Swap the two names; both must be bound. */
    method Swap() returns (e: Option<OsError>)
      modifies this
      ensures OneStep() && unlinked == old(unlinked)
      ensures var found, fault := old(Now()), faults(old(step));
              if fault.FailBefore? || found.None? || old(temporary).None?
              then e.Some? && target == found && temporary == old(temporary) && exchanges == old(exchanges)
              else && target == old(temporary) && temporary == found && e.Some? == fault.FailAfter?
                   && exchanges == old(exchanges) + [Exchange(old(temporary).value, found.value)]
    {
      target := Now();
      var fault := faults(step);
      step := step + 1;
      if fault.FailBefore? { return Some(Faulted); }
      if target.None? || temporary.None? { return Some(NotFound); }
      exchanges := exchanges + [Exchange(temporary.value, target.value)];
      target, temporary := temporary, target;
      return if fault.FailAfter? then Some(Faulted) else None;
    }

    method UnlinkTemporary() returns (e: Option<OsError>)
      modifies this
      ensures OneStep() && target == old(Now()) && exchanges == old(exchanges)
      ensures var fault := faults(old(step));
              if fault.FailBefore? || old(temporary).None?
              then e.Some? && temporary == old(temporary) && unlinked == old(unlinked)
                   && (e == Some(NotFound) <==> !fault.FailBefore?)
              else temporary == None && unlinked == old(unlinked) + {old(temporary).value}
                   && e == if fault.FailAfter? then Some(Faulted) else None
    {
      target := Now();
      var fault := faults(step);
      step := step + 1;
      if fault.FailBefore? { return Some(Faulted); }
      if temporary.None? { return Some(NotFound); }
      unlinked := unlinked + {temporary.value};
      temporary := None;
      return if fault.FailAfter? then Some(Faulted) else None;
    }

    /** Remove the owned temporary; a missing one is fine, another failure is returned. */
    method DiscardTemporary() returns (failed: bool)
      modifies this
      ensures OneStep() && exchanges == old(exchanges) && target == old(Now())
      ensures unlinked == old(unlinked) || (old(temporary).Some? && unlinked == old(unlinked) + {old(temporary).value})
      ensures temporary == None || temporary == old(temporary)
      ensures faults(old(step)).Proceed? ==> !failed && temporary == None
    {
      var e := UnlinkTemporary();
      failed := e.Some? && e != Some(NotFound);
    }
  }

  /** What may have happened to the displaced file when the exchange could not be verified. */
  ghost predicate DisplacedSafe(s: Shared)
    reads s
  {
    && |s.exchanges| >= 1 && s.temporary.Some?
    && (|s.exchanges| == 1 ==> s.temporary == Some(s.exchanges[0].toTemporary))
    && (|s.exchanges| == 2 ==>
         && s.exchanges[1].toTarget == s.exchanges[0].toTemporary
         && s.temporary == Some(s.exchanges[1].toTemporary))
    && |s.exchanges| <= 2
  }

  /** Replace the target if its inode is the expected one.  Whatever other writers install at the target between steps
      and whichever steps fail, only the own temporary or the expected inode is unlinked, and any other displaced
      inode stays at the retained temporary name or is exchanged back to the target. */
  method ConditionalReplaceAt(s: Shared, expected: nat) returns (r: Result<bool, ReplaceError>)
    requires s.temporary.Some? && s.exchanges == [] && s.unlinked == {}
    modifies s
    ensures s.unlinked <= {old(s.temporary).value, expected}
    ensures s.exchanges != [] ==> s.exchanges[0].toTarget == old(s.temporary).value
    ensures r == Ok(true) ==>
              && s.exchanges == [Exchange(old(s.temporary).value, expected)] && s.temporary == None
              && s.unlinked == {expected}
    ensures r == Ok(false) ==> s.exchanges == []
    ensures s.exchanges != [] && s.exchanges[0].toTemporary !in {old(s.temporary).value, expected} ==>
              r.Err? && DisplacedSafe(s)
    ensures r.Err? && (r.error.Unverified? || r.error.TargetChanged?) ==> DisplacedSafe(s)
    ensures r == Err(ExchangeFailed(true)) && s.exchanges != [] ==> DisplacedSafe(s)
    ensures r == Err(Unverified(true)) || r == Err(TargetChanged(true)) ==> |s.exchanges| == 2
    ensures r == Err(ExchangeFailed(true)) || r == Err(Unverified(false)) || r == Err(TargetChanged(false)) ==>
              s.temporary.Some?
    ensures Quiet(s) && old(s.target) == Some(expected) && s.regular(expected) && s.regular(old(s.temporary).value)
            ==> r == Ok(true) && s.target == old(s.temporary)
    ensures Quiet(s) && old(s.target) != Some(expected) ==> r == Ok(false) && s.target == old(s.target)
  {
    ghost var own := s.temporary.value;
    var existing := s.StatTarget();
    if existing == Err(Faulted) {
      var failed := s.DiscardTemporary();
      return Err(TargetUnknown);
    }
    if existing.Err? || !s.regular(existing.value) || existing.value != expected {
      var failed := s.DiscardTemporary();
      return if failed then Err(CleanupFailed) else Ok(false);
    }
    var before := s.StatTemporary();
    if before.Err? {
      var failed := s.DiscardTemporary();
      return Err(TemporaryUnknown);
    }
    if !s.regular(before.value) {
      var failed := s.DiscardTemporary();
      return if failed then Err(CleanupFailed) else Err(UnsafeTemporary);
    }
    var error := s.Swap();
    if error.Some? {
      var current := s.StatTemporary();
      if current.Ok? && current.value == before.value {
        var failed := s.DiscardTemporary();
        return Err(ExchangeFailed(false));
      }
      return Err(ExchangeFailed(true));
    }
    var old' := s.StatTemporary();
    if old'.Err? {
      var rollback := s.Swap();
      return Err(Unverified(rollback.None?));
    }
    if old'.value != expected {
      var rollback := s.Swap();
      return Err(TargetChanged(rollback.None?));
    }
    var cleanup := s.UnlinkTemporary();
    return if cleanup.Some? then Err(CleanupFailed) else Ok(true);
  }

  /** No step fails and no other writer acts. */
  ghost predicate Quiet(s: Shared) {
    forall k: nat :: s.faults(k).Proceed? && s.writer(k).Idle?
  }
}
