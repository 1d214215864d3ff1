/** The startup injection worker, its mailbox, and the monitor that follows its events. */
module InjectionWorker {
  import opened Basics

  // ----- worker events and the monitor

  datatype WorkerEvent =
    | SpawnedPid(pid: int)
    | ProcessResumed(pid: int)
    | SpawnCleanup(pid: int, complete: bool)
    | ResultEvent(pid: int, generation: int, cleanupDetached: bool)
    | ErrorEvent
    | Complete(cleanupFailed: bool)
    | UnknownEvent

  datatype OutcomeKind = NoOutcome | ResultOutcome | ErrorOutcome

  datatype MonitorState =
    MonitorState(pid: Option<int>, resumed: bool, outcome: OutcomeKind, complete: bool, cleaned: bool)

  const START: MonitorState := MonitorState(None, false, NoOutcome, false, false)

  /** The monitor's reaction to one event; None is a protocol violation. */
  function Next(st: MonitorState, e: WorkerEvent): Option<MonitorState> {
    if st.complete then None
    else
      match e
      case SpawnedPid(pid) =>
        if st.pid.None? && st.outcome.NoOutcome? && pid > 0 then Some(st.(pid := Some(pid))) else None
      case ProcessResumed(pid) =>
        if st.pid == Some(pid) && !st.resumed && st.outcome.NoOutcome? then Some(st.(resumed := true)) else None
      case SpawnCleanup(pid, _) =>
        if st.pid == Some(pid) && !st.resumed && !st.cleaned && st.outcome.NoOutcome?
        then Some(st.(cleaned := true))
        else None
      case ResultEvent(pid, _, _) =>
        if st.pid == Some(pid) && st.resumed && st.outcome.NoOutcome? then Some(st.(outcome := ResultOutcome)) else None
      case ErrorEvent => if st.outcome.NoOutcome? then Some(st.(outcome := ErrorOutcome)) else None
      case Complete(_) => if !st.outcome.NoOutcome? then Some(st.(complete := true)) else None
      case UnknownEvent => None
  }

  function Run(events: seq<WorkerEvent>): Option<MonitorState> {
    if events == [] then Some(START)
    else
      match Run(events[..|events| - 1])
      case None => None
      case Some(st) => Next(st, events[|events| - 1])
  }

  lemma SendStep(sent: seq<WorkerEvent>, e: WorkerEvent)
    requires Run(sent).Some?
    ensures Run(sent + [e]) == Next(Run(sent).value, e)
  {
    assert (sent + [e])[..|sent|] == sent;
  }

  class WorkerState {
    var pid: Option<int>
    var resumed: bool
    var outcome: OutcomeKind
    var complete: bool
    var cleaned: bool
    ghost var recorded: seq<WorkerEvent>

    ghost predicate Valid()
      reads this
    {
      Run(recorded) == Some(MonitorState(pid, resumed, outcome, complete, cleaned))
    }

    constructor ()
      ensures Valid() && recorded == []
    {
      pid, resumed, outcome, complete, cleaned, recorded := None, false, NoOutcome, false, false, [];
    }

    /** Accept an event exactly when the events so far followed by it are a protocol run. */
    method RecordWorkerEvent(e: WorkerEvent) returns (accepted: bool)
      requires Valid()
      modifies this
      ensures accepted <==> Run(old(recorded) + [e]).Some?
      ensures recorded == if accepted then old(recorded) + [e] else old(recorded)
      ensures Valid()
    {
      hide Run;
      SendStep(recorded, e);
      if complete { return false; }
      match e {
        case SpawnedPid(p) =>
          if pid.Some? || !outcome.NoOutcome? || p <= 0 { return false; }
          pid := Some(p);
        case ProcessResumed(p) =>
          if pid.None? || resumed || !outcome.NoOutcome? || p != pid.value { return false; }
          resumed := true;
        case SpawnCleanup(p, _) =>
          if pid.None? || resumed || cleaned || !outcome.NoOutcome? || p != pid.value { return false; }
          cleaned := true;
        case ResultEvent(p, _, _) =>
          if pid.None? || !resumed || !outcome.NoOutcome? || p != pid.value { return false; }
          outcome := ResultOutcome;
        case ErrorEvent =>
          if !outcome.NoOutcome? { return false; }
          outcome := ErrorOutcome;
        case Complete(_) =>
          if outcome.NoOutcome? { return false; }
          complete := true;
        case UnknownEvent => return false;
      }
      recorded := recorded + [e];
      return true;
    }
  }

  // ----- what an accepted run looks like

  predicate IsOutcome(e: WorkerEvent) { e.ResultEvent? || e.ErrorEvent? }

  predicate NoneOutcome(events: seq<WorkerEvent>) { forall e :: e in events ==> !IsOutcome(e) && !e.Complete? }

  /** `state` agrees with the events that led to it. */
  ghost predicate Explains(events: seq<WorkerEvent>, st: MonitorState) {
    && (st.pid.Some? <==> exists e :: e in events && e.SpawnedPid?)
    && (forall e :: e in events && e.SpawnedPid? ==> Some(e.pid) == st.pid)
    && (forall e :: e in events && (e.ProcessResumed? || e.SpawnCleanup? || e.ResultEvent?) ==>
          Some(e.pid) == st.pid)
    && (st.resumed <==> exists e :: e in events && e.ProcessResumed?)
    && (st.outcome.NoOutcome? ==> NoneOutcome(events))
    && (st.outcome.ResultOutcome? ==> st.resumed && exists e :: e in events && e.ResultEvent?)
  }

  lemma {:induction false} RunExplains(events: seq<WorkerEvent>)
    requires Run(events).Some?
    ensures Explains(events, Run(events).value)
  {
    if events != [] {
      var n := |events| - 1;
      RunExplains(events[..n]);
      assert events == events[..n] + [events[n]];
      ExplainsSnoc(events[..n], events[n], Run(events[..n]).value);
    }
  }

  lemma ExplainsSnoc(events: seq<WorkerEvent>, e: WorkerEvent, st: MonitorState)
    requires Explains(events, st) && Next(st, e).Some?
    ensures Explains(events + [e], Next(st, e).value)
  {
    assert e in events + [e] && forall x :: x in events ==> x in events + [e];
  }

  /** Exactly one outcome, immediately followed by completion, which is last. */
  ghost predicate Finished(events: seq<WorkerEvent>) {
    && |events| >= 2 && events[|events| - 1].Complete?
    && IsOutcome(events[|events| - 2]) && NoneOutcome(events[..|events| - 2])
  }

  /** Once an outcome was accepted, only completion can follow. */
  lemma {:induction false} OutcomeIsLast(events: seq<WorkerEvent>)
    requires Run(events).Some? && !Run(events).value.outcome.NoOutcome?
    ensures Run(events).value.complete ==> Finished(events)
    ensures !Run(events).value.complete ==>
              events != [] && IsOutcome(events[|events| - 1]) && NoneOutcome(events[..|events| - 1])
  {
    var n := |events| - 1;
    var before := Run(events[..n]).value;
    assert events == events[..n] + [events[n]];
    if before.outcome.NoOutcome? {
      RunExplains(events[..n]);
    } else {
      OutcomeIsLast(events[..n]);
      assert events[..n][..n - 1] == events[..n - 1];
    }
  }

  /** Events lost when the channel breaks leave a run that the monitor still accepts. */
  lemma {:induction false} PrefixAccepted(events: seq<WorkerEvent>, k: nat)
    requires Run(events).Some? && k <= |events|
    ensures Run(events[..k]).Some?
  {
    if k < |events| {
      PrefixAccepted(events[..|events| - 1], k);
      assert events[..|events| - 1][..k] == events[..k];
    } else {
      assert events[..k] == events;
    }
  }

  lemma {:induction false} SpawnedAt(events: seq<WorkerEvent>) returns (i: nat)
    requires Run(events).Some? && Run(events).value.pid.Some?
    ensures i < |events| && events[i] == SpawnedPid(Run(events).value.pid.value)
  {
    var n := |events| - 1;
    if Run(events[..n]).value.pid.Some? {
      i := SpawnedAt(events[..n]);
    } else {
      i := n;
    }
  }

  lemma {:induction false} ResumedAt(events: seq<WorkerEvent>) returns (i: nat, j: nat)
    requires Run(events).Some? && Run(events).value.resumed
    ensures i < j < |events| && Run(events).value.pid.Some?
    ensures events[i] == SpawnedPid(Run(events).value.pid.value)
    ensures events[j] == ProcessResumed(Run(events).value.pid.value)
  {
    var n := |events| - 1;
    if Run(events[..n]).value.resumed {
      i, j := ResumedAt(events[..n]);
    } else {
      i := SpawnedAt(events[..n]);
      j := n;
    }
  }

  /** In every accepted run a result comes after the resume of its process, which comes after its spawn, under one
      PID. */
  lemma {:induction false} ResultNeedsResume(events: seq<WorkerEvent>) returns (i: nat, j: nat, k: nat)
    requires Run(events).Some? && Run(events).value.outcome.ResultOutcome?
    ensures i < j < k < |events| && events[k].ResultEvent?
    ensures events[i] == SpawnedPid(events[k].pid) && events[j] == ProcessResumed(events[k].pid)
  {
    var n := |events| - 1;
    if Run(events[..n]).value.outcome.ResultOutcome? {
      i, j, k := ResultNeedsResume(events[..n]);
    } else {
      i, j := ResumedAt(events[..n]);
      k := n;
    }
  }

  // ----- the mailbox

  datatype ResumePhase = BeforeResume | Resuming | Resumed

  datatype Phase = WaitInitialized | WaitInstalled

  /** An agent message after the shape checks; `valid` says whether identity, status and scenes match the request. */
  datatype AgentMessage =
    | BadShape
    | ScriptError
    | AgentError
    | Initialized(generation: int, valid: bool)
    | Installed(generation: int, valid: bool)

  datatype Arrival = Message(message: AgentMessage) | Detached(terminated: bool)

  /** An arrival with the posting and resume phases at its time. */
  datatype Stamped = Stamped(arrival: Arrival, posted: bool, phase: ResumePhase)

  datatype Failure =
    | External
    | Timeout
    | RequestInvalid
    | Protocol
    | FromAgent
    | ProcessExited
    | SessionDetached
    | InstallFailed

  datatype Milestone = WasInitialized(generation: int) | WasResumed(pid: int) | WasInstalled(generation: int)

  function Reached(pid: int, generation: Option<int>, phase: ResumePhase, installed: bool): seq<Milestone> {
    match generation
    case None => []
    case Some(g) =>
      [WasInitialized(g)] + (if phase.Resumed? then [WasResumed(pid)] else [])
      + (if installed then [WasInstalled(g)] else [])
  }

  /** What a mailbox has come to know. */
  datatype Seen = Seen(pid: int, initialized: bool, installed: bool, generation: Option<int>, phase: ResumePhase)

  /** Why a message is refused, if it is. */
  function Refusal(s: Stamped, seen: Seen): Option<Failure>
    requires s.arrival.Message?
  {
    if !s.posted then Some(Protocol)
    else
      match s.arrival.message
      case BadShape => Some(Protocol)
      case ScriptError => Some(FromAgent)
      case AgentError => Some(FromAgent)
      case Initialized(g, valid) =>
        if seen.initialized || seen.installed || !valid || g <= 0 then Some(Protocol) else None
      case Installed(g, valid) =>
        if !seen.initialized || !s.phase.Resumed? || !seen.phase.Resumed? || seen.installed || !valid
           || Some(g) != seen.generation
        then Some(Protocol)
        else None
  }

  function Learned(seen: Seen, m: AgentMessage): Seen {
    match m
    case Initialized(g, _) => seen.(initialized := true, generation := Some(g))
    case Installed(_, _) => seen.(installed := true)
    case _ => seen
  }

  /** What a mailbox knows from the messages among these events, taken in order. */
  function Knowledge(pid: int, events: seq<Stamped>, phase: ResumePhase): Seen {
    if events == [] then Seen(pid, false, false, None, phase)
    else
      var before := Knowledge(pid, events[..|events| - 1], phase);
      var last := events[|events| - 1].arrival;
      if last.Message? then Learned(before, last.message) else before
  }

  /** Event `i` is a message that what was learned from the events before it lets pass. */
  predicate AcceptedAt(events: seq<Stamped>, i: nat, pid: int, phase: ResumePhase)
    requires i < |events|
  {
    events[i].arrival.Message? && Refusal(events[i], Knowledge(pid, events[..i], phase)).None?
  }

  predicate AllAccepted(events: seq<Stamped>, pid: int, phase: ResumePhase) {
    forall i :: 0 <= i < |events| ==> AcceptedAt(events, i, pid, phase)
  }

  /** These events were handled and accepted, and led to this knowledge. */
  predicate Knows(handled: seq<Stamped>, seen: Seen) {
    AllAccepted(handled, seen.pid, seen.phase) && Knowledge(seen.pid, handled, seen.phase) == seen
  }

  /** A receipt may stand in for the report of the installation. */
  predicate Remembers(handled: seq<Stamped>, seen: Seen) {
    Knows(handled, seen) || (seen.installed && Knows(handled, seen.(installed := false)))
  }

  lemma KnowsNothing(pid: int, phase: ResumePhase)
    ensures Knows([], Seen(pid, false, false, None, phase))
  {
  }

  lemma KnowsNext(handled: seq<Stamped>, seen: Seen, e: Stamped)
    requires Knows(handled, seen) && e.arrival.Message? && Refusal(e, seen).None?
    ensures Knows(handled + [e], Learned(seen, e.arrival.message))
  {
    hide Refusal, Knowledge, Learned;
    KnowledgeNext(seen.pid, handled, e, seen.phase);
    LearnedSame(seen, e.arrival.message);
    AcceptedNext(handled, seen, e);
  }

  lemma KnowledgeNext(pid: int, events: seq<Stamped>, e: Stamped, phase: ResumePhase)
    requires e.arrival.Message?
    ensures Knowledge(pid, events + [e], phase) == Learned(Knowledge(pid, events, phase), e.arrival.message)
  {
    hide Learned;
    assert (events + [e])[..|events|] == events;
  }

  lemma LearnedSame(seen: Seen, m: AgentMessage)
    ensures Learned(seen, m).pid == seen.pid && Learned(seen, m).phase == seen.phase
  {
  }

  lemma AcceptedNext(handled: seq<Stamped>, seen: Seen, e: Stamped)
    requires Knows(handled, seen) && e.arrival.Message? && Refusal(e, seen).None?
    ensures AllAccepted(handled + [e], seen.pid, seen.phase)
  {
    hide Refusal, Knowledge;
    var all := handled + [e];
    assert all[..|handled|] == handled;
    forall i | 0 <= i < |all| ensures AcceptedAt(all, i, seen.pid, seen.phase) {
      if i < |handled| {
        assert AcceptedAt(handled, i, seen.pid, seen.phase) && all[..i] == handled[..i];
      }
    }
  }

  lemma {:induction false} KnowledgeUnder(pid: int, events: seq<Stamped>, phase: ResumePhase, later: ResumePhase)
    ensures Knowledge(pid, events, phase).phase == phase
    ensures Knowledge(pid, events, later) == Knowledge(pid, events, phase).(phase := later)
  {
    if events != [] { KnowledgeUnder(pid, events[..|events| - 1], phase, later); }
  }

  /** What was accepted in an earlier resume phase is accepted in a later one. */
  lemma KnowsUnder(handled: seq<Stamped>, seen: Seen, later: ResumePhase)
    requires Knows(handled, seen) && (seen.phase.Resumed? ==> later.Resumed?)
    ensures Knows(handled, seen.(phase := later))
  {
    KnowledgeUnder(seen.pid, handled, seen.phase, later);
    forall i | 0 <= i < |handled| ensures AcceptedAt(handled, i, seen.pid, later) {
      assert AcceptedAt(handled, i, seen.pid, seen.phase);
      KnowledgeUnder(seen.pid, handled[..i], seen.phase, later);
    }
  }

  lemma RemembersUnder(handled: seq<Stamped>, seen: Seen, later: ResumePhase)
    requires Remembers(handled, seen) && (seen.phase.Resumed? ==> later.Resumed?)
    ensures Remembers(handled, seen.(phase := later))
  {
    hide Knows;
    if Knows(handled, seen) {
      KnowsUnder(handled, seen, later);
    } else {
      KnowsUnder(handled, seen.(installed := false), later);
    }
  }

  function StampAll(batch: seq<Arrival>, posted: bool, phase: ResumePhase): seq<Stamped> {
    seq(|batch|, i requires 0 <= i < |batch| => Stamped(batch[i], posted, phase))
  }

  class Mailbox {
    const pid: int
    var events: seq<Stamped>
    var posted: bool
    var resumePhase: ResumePhase
    var initialized: bool
    var installed: bool
    var detached: Option<bool>
    var generation: Option<int>
    ghost var milestones: seq<Milestone>
    ghost var handled: seq<Stamped>

    /** The flags tell what happened: initialization, then the resume, then the installation. They follow from the
        messages handled. */
    ghost predicate Valid()
      reads this
    {
      && (initialized <==> generation.Some?) && (generation.Some? ==> generation.value > 0)
      && (resumePhase.Resumed? ==> initialized) && (installed ==> resumePhase.Resumed?)
      && milestones == Reached(pid, generation, resumePhase, installed)
      && Remembers(handled, Now())
    }

    ghost function Now(): Seen
      reads this
    {
      Seen(pid, initialized, installed, generation, resumePhase)
    }

    constructor (pid: int)
      ensures Valid() && this.pid == pid && !initialized && !installed && resumePhase.BeforeResume?
      ensures events == [] && !posted && detached.None? && handled == []
    {
      this.pid, events, posted, resumePhase, initialized, installed := pid, [], false, BeforeResume, false, false;
      detached, generation, milestones, handled := None, None, [], [];
      new;
      KnowsNothing(pid, BeforeResume);
    }

    method MarkPosted()
      requires Valid()
      modifies `posted
      ensures Valid() && posted
    {
      posted := true;
    }

    method MarkResumeStarted()
      requires Valid() && !resumePhase.Resumed?
      modifies `resumePhase
      ensures Valid() && resumePhase == Resuming
    {
      hide Remembers;
      RemembersUnder(handled, Now(), Resuming);
      resumePhase := Resuming;
    }

    method MarkResumed()
      requires Valid() && initialized && resumePhase.Resuming?
      modifies `resumePhase, `milestones
      ensures Valid() && resumePhase == Resumed && milestones == old(milestones) + [WasResumed(pid)]
    {
      hide Remembers;
      RemembersUnder(handled, Now(), Resumed);
      resumePhase := Resumed;
      milestones := milestones + [WasResumed(pid)];
    }

    /** A native receipt stands in for the agent's report. */
    method MarkInstalled()
      requires Valid() && resumePhase.Resumed? && !installed
      modifies `installed, `milestones
      ensures Valid() && installed && milestones == old(milestones) + [WasInstalled(generation.value)]
    {
      hide Knows;
      installed := true;
      milestones := milestones + [WasInstalled(generation.value)];
      assert Now().(installed := false) == old(Now());
    }

    /** Queue a batch under the current phases, noting a detachment at once. */
    method Receive(batch: seq<Arrival>)
      requires Valid()
      modifies `events, `detached
      ensures Valid() && events == old(events) + StampAll(batch, posted, resumePhase)
      ensures detached == old(detached) || (detached.Some? && Detached(detached.value) in batch)
    {
      hide Remembers;
      for i := 0 to |batch|
        invariant Valid() && events == old(events) + StampAll(batch, posted, resumePhase)[..i]
        invariant detached == old(detached) || (detached.Some? && Detached(detached.value) in batch)
      {
        ghost var all := StampAll(batch, posted, resumePhase);
        assert all[..i + 1] == all[..i] + [Stamped(batch[i], posted, resumePhase)];
        if batch[i].Detached? { detached := Some(batch[i].terminated); }
        events := events + [Stamped(batch[i], posted, resumePhase)];
      }
    }

    /** Judge one message. */
    method Accept(s: Stamped) returns (failure: Option<Failure>)
      requires Valid() && s.arrival.Message?
      modifies `initialized, `installed, `generation, `milestones, `handled
      ensures Valid() && failure == Refusal(s, old(Now()))
      ensures handled == if failure.Some? then old(handled) else old(handled) + [s]
      ensures failure.None? ==> Knows(handled, Now())
      ensures Now() == if failure.Some? then old(Now()) else Learned(old(Now()), s.arrival.message)
      ensures failure.Some? ==> failure.value in {Protocol, FromAgent} && milestones == old(milestones)
      ensures failure.None? ==> milestones == old(milestones) + match s.arrival.message {
                case Initialized(g, _) => [WasInitialized(g)]
                case Installed(g, _) => [WasInstalled(g)]
                case _ => []
              }
    {
      hide Knows;
      if !s.posted { return Some(Protocol); }
      match s.arrival.message {
        case BadShape => return Some(Protocol);
        case ScriptError => return Some(FromAgent);
        case AgentError => return Some(FromAgent);
        case Initialized(g, valid) =>
          if initialized || installed { return Some(Protocol); }
          if !valid || g <= 0 { return Some(Protocol); }
          KnowsNext(handled, Now(), s);
          handled := handled + [s];
          generation := Some(g);
          initialized := true;
          milestones := milestones + [WasInitialized(g)];
          return None;
        case Installed(g, valid) =>
          if !initialized { return Some(Protocol); }
          if !s.phase.Resumed? || !resumePhase.Resumed? { return Some(Protocol); }
          if installed { return Some(Protocol); }
          if !valid || Some(g) != generation { return Some(Protocol); }
          KnowsNext(handled, Now(), s);
          handled := handled + [s];
          installed := true;
          milestones := milestones + [WasInstalled(g)];
          return None;
      }
    }
  }

  // ----- the outside

  datatype Receipt = NoReceipt | BadReceipt | Status(generation: int, pid: int, matches: bool, failed: bool)

  /** What an external call does: raise, or return a value or a status file. */
  datatype Reply = Reply(raises: bool, value: int, receipt: Receipt)

  /** What the worker does in one step: an external call, or a wait. */
  datatype Action =
    | GetDevice
    | Spawn
    | Attach
    | OnDetached
    | CreateScript
    | OnMessage
    | Load
    | Post
    | Wait(phase: Phase)
    | Unload
    | Detach
    | Resume
    | ReadStatus
    | Abort
    | WaitExit

  /** The outside world; its clock counts the worker's steps. */
  class World {
    const replies: nat -> Reply
    const arrivals: nat -> seq<Arrival>
    var step: nat
    ghost var log: seq<Action>

    ghost predicate Valid()
      reads this
    {
      step == |log|
    }

    constructor (replies: nat -> Reply, arrivals: nat -> seq<Arrival>)
      ensures Valid() && this.replies == replies && this.arrivals == arrivals && step == 0
    {
      this.replies, this.arrivals, step, log := replies, arrivals, 0, [];
    }

    method Call(action: Action) returns (r: Reply)
      requires Valid()
      modifies this
      ensures Valid() && r == replies(old(step)) && log == old(log) + [action]
    {
      r := replies(step);
      step := step + 1;
      log := log + [action];
    }

    /** A step while a session may deliver messages. */
    method CallWith(action: Action, mailbox: Mailbox) returns (r: Reply)
      requires Valid() && mailbox.Valid()
      modifies this, mailbox`events, mailbox`detached
      ensures Valid() && r == replies(old(step)) && log == old(log) + [action] && mailbox.Valid()
      ensures mailbox.events
              == old(mailbox.events) + StampAll(arrivals(old(step)), mailbox.posted, mailbox.resumePhase)
      ensures || mailbox.detached == old(mailbox.detached)
              || (mailbox.detached.Some? && Detached(mailbox.detached.value) in arrivals(old(step)))
    {
      mailbox.Receive(arrivals(step));
      r := Call(action);
    }
  }

  // ----- reading the log

  datatype Plan = Plan(detachBeforeResume: bool, envelopeFits: bool, deadline: nat, cleanupDeadline: nat)

  /** What a setup meets: the outside, its plan, and the step at which it starts. */
  datatype Setting = Setting(replies: nat -> Reply, arrivals: nat -> seq<Arrival>, plan: Plan, from: nat)

  ghost predicate Fits(world: World, plan: Plan, env: Setting) {
    env.replies == world.replies && env.arrivals == world.arrivals && env.plan == plan
  }

  ghost predicate Has(log: seq<Action>, from: nat, to: int, action: Action)
    requires to <= |log|
  {
    exists t :: from <= t < to && log[t] == action
  }

  /** The resume phase while step `s` runs. */
  ghost function PhaseAt(log: seq<Action>, from: nat, s: nat): ResumePhase
    requires s < |log|
  {
    if log[s] == Resume then Resuming else if Has(log, from, s, Resume) then Resumed else BeforeResume
  }

  /** The arrival came during one of the steps since `from` and is stamped with the phases of that step. */
  ghost predicate Delivered(log: seq<Action>, env: Setting, e: Stamped) {
    exists s :: && env.from <= s < |log| && e.arrival in env.arrivals(s)
                && (e.posted <==> Has(log, env.from, s + 1, Post)) && e.phase == PhaseAt(log, env.from, s)
  }

  /** From an early detachment on the mailbox is not looked at again. */
  ghost predicate Deaf(log: seq<Action>, env: Setting) {
    env.plan.detachBeforeResume && Has(log, env.from, |log|, Unload)
  }

  /** Everything that arrives for the worker to look at, in order, with the phases of its step; the mailbox exists once
      the third call, the attachment, returned. */
  ghost function Heard(log: seq<Action>, env: Setting): seq<Stamped> {
    if |log| <= env.from + 3 then []
    else
      var n := |log| - 1;
      Heard(log[..n], env) +
      if Deaf(log, env) then []
      else StampAll(env.arrivals(n), Has(log, env.from, n + 1, Post), PhaseAt(log, env.from, n))
  }

  lemma {:induction false} HeardWasDelivered(log: seq<Action>, env: Setting, i: nat)
    requires i < |Heard(log, env)|
    ensures Delivered(log, env, Heard(log, env)[i])
  {
    hide Has;
    var n := |log| - 1;
    var front := Heard(log[..n], env);
    if i < |front| {
      HeardWasDelivered(log[..n], env, i);
      DeliveredLater(log[..n], log, env, front[i]);
    } else {
      assert Heard(log, env)[i].arrival in env.arrivals(n);
    }
  }

  lemma DeliveredLater(log: seq<Action>, later: seq<Action>, env: Setting, e: Stamped)
    requires Delivered(log, env, e) && log <= later
    ensures Delivered(later, env, e)
  {
    var s :| && env.from <= s < |log| && e.arrival in env.arrivals(s)
             && (e.posted <==> Has(log, env.from, s + 1, Post)) && e.phase == PhaseAt(log, env.from, s);
    SameHas(log, later, env.from, s + 1, Post);
    SameHas(log, later, env.from, s, Resume);
    assert later[s] == log[s];
  }

  lemma SameHas(log: seq<Action>, later: seq<Action>, from: nat, to: nat, action: Action)
    requires log <= later && to <= |log|
    ensures Has(log, from, to, action) <==> Has(later, from, to, action)
  {
    if Has(log, from, to, action) {
      var t :| from <= t < to && log[t] == action;
      assert later[t] == action;
    }
  }

  lemma HasNext(log: seq<Action>, from: nat, a: Action, action: Action)
    requires from <= |log|
    ensures Has(log + [a], from, |log| + 1, action) <==> Has(log, from, |log|, action) || a == action
  {
    SameHas(log, log + [a], from, |log|, action);
    assert (log + [a])[|log|] == a;
    if Has(log + [a], from, |log| + 1, action) && a != action {
      var t :| from <= t < |log| + 1 && (log + [a])[t] == action;
      assert log[t] == action;
    }
  }

  /** The mailbox is marked as the next action needs it. */
  ghost predicate Marked(log: seq<Action>, env: Setting, posted: bool, phase: ResumePhase, action: Action) {
    && (posted <==> Has(log, env.from, |log|, Post) || action == Post)
    && phase == if action == Resume then Resuming
                else if Has(log, env.from, |log|, Resume) then Resumed else BeforeResume
  }

  /** The queue holds what is left of everything heard, unless it is not looked at again. */
  ghost predicate Queued(log: seq<Action>, env: Setting, handled: seq<Stamped>, events: seq<Stamped>) {
    Heard(log, env) == if Deaf(log, env) then handled else handled + events
  }

  lemma QueuedNext(log: seq<Action>, env: Setting, handled: seq<Stamped>, events: seq<Stamped>, posted: bool,
                   phase: ResumePhase, action: Action)
    requires Queued(log, env, handled, events) && env.from + 3 <= |log| && Marked(log, env, posted, phase, action)
    requires action == Unload ==> events == []
    ensures Queued(log + [action], env, handled, events + StampAll(env.arrivals(|log|), posted, phase))
  {
    hide Has, StampAll;
    var later, more := log + [action], StampAll(env.arrivals(|log|), posted, phase);
    HasNext(log, env.from, action, Post);
    HasNext(log, env.from, action, Unload);
    SameHas(log, later, env.from, |log|, Resume);
    assert later[|log|] == action && later[..|log|] == log && PhaseAt(later, env.from, |log|) == phase;
    assert handled + events + more == handled + (events + more) && handled + [] == handled;
  }

  /** Which action may come next in the setup. */
  predicate MayFollow(plan: Plan, last: Option<Action>, action: Action) {
    match last
    case None => action == GetDevice
    case Some(GetDevice) => action == Spawn
    case Some(Spawn) => action == Attach
    case Some(Attach) => action == OnDetached
    case Some(OnDetached) => action == CreateScript
    case Some(CreateScript) => action == OnMessage
    case Some(OnMessage) => action == Load
    case Some(Load) => action == Post
    case Some(Post) => action == Wait(WaitInitialized) || action == if plan.detachBeforeResume then Unload else Resume
    case Some(Wait(WaitInitialized)) =>
      action == Wait(WaitInitialized) || action == if plan.detachBeforeResume then Unload else Resume
    case Some(Unload) => action == Detach
    case Some(Detach) => action == Resume
    case Some(Resume) => action == if plan.detachBeforeResume then ReadStatus else Wait(WaitInstalled)
    case Some(Wait(WaitInstalled)) => action == Wait(WaitInstalled)
    case Some(ReadStatus) => action == ReadStatus
    case _ => false
  }

  function Last(log: seq<Action>, env: Setting): Option<Action> {
    if |log| > env.from then Some(log[|log| - 1]) else None
  }

  predicate FollowsAt(log: seq<Action>, env: Setting, s: nat)
    requires s < |log|
  {
    MayFollow(env.plan, if s > env.from then Some(log[s - 1]) else None, log[s])
  }

  /** The call of step `s` failed. */
  ghost predicate Raised(log: seq<Action>, env: Setting, s: nat)
    requires s < |log|
  {
    (!log[s].Wait? && env.replies(s).raises) || (log[s] == Spawn && env.replies(s).value <= 0)
  }

  /** Since step `from` the setup made its calls in order, and all but the last of them succeeded. */
  ghost predicate Orderly(log: seq<Action>, env: Setting) {
    && env.from <= |log|
    && (forall s :: env.from <= s < |log| ==> FollowsAt(log, env, s))
    && (forall s :: env.from <= s < |log| - 1 ==> !Raised(log, env, s))
  }

  /** All of them succeeded. */
  ghost predicate Smooth(log: seq<Action>, env: Setting) {
    Orderly(log, env) && (|log| > env.from ==> !Raised(log, env, |log| - 1))
  }

  lemma OrderlyNext(log: seq<Action>, env: Setting, action: Action)
    requires Smooth(log, env) && MayFollow(env.plan, Last(log, env), action)
    ensures Orderly(log + [action], env) && Last(log + [action], env) == Some(action)
    ensures Smooth(log + [action], env) <==> !Raised(log + [action], env, |log|)
  {
    hide MayFollow;
    var later := log + [action];
    forall s | env.from <= s < |later| ensures FollowsAt(later, env, s) {
      if s < |log| { assert FollowsAt(log, env, s); }
    }
    forall s | env.from <= s < |later| - 1 ensures !Raised(later, env, s) {
      assert !Raised(log, env, s) && later[s] == log[s];
    }
  }

  // ----- the worker's own state

  /** The worker's handles and phase flags, and the events it sent. */
  datatype Local = Local(pid: Option<int>, session: bool, script: bool, loaded: bool, resumed: bool,
                         earlyDetached: bool, sent: seq<WorkerEvent>)

  const NOTHING: Local := Local(None, false, false, false, false, false, [])

  /** What one call makes of the worker's state. */
  function Update(l: Local, action: Action, reply: Reply): Local {
    if reply.raises then l
    else
      match action
      case Spawn =>
        if reply.value <= 0 then l
        else l.(pid := Some(reply.value), sent := l.sent + [SpawnedPid(reply.value)])
      case Attach => l.(session := true)
      case CreateScript => l.(script := true)
      case Load => l.(loaded := true)
      case Unload => l.(script := false, loaded := false)
      case Detach => l.(session := false, earlyDetached := true)
      case Resume => if l.pid.None? then l else l.(resumed := true, sent := l.sent + [ProcessResumed(l.pid.value)])
      case _ => l
  }

  /** The state that the calls since `from` lead to. */
  function LocalAfter(log: seq<Action>, env: Setting): Local {
    if |log| <= env.from then NOTHING
    else Update(LocalAfter(log[..|log| - 1], env), log[|log| - 1], env.replies(|log| - 1))
  }

  lemma LocalNext(log: seq<Action>, env: Setting, action: Action)
    requires env.from <= |log|
    ensures LocalAfter(log + [action], env) == Update(LocalAfter(log, env), action, env.replies(|log|))
  {
    assert (log + [action])[..|log|] == log;
  }

  /** The events before the cleanup. */
  function Opening(pid: Option<int>, resumed: bool): seq<WorkerEvent> {
    match pid
    case None => []
    case Some(p) => if resumed then [SpawnedPid(p), ProcessResumed(p)] else [SpawnedPid(p)]
  }

  ghost predicate Opened(l: Local) {
    && l.sent == Opening(l.pid, l.resumed) && (l.resumed ==> l.pid.Some?) && (l.pid.Some? ==> l.pid.value > 0)
  }

  /** Every setup resumes at most once and after the spawn, so its events are the opening of a protocol run. */
  lemma {:induction false} SetupOpens(log: seq<Action>, env: Setting)
    requires Orderly(log, env)
    ensures Opened(LocalAfter(log, env))
    ensures var l := LocalAfter(log, env);
            && (l.pid.Some? ==> |log| > env.from + 1 && l.pid.value == env.replies(env.from + 1).value)
            && (l.resumed ==> Has(log, env.from, |log|, Resume))
            && (|log| <= env.from + 1 ==> l == NOTHING)
            && (|log| > env.from + 1 ==> log[env.from + 1] == Spawn)
  {
    if |log| > env.from {
      var n := |log| - 1;
      OrderlyPrefix(log, env);
      SetupOpens(log[..n], env);
      PlaceOf(log, env);
      SameHas(log[..n], log, env.from, n, Resume);
      if log[n] == Resume && Has(log, env.from, n, Resume) { ResumeOnce(log, env); }
    }
  }

  lemma OrderlyPrefix(log: seq<Action>, env: Setting)
    requires Orderly(log, env) && |log| > env.from
    ensures Orderly(log[..|log| - 1], env)
  {
    hide MayFollow;
    var shorter := log[..|log| - 1];
    forall s | env.from <= s < |shorter| ensures FollowsAt(shorter, env, s) {
      assert FollowsAt(log, env, s);
    }
    forall s | env.from <= s < |shorter| - 1 ensures !Raised(shorter, env, s) {
      assert !Raised(log, env, s);
    }
  }

  function Position(action: Action): nat {
    match action
    case GetDevice => 0
    case Spawn => 1
    case Attach => 2
    case OnDetached => 3
    case CreateScript => 4
    case OnMessage => 5
    case Load => 6
    case Post => 7
    case Wait(WaitInitialized) => 8
    case Unload => 9
    case Detach => 10
    case Resume => 11
    case Wait(WaitInstalled) => 12
    case ReadStatus => 12
    case _ => 13
  }

  /** The calls up to the posting come at fixed steps; the later ones after them, in the order of their positions. */
  lemma {:induction false} PlaceOf(log: seq<Action>, env: Setting)
    requires Orderly(log, env) && |log| > env.from
    ensures var a := log[|log| - 1];
            if |log| <= env.from + 8 then Position(a) == |log| - 1 - env.from else Position(a) >= 8
    ensures forall t :: env.from <= t < |log| ==> Position(log[t]) <= Position(log[|log| - 1])
    ensures log[|log| - 1] == Resume ==> forall t :: env.from <= t < |log| - 1 ==> log[t] != Resume
  {
    hide Position, MayFollow, Orderly;
    var n := |log| - 1;
    OrderlyAt(log, env, n);
    if n > env.from {
      OrderlyPrefix(log, env);
      PlaceOf(log[..n], env);
      forall t | env.from <= t < n ensures Position(log[t]) <= Position(log[n - 1]) {
        assert log[..n][t] == log[t];
      }
      PositionRises(env.plan, log[n - 1], log[n]);
    } else {
      FirstPosition(env.plan, log[n]);
    }
  }

  lemma OrderlyAt(log: seq<Action>, env: Setting, s: nat)
    requires Orderly(log, env) && env.from <= s < |log|
    ensures FollowsAt(log, env, s)
  {
  }

  lemma FirstPosition(plan: Plan, action: Action)
    requires MayFollow(plan, None, action)
    ensures Position(action) == 0 && action != Resume
  {
  }

  lemma PositionRises(plan: Plan, last: Action, action: Action)
    requires MayFollow(plan, Some(last), action)
    ensures Position(last) <= Position(action)
    ensures if Position(last) < 7 then Position(action) == Position(last) + 1 else Position(action) >= 8
    ensures action == Resume ==> Position(last) < Position(Resume)
  {
  }

  lemma ResumeOnce(log: seq<Action>, env: Setting)
    requires Orderly(log, env) && |log| > env.from && log[|log| - 1] == Resume
    ensures !Has(log, env.from, |log| - 1, Resume)
  {
    PlaceOf(log, env);
  }

  // ----- why a setup fails

  /** The PID that the spawning call returned. */
  function Pid(env: Setting): int { env.replies(env.from + 1).value }

  /** The resume phase after the log. */
  ghost function PhaseNow(log: seq<Action>, env: Setting): ResumePhase {
    if Has(log, env.from, |log|, Resume) then Resumed else BeforeResume
  }

  /** Everything heard was handled and accepted. */
  ghost predicate AllHeardAccepted(log: seq<Action>, env: Setting) {
    AllAccepted(Heard(log, env), Pid(env), PhaseNow(log, env))
  }

  /** What everything heard amounts to. */
  ghost function Known(log: seq<Action>, env: Setting): Seen {
    Knowledge(Pid(env), Heard(log, env), PhaseNow(log, env))
  }

  /** The mailbox is looked at after this step. */
  predicate Looking(plan: Plan, last: Option<Action>) {
    last == Some(Post) || (last == Some(Resume) && !plan.detachBeforeResume) || (last.Some? && last.value.Wait?)
  }

  /** The setup has not got what it waits for. */
  ghost predicate Waiting(log: seq<Action>, env: Setting) {
    match Last(log, env)
    case None => true
    case Some(Load) => true
    case Some(Post) => AllHeardAccepted(log, env) && !Known(log, env).initialized
    case Some(Wait(WaitInitialized)) => AllHeardAccepted(log, env) && !Known(log, env).initialized
    case Some(Resume) => AllHeardAccepted(log, env) && !Known(log, env).installed
    case Some(Wait(WaitInstalled)) => AllHeardAccepted(log, env) && !Known(log, env).installed
    case Some(ReadStatus) => env.replies(|log| - 1).receipt == NoReceipt
    case _ => false
  }

  /** The status file read last is not a receipt for this process and the generation it reported. */
  ghost predicate BadStatus(log: seq<Action>, env: Setting) {
    && Last(log, env) == Some(ReadStatus) && AllHeardAccepted(log, env)
    && match env.replies(|log| - 1).receipt
       case NoReceipt => false
       case BadReceipt => true
       case Status(g, p, matches, _) => Some(g) != Known(log, env).generation || p != Pid(env) || !matches
  }

  /** All events are messages, those before the `k`th were accepted, and what they taught refuses that one. */
  predicate RefusedAt(events: seq<Stamped>, k: nat, pid: int, phase: ResumePhase, failure: Failure) {
    && k < |events| && (forall i :: 0 <= i < |events| ==> events[i].arrival.Message?)
    && AllAccepted(events[..k], pid, phase)
    && Refusal(events[k], Knowledge(pid, events[..k], phase)) == Some(failure)
  }

  /** The first message heard that was not accepted is refused for this reason. */
  ghost predicate Refused(log: seq<Action>, env: Setting, failure: Failure) {
    && Looking(env.plan, Last(log, env))
    && exists k :: RefusedAt(Heard(log, env), k, Pid(env), PhaseNow(log, env), failure)
  }

  /** The first detachment heard. */
  ghost predicate Parted(log: seq<Action>, env: Setting, terminated: bool) {
    Looking(env.plan, Last(log, env)) && FirstDetached(Heard(log, env)) == Some(terminated)
  }

  /** The last call succeeded. */
  ghost predicate Returned(log: seq<Action>, env: Setting) {
    |log| > env.from ==> !Raised(log, env, |log| - 1)
  }

  /** The cause of each kind of failure, in the plan and in what the outside did. */
  ghost predicate Caused(failure: Failure, log: seq<Action>, env: Setting) {
    if failure.External? then !Returned(log, env)
    else
      && Returned(log, env)
      && match failure
         case Timeout => |log| >= env.plan.deadline && Waiting(log, env)
         case RequestInvalid =>
           |log| < env.plan.deadline && !env.plan.envelopeFits && Last(log, env) == Some(Load)
         case Protocol => Refused(log, env, Protocol) || BadStatus(log, env)
         case FromAgent => Refused(log, env, FromAgent)
         case ProcessExited => Parted(log, env, true)
         case SessionDetached => Parted(log, env, false)
         case InstallFailed =>
           && Last(log, env) == Some(ReadStatus) && AllHeardAccepted(log, env)
           && Known(log, env).generation.Some?
           && env.replies(|log| - 1).receipt == Status(Known(log, env).generation.value, Pid(env), true, true)
         case _ => false
  }

  /** At most one message is the first refused one. */
  lemma RefusedOnce(events: seq<Stamped>, j: nat, k: nat, pid: int, phase: ResumePhase, a: Failure, b: Failure)
    requires RefusedAt(events, j, pid, phase, a) && RefusedAt(events, k, pid, phase, b)
    ensures j == k && a == b
  {
    if j < k {
      RefusedNotAccepted(events[..k], events, j, pid, phase, a);
    } else if k < j {
      RefusedNotAccepted(events[..j], events, k, pid, phase, b);
    }
  }

  lemma RefusedNotAccepted(front: seq<Stamped>, events: seq<Stamped>, k: nat, pid: int, phase: ResumePhase,
                           failure: Failure)
    requires RefusedAt(events, k, pid, phase, failure) && front <= events && k < |front|
    ensures !AllAccepted(front, pid, phase)
  {
    assert front[..k] == events[..k];
    assert !AcceptedAt(front, k, pid, phase);
  }

  /** The kinds that rest on what was heard exclude each other. */
  lemma HeardOneWay(log: seq<Action>, env: Setting)
    ensures Refused(log, env, Protocol) ==> !Refused(log, env, FromAgent)
    ensures Refused(log, env, Protocol) || Refused(log, env, FromAgent) ==>
              !AllHeardAccepted(log, env) && !Parted(log, env, true) && !Parted(log, env, false)
    ensures Parted(log, env, true) || Parted(log, env, false) ==> !AllHeardAccepted(log, env)
  {
    hide Heard, Knowledge, Refusal, Has, Looking;
    var heard, pid, phase := Heard(log, env), Pid(env), PhaseNow(log, env);
    DetachedAt(heard);
    forall j, k, a, b | RefusedAt(heard, j, pid, phase, a) && RefusedAt(heard, k, pid, phase, b) ensures a == b {
      RefusedOnce(heard, j, k, pid, phase, a, b);
    }
    forall k, a | RefusedAt(heard, k, pid, phase, a) ensures !AllAccepted(heard, pid, phase) {
      RefusedNotAccepted(heard, heard, k, pid, phase, a);
    }
    forall i | 0 <= i < |heard| && !heard[i].arrival.Message? ensures !AllAccepted(heard, pid, phase) {
      assert !AcceptedAt(heard, i, pid, phase);
    }
  }

  /** A run has at most one cause: the kind of a failure is determined by what the outside did. */
  lemma CauseIsUnique(log: seq<Action>, env: Setting, a: Failure, b: Failure)
    requires Caused(a, log, env) && Caused(b, log, env)
    ensures a == b
  {
    hide Heard, AllHeardAccepted, Known, Refused, Parted, Raised;
    HeardOneWay(log, env);
    PartedOnce(log, env);
    LookingOnly(log, env);
  }

  lemma PartedOnce(log: seq<Action>, env: Setting)
    ensures !(Parted(log, env, true) && Parted(log, env, false))
  {
  }

  lemma LookingOnly(log: seq<Action>, env: Setting)
    ensures Refused(log, env, Protocol) || Refused(log, env, FromAgent) ==> Looking(env.plan, Last(log, env))
    ensures Parted(log, env, true) || Parted(log, env, false) ==> Looking(env.plan, Last(log, env))
  {
  }

  /** A noted detachment arrived. */
  ghost predicate Parting(log: seq<Action>, env: Setting, detached: Option<bool>) {
    detached.Some? ==> exists s :: env.from <= s < |log| && Detached(detached.value) in env.arrivals(s)
  }

  lemma PartingNext(log: seq<Action>, later: seq<Action>, env: Setting, detached: Option<bool>, after: Option<bool>)
    requires Parting(log, env, detached) && log <= later && env.from <= |log| < |later|
    requires after == detached || (after.Some? && Detached(after.value) in env.arrivals(|log|))
    ensures Parting(later, env, after)
  {
  }

  /** The setup goes on: its calls succeeded so far and led to this state, and the queue holds what is left to
      handle. */
  ghost predicate Going(log: seq<Action>, env: Setting, l: Local, handled: seq<Stamped>, events: seq<Stamped>) {
    env.from + 3 <= |log| && Smooth(log, env) && l == LocalAfter(log, env) && Queued(log, env, handled, events)
  }

  /** The setup stopped: its calls led to this state, and the failure has its cause. */
  ghost predicate Stopped(failure: Failure, log: seq<Action>, env: Setting, l: Local) {
    Orderly(log, env) && l == LocalAfter(log, env) && Caused(failure, log, env)
  }

  lemma GoingNext(log: seq<Action>, env: Setting, l: Local, handled: seq<Stamped>, events: seq<Stamped>, posted: bool,
                  phase: ResumePhase, action: Action)
    requires Going(log, env, l, handled, events) && MayFollow(env.plan, Last(log, env), action)
    requires Marked(log, env, posted, phase, action) && (action == Unload ==> events == [])
    ensures var later, after := log + [action], Update(l, action, env.replies(|log|));
            && Last(later, env) == Some(action)
            && (if Raised(later, env, |log|) then Stopped(External, later, env, after)
                else Going(later, env, after, handled, events + StampAll(env.arrivals(|log|), posted, phase)))
  {
    hide LocalAfter, Update, MayFollow, Marked, Queued, Orderly, StampAll;
    OrderlyNext(log, env, action);
    LocalNext(log, env, action);
    QueuedNext(log, env, handled, events, posted, phase, action);
  }

  /** One step of the setup. */
  method Try(world: World, mailbox: Mailbox, plan: Plan, ghost env: Setting, ghost before: Local, action: Action)
    returns (reply: Reply)
    requires Fits(world, plan, env) && world.Valid() && mailbox.Valid()
    requires Going(world.log, env, before, mailbox.handled, mailbox.events) && Parting(world.log, env, mailbox.detached)
    requires MayFollow(plan, Last(world.log, env), action) && action != Spawn
    requires action == Unload ==> mailbox.events == []
    requires Marked(world.log, env, mailbox.posted, mailbox.resumePhase, action)
    modifies world, mailbox`events, mailbox`detached
    ensures world.Valid() && mailbox.Valid() && mailbox.milestones == old(mailbox.milestones)
    ensures reply == env.replies(old(world.step)) && world.log == old(world.log) + [action]
    ensures Last(world.log, env) == Some(action) && Parting(world.log, env, mailbox.detached)
    ensures mailbox.events
            == old(mailbox.events) + StampAll(env.arrivals(old(world.step)), mailbox.posted, mailbox.resumePhase)
    ensures if reply.raises && !action.Wait?
            then Stopped(External, world.log, env, Update(before, action, reply))
            else Going(world.log, env, Update(before, action, reply), mailbox.handled, mailbox.events)
  {
    hide Reached, Remembers, LocalAfter, Update, MayFollow, Marked, Parting, Going, Stopped, StampAll, Has;
    ghost var log := world.log;
    GoingNext(log, env, before, mailbox.handled, mailbox.events, mailbox.posted, mailbox.resumePhase, action);
    GoingFrom(log, env, before, mailbox.handled, mailbox.events);
    reply := world.CallWith(action, mailbox);
    PartingNext(log, world.log, env, old(mailbox.detached), mailbox.detached);
  }

  lemma GoingFrom(log: seq<Action>, env: Setting, l: Local, handled: seq<Stamped>, events: seq<Stamped>)
    requires Going(log, env, l, handled, events)
    ensures env.from + 3 <= |log| && Orderly(log, env) && Returned(log, env) && l == LocalAfter(log, env)
    ensures Heard(log, env) == if Deaf(log, env) then handled else handled + events
  {
  }

  /** Once the queue is handled, everything heard is. */
  lemma GoingHandled(log: seq<Action>, env: Setting, l: Local, handled: seq<Stamped>, events: seq<Stamped>)
    requires Going(log, env, l, handled, events) && !Deaf(log, env)
    ensures Heard(log, env) == handled + events && Going(log, env, l, handled + events, [])
  {
    hide Smooth, LocalAfter, Heard, Deaf;
    assert handled + events + [] == handled + events;
  }

  function FirstDetached(events: seq<Stamped>): Option<bool> {
    if events == [] then None
    else
      match FirstDetached(events[..|events| - 1])
      case Some(t) => Some(t)
      case None => var last := events[|events| - 1].arrival; if last.Detached? then Some(last.terminated) else None
  }

  /** The first detachment of a batch is one of its events; without one all are messages. */
  lemma {:induction false} DetachedAt(events: seq<Stamped>)
    ensures match FirstDetached(events)
            case None => forall i :: 0 <= i < |events| ==> events[i].arrival.Message?
            case Some(t) => exists i :: 0 <= i < |events| && events[i].arrival == Detached(t)
  {
    if events != [] {
      var front := events[..|events| - 1];
      DetachedAt(front);
      if FirstDetached(front).Some? {
        var i :| 0 <= i < |front| && front[i].arrival == Detached(FirstDetached(front).value);
        assert events[i].arrival == front[i].arrival;
      } else {
        assert forall i :: 0 <= i < |front| ==> events[i] == front[i];
        assert events[|events| - 1].arrival.Detached? ==> FirstDetached(events).Some?;
      }
    }
  }

  lemma {:induction false} FirstDetachedLater(handled: seq<Stamped>, events: seq<Stamped>)
    requires forall i :: 0 <= i < |handled| ==> handled[i].arrival.Message?
    ensures FirstDetached(handled + events) == FirstDetached(events)
  {
    var all := handled + events;
    if events == [] {
      assert all == handled;
      DetachedAt(handled);
    } else {
      FirstDetachedLater(handled, events[..|events| - 1]);
      assert all[..|all| - 1] == handled + events[..|events| - 1];
    }
  }

  /** The agent's report of this milestone was heard in its phase. */
  ghost predicate Reported(log: seq<Action>, env: Setting, phase: Phase, generation: int) {
    ReportedIn(Heard(log, env), phase, generation)
  }

  predicate ReportedIn(events: seq<Stamped>, phase: Phase, generation: int) {
    exists i :: 0 <= i < |events| && Reports(events[i], phase, generation)
  }

  predicate Reports(e: Stamped, phase: Phase, generation: int) {
    && e.posted
    && match phase
       case WaitInitialized => e.arrival == Message(Initialized(generation, true))
       case WaitInstalled => e.arrival == Message(Installed(generation, true)) && e.phase.Resumed?
  }

  lemma ReportedLater(front: seq<Stamped>, e: Stamped, phase: Phase, generation: int)
    requires ReportedIn(front, phase, generation) || Reports(e, phase, generation)
    ensures ReportedIn(front + [e], phase, generation)
  {
    hide Reports;
    var all := front + [e];
    if ReportedIn(front, phase, generation) {
      var i :| 0 <= i < |front| && Reports(front[i], phase, generation);
      assert all[i] == front[i];
    } else {
      assert all[|front|] == e;
    }
  }

  /** What is known from accepted messages was reported. */
  lemma {:induction false} KnowledgeIsReported(events: seq<Stamped>, pid: int, phase: ResumePhase)
    requires AllAccepted(events, pid, phase)
    ensures var seen := Knowledge(pid, events, phase);
            && (seen.initialized <==> seen.generation.Some?) && seen.pid == pid && seen.phase == phase
            && (seen.initialized ==> ReportedIn(events, WaitInitialized, seen.generation.value))
            && (seen.installed ==> seen.initialized && ReportedIn(events, WaitInstalled, seen.generation.value))
  {
    hide ReportedIn;
    if events != [] {
      var front, e := events[..|events| - 1], events[|events| - 1];
      AcceptedFront(events, pid, phase);
      KnowledgeIsReported(front, pid, phase);
      assert events == front + [e];
      var seen := Knowledge(pid, events, phase);
      if seen.initialized { ReportedLater(front, e, WaitInitialized, seen.generation.value); }
      if seen.installed { ReportedLater(front, e, WaitInstalled, seen.generation.value); }
    }
  }

  lemma AcceptedFront(events: seq<Stamped>, pid: int, phase: ResumePhase)
    requires events != [] && AllAccepted(events, pid, phase)
    ensures AllAccepted(events[..|events| - 1], pid, phase) && AcceptedAt(events, |events| - 1, pid, phase)
  {
    hide Refusal, Knowledge;
    var front := events[..|events| - 1];
    forall i | 0 <= i < |front| ensures AcceptedAt(front, i, pid, phase) {
      assert AcceptedAt(events, i, pid, phase) && front[..i] == events[..i];
    }
  }

  /** The phase of a mailbox and what it knows of the process do not change while messages are handled. */
  predicate OnlyLearns(before: Seen, seen: Seen) {
    && seen.phase == before.phase && seen.pid == before.pid
    && (before.initialized ==> seen.initialized && seen.generation == before.generation)
  }

  lemma OnlyLearnsNext(before: Seen, seen: Seen, e: Stamped)
    requires OnlyLearns(before, seen) && e.arrival.Message? && Refusal(e, seen).None?
    ensures OnlyLearns(before, Learned(seen, e.arrival.message))
  {
  }

  /** Handle the queued messages, unless the session detached. */
  method Drain(world: World, mailbox: Mailbox, ghost env: Setting) returns (failure: Option<Failure>)
    requires mailbox.Valid() && Knows(mailbox.handled, mailbox.Now())
    requires Heard(world.log, env) == mailbox.handled + mailbox.events
    requires mailbox.pid == Pid(env) && mailbox.resumePhase == PhaseNow(world.log, env)
    requires Returned(world.log, env) && Looking(env.plan, Last(world.log, env))
    modifies mailbox`events, mailbox`initialized, mailbox`installed, mailbox`generation, mailbox`milestones,
             mailbox`handled
    ensures mailbox.Valid() && mailbox.events == [] && OnlyLearns(old(mailbox.Now()), mailbox.Now())
    ensures failure.Some? ==> Caused(failure.value, world.log, env)
    ensures failure.None? ==> mailbox.handled == Heard(world.log, env) && Knows(mailbox.handled, mailbox.Now())
    ensures old(mailbox.events) == [] ==> failure.None? && mailbox.Now() == old(mailbox.Now())
    ensures |old(mailbox.events)| == 1 && old(mailbox.events[0].arrival.Message?)
            && old(Refusal(mailbox.events[0], mailbox.Now())).None? ==>
              failure.None? && mailbox.Now() == Learned(old(mailbox.Now()), old(mailbox.events[0].arrival.message))
  {
    hide Reached, Remembers, Knows, Caused, Refusal, Learned, Looking, Returned, Heard, Pid, PhaseNow, OnlyLearns;
    var events := mailbox.events;
    ghost var now, first := mailbox.Now(), mailbox.handled;
    mailbox.events := [];
    DetachedAt(events);
    OneMessage(events);
    LearnsNothing(now);
    var gone := FirstDetached(events);
    if gone.Some? {
      PartedBy(world.log, env, first, now, events, gone.value);
      return Some(if gone.value then ProcessExited else SessionDetached);
    }
    for i := 0 to |events|
      invariant mailbox.Valid() && mailbox.events == [] && Knows(mailbox.handled, mailbox.Now())
      invariant mailbox.handled == first + events[..i] && OnlyLearns(now, mailbox.Now())
      invariant mailbox.resumePhase == PhaseNow(world.log, env)
      invariant i == 0 ==> mailbox.Now() == now
      invariant i == 1 ==> mailbox.Now() == Learned(now, events[0].arrival.message)
    {
      ghost var seen := mailbox.Now();
      var refused := mailbox.Accept(events[i]);
      if refused.Some? {
        RefusedBy(world.log, env, first, events, i, seen, refused.value);
        return refused;
      }
      OnlyLearnsNext(now, seen, events[i]);
      assert first + events[..i] + [events[i]] == first + events[..i + 1];
    }
    assert events[..|events|] == events;
    return None;
  }

  lemma LearnsNothing(seen: Seen)
    ensures OnlyLearns(seen, seen)
  {
  }

  lemma OneMessage(events: seq<Stamped>)
    ensures |events| == 1 && events[0].arrival.Message? ==> FirstDetached(events).None?
    ensures events == [] ==> FirstDetached(events).None?
  {
    if |events| == 1 { assert events[..0] == []; }
  }

  lemma KnowsMessages(handled: seq<Stamped>, seen: Seen)
    requires Knows(handled, seen)
    ensures forall i :: 0 <= i < |handled| ==> handled[i].arrival.Message?
  {
    forall i | 0 <= i < |handled| ensures handled[i].arrival.Message? {
      assert AcceptedAt(handled, i, seen.pid, seen.phase);
    }
  }

  lemma PartedBy(log: seq<Action>, env: Setting, handled: seq<Stamped>, seen: Seen, events: seq<Stamped>,
                 terminated: bool)
    requires Heard(log, env) == handled + events && Knows(handled, seen) && FirstDetached(events) == Some(terminated)
    requires Returned(log, env) && Looking(env.plan, Last(log, env))
    ensures Caused(if terminated then ProcessExited else SessionDetached, log, env)
  {
    hide Knows, Heard, FirstDetached, Looking, Returned;
    KnowsMessages(handled, seen);
    FirstDetachedLater(handled, events);
  }

  lemma RefusedBy(log: seq<Action>, env: Setting, handled: seq<Stamped>, events: seq<Stamped>, i: nat, seen: Seen,
                  failure: Failure)
    requires Heard(log, env) == handled + events && i < |events| && Knows(handled + events[..i], seen)
    requires seen.pid == Pid(env) && seen.phase == PhaseNow(log, env)
    requires (forall j :: 0 <= j < |events| ==> events[j].arrival.Message?) && failure in {Protocol, FromAgent}
    requires Returned(log, env) && Looking(env.plan, Last(log, env)) && Refusal(events[i], seen) == Some(failure)
    ensures Caused(failure, log, env)
  {
    hide Heard, Looking, Returned, Refusal, Knowledge, Pid, PhaseNow;
    var heard, k := Heard(log, env), |handled| + i;
    assert heard[..k] == handled + events[..i] && heard[k] == events[i];
    KnowsMessages(handled + events[..i], seen);
    forall j | 0 <= j < |heard| ensures heard[j].arrival.Message? {
      if j < |handled| { assert heard[j] == (handled + events[..i])[j]; }
    }
    assert RefusedAt(heard, k, seen.pid, seen.phase, failure);
  }

  /** Nothing arrives until step `at`, and then this message alone; once that step is over it is queued. */
  ghost predicate Expecting(step: nat, env: Setting, events: seq<Stamped>, posted: bool, phase: ResumePhase, at: nat,
                            m: AgentMessage) {
    if step <= at then
      && events == [] && (forall s :: step <= s < at ==> env.arrivals(s) == []) && env.arrivals(at) == [Message(m)]
    else
      step == at + 1 && events == [Stamped(Message(m), posted, phase)]
  }

  lemma ExpectingNext(step: nat, env: Setting, events: seq<Stamped>, posted: bool, phase: ResumePhase, at: nat,
                      m: AgentMessage)
    requires Expecting(step, env, events, posted, phase, at, m) && step <= at
    ensures Expecting(step + 1, env, events + StampAll(env.arrivals(step), posted, phase), posted, phase, at, m)
  {
    assert step == at ==> StampAll([Message(m)], posted, phase) == [Stamped(Message(m), posted, phase)];
  }

  /** The message is the one that this wait is for, and it will be accepted. */
  ghost predicate Welcome(phase: Phase, m: AgentMessage, posted: bool, seen: Seen) {
    && (if phase.WaitInitialized? then m.Initialized? else m.Installed?)
    && Refusal(Stamped(Message(m), posted, seen.phase), seen).None?
  }

  predicate Arrived(phase: Phase, initialized: bool, installed: bool) {
    if phase.WaitInitialized? then initialized else installed
  }

  /** The last step belongs to this wait. */
  predicate InWait(last: Option<Action>, phase: Phase) {
    last == Some(if phase.WaitInitialized? then Post else Resume) || last == Some(Wait(phase))
  }

  /** Handle messages until the phase is reached, the session detaches, a message is refused, or the deadline passes.
      If the only message to come is the one waited for, in time, the phase is reached. */
  method WaitFor(world: World, mailbox: Mailbox, phase: Phase, plan: Plan, ghost env: Setting, ghost l: Local,
                 ghost at: nat, ghost m: AgentMessage) returns (failure: Option<Failure>)
    requires Fits(world, plan, env) && world.Valid() && mailbox.Valid() && mailbox.pid == Pid(env)
    requires Going(world.log, env, l, mailbox.handled, mailbox.events) && Parting(world.log, env, mailbox.detached)
    requires InWait(Last(world.log, env), phase) && (phase.WaitInstalled? ==> !plan.detachBeforeResume)
    requires Marked(world.log, env, mailbox.posted, mailbox.resumePhase, Wait(phase)) && !mailbox.installed
    modifies world, mailbox`events, mailbox`detached, mailbox`initialized, mailbox`installed, mailbox`generation,
             mailbox`milestones, mailbox`handled
    ensures world.Valid() && mailbox.Valid() && old(world.log) <= world.log
    ensures Parting(world.log, env, mailbox.detached) && OnlyLearns(old(mailbox.Now()), mailbox.Now())
    ensures failure.None? ==> Going(world.log, env, l, mailbox.handled, [])
    ensures failure.None? ==> InWait(Last(world.log, env), phase) && mailbox.events == []
    ensures failure.None? ==> mailbox.handled == Heard(world.log, env) && Knows(mailbox.handled, mailbox.Now())
    ensures failure.None? ==> Arrived(phase, mailbox.initialized, mailbox.installed)
    ensures failure.None? ==> Marked(world.log, env, mailbox.posted, mailbox.resumePhase, Wait(phase))
    ensures failure.Some? ==> Stopped(failure.value, world.log, env, l)
    ensures Hopeful(old(world.step), env, old(mailbox.events), mailbox.posted, old(mailbox.Now()), phase, at, m) ==>
              && failure.None? && mailbox.events == [] && mailbox.Now() == Learned(old(mailbox.Now()), m)
              && world.step == if at < old(world.step) then old(world.step) else at + 1
  {
    hide Reached, LocalAfter, Update, MayFollow, Orderly, Smooth, Marked, Queued, Parting, Has, Going, Heard, Pid;
    hide Caused, Refusal, Learned, Expecting, StampAll, InWait, Stopped, Arrived, Last, Knows, Remembers, OnlyLearns;
    hide Looking, PhaseNow, Deaf, Returned;
    ghost var start, first := mailbox.Now(), world.step;
    ghost var hope := Hopeful(first, env, mailbox.events, mailbox.posted, start, phase, at, m);
    DrainHopes(first, env, mailbox.events, mailbox.posted, start, phase, at, m);
    KnowsUninstalled(mailbox.handled, start);
    LearnsNothing(start);
    while true
      invariant world.Valid() && mailbox.Valid() && old(world.log) <= world.log
      invariant Parting(world.log, env, mailbox.detached) && OnlyLearns(start, mailbox.Now())
      invariant Going(world.log, env, l, mailbox.handled, mailbox.events) && InWait(Last(world.log, env), phase)
      invariant Knows(mailbox.handled, mailbox.Now())
      invariant Marked(world.log, env, mailbox.posted, mailbox.resumePhase, Wait(phase))
      invariant hope ==>
                  && Expecting(world.step, env, mailbox.events, mailbox.posted, mailbox.resumePhase, at, m)
                  && mailbox.Now() == start && world.step <= at + 1 && (at < first ==> world.step == first)
      decreases plan.deadline - world.step
    {
      ghost var log, queued, seen := world.log, mailbox.events, mailbox.Now();
      CanDrain(log, env, l, mailbox.handled, queued, mailbox.posted, mailbox.resumePhase, phase);
      failure := Drain(world, mailbox, env);
      DrainHopes(world.step, env, queued, mailbox.posted, start, phase, at, m);
      OnlyLearnsMore(start, seen, mailbox.Now());
      if failure.Some? {
        StopsHere(failure.value, log, env, l);
        return failure;
      }
      if Arrived(phase, mailbox.initialized, mailbox.installed) { return None; }
      if world.step >= plan.deadline {
        TimedOut(log, env, mailbox.Now(), phase);
        StopsHere(Timeout, log, env, l);
        return Some(Timeout);
      }
      Pause(world, mailbox, phase, plan, env, l);
      if hope { ExpectingNext(|log|, env, [], mailbox.posted, mailbox.resumePhase, at, m); }
    }
  }

  lemma KnowsUninstalled(handled: seq<Stamped>, seen: Seen)
    requires Remembers(handled, seen) && !seen.installed
    ensures Knows(handled, seen)
  {
  }

  lemma OnlyLearnsMore(a: Seen, b: Seen, c: Seen)
    requires OnlyLearns(a, b) && OnlyLearns(b, c)
    ensures OnlyLearns(a, c)
  {
  }

  /** A wait that goes on can handle its queue. */
  lemma CanDrain(log: seq<Action>, env: Setting, l: Local, handled: seq<Stamped>, events: seq<Stamped>, posted: bool,
                 resume: ResumePhase, phase: Phase)
    requires Going(log, env, l, handled, events) && InWait(Last(log, env), phase)
    requires phase.WaitInstalled? ==> !env.plan.detachBeforeResume
    requires Marked(log, env, posted, resume, Wait(phase))
    ensures Heard(log, env) == handled + events && resume == PhaseNow(log, env)
    ensures Orderly(log, env) && l == LocalAfter(log, env)
    ensures Returned(log, env) && Looking(env.plan, Last(log, env)) && Going(log, env, l, handled + events, [])
  {
    hide Going, InWait, Last, Has, Heard, Deaf, Looking, Returned, Orderly, LocalAfter;
    GoingFrom(log, env, l, handled, events);
    Listens(log, env, phase);
    GoingHandled(log, env, l, handled, events);
  }

  /** While it waits for a message the worker looks at the mailbox. */
  lemma Listens(log: seq<Action>, env: Setting, phase: Phase)
    requires Orderly(log, env) && InWait(Last(log, env), phase)
    requires phase.WaitInstalled? ==> !env.plan.detachBeforeResume
    ensures !Deaf(log, env) && Looking(env.plan, Last(log, env))
  {
    hide Orderly;
    if phase.WaitInitialized? { PlaceOf(log, env); }
  }

  /** Let one step pass. */
  method Pause(world: World, mailbox: Mailbox, phase: Phase, plan: Plan, ghost env: Setting, ghost l: Local)
    requires Fits(world, plan, env) && world.Valid() && mailbox.Valid()
    requires Going(world.log, env, l, mailbox.handled, mailbox.events) && Parting(world.log, env, mailbox.detached)
    requires InWait(Last(world.log, env), phase) && (phase.WaitInstalled? ==> !plan.detachBeforeResume)
    requires Marked(world.log, env, mailbox.posted, mailbox.resumePhase, Wait(phase))
    modifies world, mailbox`events, mailbox`detached
    ensures world.Valid() && mailbox.Valid() && old(world.log) <= world.log && world.step == old(world.step) + 1
    ensures Going(world.log, env, l, mailbox.handled, mailbox.events) && Parting(world.log, env, mailbox.detached)
    ensures InWait(Last(world.log, env), phase)
    ensures Marked(world.log, env, mailbox.posted, mailbox.resumePhase, Wait(phase))
    ensures mailbox.events
            == old(mailbox.events) + StampAll(env.arrivals(old(world.step)), mailbox.posted, mailbox.resumePhase)
  {
    hide LocalAfter, Update, MayFollow, Orderly, Smooth, Marked, Parting, Has, Going, StampAll, Heard, Deaf, Returned;
    hide InWait, Stopped, Reached, Last, Remembers;
    ghost var log := world.log;
    GoingFrom(log, env, l, mailbox.handled, mailbox.events);
    WaitFollows(plan, log, env, phase);
    var reply := Try(world, mailbox, plan, env, l, Wait(phase));
    WaitKeeps(l, phase, reply);
    StillMarked(log, env, mailbox.posted, mailbox.resumePhase, Wait(phase));
    InWaitNow(phase);
  }

  /** Only the awaited message comes, in time and welcome. */
  ghost predicate Hopeful(step: nat, env: Setting, events: seq<Stamped>, posted: bool, seen: Seen, phase: Phase,
                          at: nat, m: AgentMessage) {
    && Expecting(step, env, events, posted, seen.phase, at, m) && at < env.plan.deadline
    && Welcome(phase, m, posted, seen)
  }

  /** Before the message comes the queue is empty and the phase not reached; when it has come, it is all there is. */
  lemma DrainHopes(step: nat, env: Setting, events: seq<Stamped>, posted: bool, seen: Seen, phase: Phase, at: nat,
                   m: AgentMessage)
    ensures Expecting(step, env, events, posted, seen.phase, at, m) && Welcome(phase, m, posted, seen) ==>
              && !Arrived(phase, seen.initialized, seen.installed)
              && Arrived(phase, Learned(seen, m).initialized, Learned(seen, m).installed)
              && (if step <= at then events == []
                  else step == at + 1 && |events| == 1 && events[0].arrival == Message(m)
                       && Refusal(events[0], seen).None?)
  {
  }

  lemma StopsHere(failure: Failure, log: seq<Action>, env: Setting, l: Local)
    requires Orderly(log, env) && l == LocalAfter(log, env) && Caused(failure, log, env)
    ensures Stopped(failure, log, env, l)
  {
  }

  lemma TimedOut(log: seq<Action>, env: Setting, seen: Seen, phase: Phase)
    requires |log| >= env.plan.deadline && !Arrived(phase, seen.initialized, seen.installed) && Returned(log, env)
    requires InWait(Last(log, env), phase) && Knows(Heard(log, env), seen)
    requires seen.pid == Pid(env) && seen.phase == PhaseNow(log, env)
    ensures Caused(Timeout, log, env)
  {
    hide Heard, AllAccepted, Knowledge, Pid, PhaseNow;
  }

  lemma WaitFollows(plan: Plan, log: seq<Action>, env: Setting, phase: Phase)
    requires InWait(Last(log, env), phase) && (phase.WaitInstalled? ==> !plan.detachBeforeResume)
    ensures MayFollow(plan, Last(log, env), Wait(phase))
  {
  }

  lemma InWaitNow(phase: Phase)
    ensures InWait(Some(Wait(phase)), phase)
  {
  }

  lemma WaitKeeps(l: Local, phase: Phase, reply: Reply)
    ensures Update(l, Wait(phase), reply) == l && Update(l, ReadStatus, reply) == l
  {
  }

  /** A step that neither posts nor resumes leaves the marks right for the next one. */
  lemma StillMarked(log: seq<Action>, env: Setting, posted: bool, phase: ResumePhase, action: Action)
    requires Marked(log, env, posted, phase, action) && env.from <= |log| && action != Resume
    ensures forall a: Action :: a != Post && a != Resume ==> Marked(log + [action], env, posted, phase, a)
  {
    hide Has;
    HasNext(log, env.from, action, Post);
    HasNext(log, env.from, action, Resume);
  }

  /** Wait for the attached session to report that the process terminated. */
  method WaitForProcessExit(world: World, mailbox: Mailbox, deadline: nat, ghost env: Setting) returns (exited: bool)
    requires env.arrivals == world.arrivals && world.Valid() && mailbox.Valid() && env.from <= world.step
    requires Parting(world.log, env, mailbox.detached)
    modifies world, mailbox`events, mailbox`detached
    ensures world.Valid() && mailbox.Valid() && old(world.log) <= world.log
    ensures Parting(world.log, env, mailbox.detached)
    ensures exited <==> mailbox.detached == Some(true)
    ensures mailbox.detached.None? ==> world.step >= deadline
    ensures forall s :: |old(world.log)| <= s < |world.log| ==> world.log[s] == WaitExit
  {
    hide Reached, Remembers, Parting;
    while true
      invariant world.Valid() && mailbox.Valid() && old(world.log) <= world.log
      invariant Parting(world.log, env, mailbox.detached)
      invariant forall s :: |old(world.log)| <= s < |world.log| ==> world.log[s] == WaitExit
      decreases deadline - world.step
    {
      if mailbox.detached.Some? { return mailbox.detached.value; }
      if world.step >= deadline { return false; }
      ghost var log, parted := world.log, mailbox.detached;
      var _ := world.CallWith(WaitExit, mailbox);
      PartingNext(log, world.log, env, parted, mailbox.detached);
    }
  }

  /** The status file read last is the receipt of this process and generation. */
  ghost predicate Receipted(log: seq<Action>, env: Setting, pid: int, generation: int) {
    Last(log, env) == Some(ReadStatus) && env.replies(|log| - 1).receipt == Status(generation, pid, true, false)
  }

  /** No call raises from this step to step `at`, and the receipt is found at that step and not before. */
  ghost predicate ReceiptComes(replies: nat -> Reply, step: nat, at: nat, pid: int, generation: int) {
    && step <= at && (forall s :: step <= s <= at ==> !replies(s).raises)
    && (forall s :: step <= s < at ==> replies(s).receipt == NoReceipt)
    && replies(at).receipt == Status(generation, pid, true, false)
  }

  /** After an early detach, poll the native status file for the installation of this PID and generation. */
  method WaitForDetachedInstallation(world: World, mailbox: Mailbox, plan: Plan, ghost env: Setting, ghost l: Local,
                                     ghost at: nat) returns (failure: Option<Failure>)
    requires Fits(world, plan, env) && world.Valid() && mailbox.Valid()
    requires Going(world.log, env, l, mailbox.handled, mailbox.events) && Parting(world.log, env, mailbox.detached)
    requires plan.detachBeforeResume && !mailbox.installed && mailbox.resumePhase.Resumed?
    requires Last(world.log, env) == Some(Resume) && Deaf(world.log, env) && mailbox.pid == Pid(env)
    requires Marked(world.log, env, mailbox.posted, mailbox.resumePhase, ReadStatus)
    modifies world, mailbox`events, mailbox`detached, mailbox`installed, mailbox`milestones
    ensures world.Valid() && mailbox.Valid() && old(world.log) <= world.log
    ensures Parting(world.log, env, mailbox.detached)
    ensures failure.None? ==>
              && Going(world.log, env, l, mailbox.handled, mailbox.events) && mailbox.installed
              && Receipted(world.log, env, mailbox.pid, mailbox.generation.value)
              && mailbox.handled == Heard(world.log, env) && Knows(mailbox.handled, old(mailbox.Now()))
              && Marked(world.log, env, mailbox.posted, mailbox.resumePhase, ReadStatus)
    ensures failure.Some? ==> Stopped(failure.value, world.log, env, l) && !mailbox.installed
    ensures at < plan.deadline && mailbox.generation.Some?
            && ReceiptComes(env.replies, old(world.step), at, mailbox.pid, mailbox.generation.value) ==>
              failure.None?
  {
    hide Reached, LocalAfter, Update, MayFollow, Orderly, Smooth, Marked, Queued, Parting, Has, Going, StampAll, Heard;
    hide Knows, Remembers, Deaf, Caused, Pid, PhaseNow, Returned, ReceiptComes, NoReceiptYet;
    ghost var hope := at < plan.deadline && mailbox.generation.Some?
                      && ReceiptComes(env.replies, world.step, at, mailbox.pid, mailbox.generation.value);
    ghost var seen, first := mailbox.Now(), world.step;
    KnowsUninstalled(mailbox.handled, seen);
    ResumedNow(world.log, env);
    if hope { ReceiptStep(env.replies, first, at, mailbox.pid, mailbox.generation.value, first); }
    while true
      invariant world.Valid() && mailbox.Valid() && old(world.log) <= world.log
      invariant Going(world.log, env, l, mailbox.handled, mailbox.events) && Parting(world.log, env, mailbox.detached)
      invariant !mailbox.installed && Deaf(world.log, env) && NoReceiptYet(world.log, env)
      invariant Marked(world.log, env, mailbox.posted, mailbox.resumePhase, ReadStatus)
      invariant hope ==> first <= world.step <= at
      decreases plan.deadline - world.step
    {
      ghost var log := world.log;
      GoingFrom(log, env, l, mailbox.handled, mailbox.events);
      if world.step >= plan.deadline {
        ReadTimedOut(log, env, seen, mailbox.posted);
        return Some(Timeout);
      }
      if hope { ReceiptStep(env.replies, first, at, mailbox.pid, mailbox.generation.value, world.step); }
      var reply := Poll(world, mailbox, plan, env, l);
      if reply.raises { return Some(External); }
      match reply.receipt {
        case NoReceipt =>
        case BadReceipt => return Some(Protocol);
        case Status(g, p, matches, failed) =>
          if Some(g) != mailbox.generation || p != mailbox.pid || !matches { return Some(Protocol); }
          if failed { return Some(InstallFailed); }
          GoingFrom(world.log, env, l, mailbox.handled, mailbox.events);
          mailbox.MarkInstalled();
          return None;
      }
    }
  }

  /** Read the status file once. */
  method Poll(world: World, mailbox: Mailbox, plan: Plan, ghost env: Setting, ghost l: Local) returns (reply: Reply)
    requires Fits(world, plan, env) && world.Valid() && mailbox.Valid()
    requires Going(world.log, env, l, mailbox.handled, mailbox.events) && Parting(world.log, env, mailbox.detached)
    requires plan.detachBeforeResume && Deaf(world.log, env) && NoReceiptYet(world.log, env)
    requires Marked(world.log, env, mailbox.posted, mailbox.resumePhase, ReadStatus)
    requires Knows(mailbox.handled, mailbox.Now()) && mailbox.pid == Pid(env)
    modifies world, mailbox`events, mailbox`detached
    ensures world.Valid() && mailbox.Valid() && world.log == old(world.log) + [ReadStatus]
    ensures reply == env.replies(old(world.step)) && Parting(world.log, env, mailbox.detached)
    ensures if reply.raises then Stopped(External, world.log, env, l)
            else
              && Going(world.log, env, l, mailbox.handled, mailbox.events) && Deaf(world.log, env)
              && Marked(world.log, env, mailbox.posted, mailbox.resumePhase, ReadStatus)
              && Last(world.log, env) == Some(ReadStatus)
              && StatusMeans(reply.receipt, world.log, env, l, mailbox.Now())
  {
    hide Reached, LocalAfter, Update, MayFollow, Orderly, Smooth, Marked, Queued, Parting, Has, Going, StampAll, Heard;
    hide Knows, Remembers, Deaf, Caused, Pid, PhaseNow, Returned, NoReceiptYet, StatusMeans, Stopped, Last;
    ghost var log := world.log;
    GoingFrom(log, env, l, mailbox.handled, mailbox.events);
    ReadFollows(plan, log, env);
    reply := Try(world, mailbox, plan, env, l, ReadStatus);
    WaitKeeps(l, WaitInstalled, reply);
    if reply.raises { return; }
    GoingFrom(world.log, env, l, mailbox.handled, mailbox.events);
    StillMarked(log, env, mailbox.posted, mailbox.resumePhase, ReadStatus);
    StillDeaf(log, env, ReadStatus);
    StatusCauses(world.log, env, l, mailbox.Now(), mailbox.posted);
  }

  /** What the status file that was read last means for the setup, given what the process reported. */
  ghost predicate StatusMeans(receipt: Receipt, log: seq<Action>, env: Setting, l: Local, seen: Seen) {
    match receipt
    case NoReceipt => NoReceiptYet(log, env)
    case BadReceipt => Stopped(Protocol, log, env, l)
    case Status(g, p, matches, failed) =>
      if Some(g) != seen.generation || p != seen.pid || !matches then Stopped(Protocol, log, env, l)
      else failed ==> Stopped(InstallFailed, log, env, l)
  }

  /** The process was just resumed, or the status file was not there. */
  ghost predicate NoReceiptYet(log: seq<Action>, env: Setting) {
    || Last(log, env) == Some(Resume)
    || (Last(log, env) == Some(ReadStatus) && env.replies(|log| - 1).receipt == NoReceipt)
  }

  lemma ResumedNow(log: seq<Action>, env: Setting)
    ensures Last(log, env) == Some(Resume) ==> NoReceiptYet(log, env)
  {
  }

  lemma ReceiptStep(replies: nat -> Reply, step: nat, at: nat, pid: int, generation: int, s: nat)
    requires ReceiptComes(replies, step, at, pid, generation)
    ensures step <= at
    ensures step <= s <= at ==> !replies(s).raises
    ensures step <= s < at ==> replies(s).receipt == NoReceipt
    ensures s == at ==> replies(s).receipt == Status(generation, pid, true, false)
  {
  }

  lemma StillDeaf(log: seq<Action>, env: Setting, action: Action)
    requires Deaf(log, env) && env.from <= |log|
    ensures Deaf(log + [action], env)
  {
    HasNext(log, env.from, action, Unload);
  }

  lemma ReadTimedOut(log: seq<Action>, env: Setting, seen: Seen, posted: bool)
    requires |log| >= env.plan.deadline && NoReceiptYet(log, env) && Returned(log, env) && !seen.installed
    requires Knows(Heard(log, env), seen) && seen.pid == Pid(env)
    requires Marked(log, env, posted, seen.phase, ReadStatus)
    ensures Caused(Timeout, log, env)
  {
    hide Heard, AllAccepted, Knowledge, Pid, Has;
  }

  lemma StatusCauses(log: seq<Action>, env: Setting, l: Local, seen: Seen, posted: bool)
    requires Last(log, env) == Some(ReadStatus) && Returned(log, env) && Knows(Heard(log, env), seen)
    requires Orderly(log, env) && l == LocalAfter(log, env)
    requires seen.pid == Pid(env) && Marked(log, env, posted, seen.phase, ReadStatus)
    ensures StatusMeans(env.replies(|log| - 1).receipt, log, env, l, seen)
  {
    hide Heard, AllAccepted, Knowledge, Pid, Has, Orderly, LocalAfter, Returned;
  }

  lemma ReadFollows(plan: Plan, log: seq<Action>, env: Setting)
    requires NoReceiptYet(log, env) && plan.detachBeforeResume
    ensures MayFollow(plan, Last(log, env), ReadStatus)
  {
  }

  // ----- the worker

  /** When the agent reports its initialization and its installation, and the generation it reports. */
  datatype Course = Course(initialized: nat, installed: nat, generation: int)

  /** The step after the wait for initialization. */
  function ResumeStep(from: nat, c: Course): nat { if c.initialized >= from + 8 then c.initialized + 1 else from + 8 }

  /** No call raises, and the agent initializes and installs in time, reporting each once and in its phase. */
  ghost predicate Cooperative(env: Setting, c: Course) {
    && env.plan.envelopeFits && c.generation > 0 && env.replies(env.from + 1).value > 0
    && env.from + 7 <= c.initialized < env.plan.deadline && c.installed < env.plan.deadline
    && (forall s :: env.from <= s <= c.installed ==> !env.replies(s).raises)
    && (forall s :: env.from <= s < c.initialized ==> env.arrivals(s) == [])
    && env.arrivals(c.initialized) == [Message(Initialized(c.generation, true))]
    && if env.plan.detachBeforeResume then
         ReceiptComes(env.replies, ResumeStep(env.from, c) + 3, c.installed, env.replies(env.from + 1).value,
                      c.generation)
       else
         && ResumeStep(env.from, c) < c.installed
         && (forall s :: c.initialized < s < c.installed ==> env.arrivals(s) == [])
         && env.arrivals(c.installed) == [Message(Installed(c.generation, true))]
  }

  /** What a success stands for: initialization, then the resume, then the installation, of one PID and one
      generation. */
  ghost predicate Installation(milestones: seq<Milestone>, pid: int, generation: int) {
    milestones == [WasInitialized(generation), WasResumed(pid), WasInstalled(generation)]
  }

  /** The evidence for a success: every message heard was accepted, and together they report the initialization and,
      after the resume, the installation of one generation, or the native receipt does. */
  ghost predicate Evidence(log: seq<Action>, env: Setting, pid: int, generation: int) {
    && pid == Pid(env) && Returned(log, env) && AllHeardAccepted(log, env)
    && Known(log, env) == Seen(pid, true, !env.plan.detachBeforeResume, Some(generation), Resumed)
    && Reported(log, env, WaitInitialized, generation)
    && if env.plan.detachBeforeResume then Receipted(log, env, pid, generation)
       else InWait(Last(log, env), WaitInstalled) && Reported(log, env, WaitInstalled, generation)
  }

  lemma Evident(log: seq<Action>, env: Setting, seen: Seen, posted: bool)
    requires Returned(log, env) && Knows(Heard(log, env), seen) && seen.pid == Pid(env) && seen.generation.Some?
    requires seen == Seen(seen.pid, true, !env.plan.detachBeforeResume, seen.generation, Resumed)
    requires Marked(log, env, posted, Resumed, Wait(WaitInstalled)) || Marked(log, env, posted, Resumed, ReadStatus)
    requires if env.plan.detachBeforeResume then Receipted(log, env, seen.pid, seen.generation.value)
             else InWait(Last(log, env), WaitInstalled)
    ensures Evidence(log, env, seen.pid, seen.generation.value)
  {
    hide Heard, AllAccepted, Knowledge, Pid, Has, ReportedIn, Receipted, InWait, Returned;
    KnowledgeIsReported(Heard(log, env), seen.pid, Resumed);
  }

  /** A run with the evidence for a success has no cause of a failure. */
  lemma EvidenceExcludesFailure(log: seq<Action>, env: Setting, pid: int, generation: int, failure: Failure)
    requires Evidence(log, env, pid, generation)
    ensures !Caused(failure, log, env)
  {
    hide Heard, AllHeardAccepted, Known, Refused, Parted, Raised, Reported;
    HeardOneWay(log, env);
    LookingOnly(log, env);
  }

  /** A setup fails with exactly the failure that the run causes. */
  ghost predicate FailsExactly(failure: Option<Failure>, log: seq<Action>, env: Setting) {
    forall f :: Caused(f, log, env) <==> failure == Some(f)
  }

  lemma FailureIsExact(log: seq<Action>, env: Setting, failure: Failure)
    requires Caused(failure, log, env)
    ensures FailsExactly(Some(failure), log, env)
  {
    hide Caused;
    forall f | Caused(f, log, env) ensures f == failure { CauseIsUnique(log, env, f, failure); }
  }

  lemma SuccessIsExact(log: seq<Action>, env: Setting, pid: int, generation: int)
    requires Evidence(log, env, pid, generation)
    ensures FailsExactly(None, log, env)
  {
    hide Caused, Evidence;
    forall f: Failure ensures !Caused(f, log, env) { EvidenceExcludesFailure(log, env, pid, generation, f); }
  }

  /** The setup up to the first failure.  Each external call may raise. */
  method Setup(world: World, plan: Plan, ghost env: Setting, ghost c: Course)
    returns (r: Result<int, Failure>, l: Local, mailbox: Mailbox?)
    requires Fits(world, plan, env) && world.Valid() && env.from == world.step
    modifies world
    ensures world.Valid() && old(world.log) <= world.log && Orderly(world.log, env) && l == LocalAfter(world.log, env)
    ensures mailbox != null ==>
              && fresh(mailbox) && mailbox.Valid() && Some(mailbox.pid) == l.pid
              && Parting(world.log, env, mailbox.detached)
    ensures r.Ok? ==> && mailbox != null && l.resumed && Installation(mailbox.milestones, mailbox.pid, r.value)
                      && Evidence(world.log, env, mailbox.pid, r.value)
    ensures FailsExactly(if r.Err? then Some(r.error) else None, world.log, env)
    ensures r.Err? ==> Caused(r.error, world.log, env)
    ensures Cooperative(env, c) ==> r == Ok(c.generation)
  {
    hide Reached, Remembers, LocalAfter, MayFollow, Orderly, Parting, Has, Evidence, Installation, FailsExactly;
    hide Caused, Smooth, Going, Cooperative, Marked, Ready, Initialization, Pid;
    l, mailbox := NOTHING, null;
    NothingYet(world.log, env);
    Quiet(env, c);
    if world.step >= plan.deadline {
      FailureIsExact(world.log, env, Timeout);
      return Err(Timeout), l, null;
    }
    BareFollows(plan);
    var device := BareCall(world, plan, env, l, GetDevice);
    if device.raises { return Err(External), l, null; }
    var spawned := BareCall(world, plan, env, l, Spawn);
    if spawned.raises || spawned.value <= 0 { return Err(External), l, null; }
    l := l.(pid := Some(spawned.value), sent := l.sent + [SpawnedPid(spawned.value)]);
    var attached := BareCall(world, plan, env, l, Attach);
    if attached.raises { return Err(External), l, null; }
    l := l.(session := true);
    mailbox := new Mailbox(spawned.value);
    EmptyMailbox(world.log, env, l);
    var failure: Option<Failure>;
    failure, l := Prepare(world, mailbox, plan, l, env, c);
    if failure.Some? {
      FailureIsExact(world.log, env, failure.value);
      return Err(failure.value), l, mailbox;
    }
    failure, l := Activate(world, mailbox, plan, l, env, c);
    if failure.Some? {
      FailureIsExact(world.log, env, failure.value);
      return Err(failure.value), l, mailbox;
    }
    SuccessIsExact(world.log, env, mailbox.pid, mailbox.generation.value);
    return Ok(mailbox.generation.value), l, mailbox;
  }

  lemma NothingYet(log: seq<Action>, env: Setting)
    requires env.from == |log|
    ensures Smooth(log, env) && Orderly(log, env) && LocalAfter(log, env) == NOTHING && Last(log, env).None?
    ensures |log| >= env.plan.deadline ==> Caused(Timeout, log, env)
  {
  }

  lemma BareFollows(plan: Plan)
    ensures MayFollow(plan, None, GetDevice) && MayFollow(plan, Some(GetDevice), Spawn)
    ensures MayFollow(plan, Some(Spawn), Attach)
  {
  }

  lemma EmptyMailbox(log: seq<Action>, env: Setting, l: Local)
    requires Smooth(log, env) && |log| == env.from + 3 && l == LocalAfter(log, env)
    ensures Going(log, env, l, [], []) && Parting(log, env, None)
    ensures Ready(log, env, false, BeforeResume) && Pid(env) == env.replies(env.from + 1).value
  {
    OrderlyAt(log, env, env.from);
    OrderlyAt(log, env, env.from + 1);
    OrderlyAt(log, env, env.from + 2);
  }

  /** A call before there is a mailbox. */
  method BareCall(world: World, plan: Plan, ghost env: Setting, ghost before: Local, action: Action)
    returns (reply: Reply)
    requires Fits(world, plan, env) && world.Valid() && Smooth(world.log, env) && before == LocalAfter(world.log, env)
    requires MayFollow(plan, Last(world.log, env), action) && !action.Wait?
    modifies world
    ensures world.Valid() && world.log == old(world.log) + [action] && reply == env.replies(old(world.step))
    ensures Last(world.log, env) == Some(action) && Orderly(world.log, env)
    ensures LocalAfter(world.log, env) == Update(before, action, reply)
    ensures if reply.raises || (action == Spawn && reply.value <= 0)
            then Caused(External, world.log, env) && FailsExactly(Some(External), world.log, env)
            else Smooth(world.log, env)
  {
    hide LocalAfter, Update, MayFollow, Orderly, FailsExactly;
    assert env.from <= |world.log| by { BareFrom(world.log, env); }
    OrderlyNext(world.log, env, action);
    LocalNext(world.log, env, action);
    reply := world.Call(action);
    if reply.raises || (action == Spawn && reply.value <= 0) { FailureIsExact(world.log, env, External); }
  }

  lemma BareFrom(log: seq<Action>, env: Setting)
    requires Smooth(log, env)
    ensures env.from <= |log|
  {
  }

  /** A call whose failure ends the setup. */
  method Must(world: World, mailbox: Mailbox, plan: Plan, ghost env: Setting, ghost before: Local, action: Action)
    returns (failure: Option<Failure>)
    requires Fits(world, plan, env) && world.Valid() && mailbox.Valid()
    requires Going(world.log, env, before, mailbox.handled, mailbox.events) && Parting(world.log, env, mailbox.detached)
    requires MayFollow(plan, Last(world.log, env), action) && action != Spawn && !action.Wait?
    requires action == Unload ==> mailbox.events == []
    requires Marked(world.log, env, mailbox.posted, mailbox.resumePhase, action)
    modifies world, mailbox`events, mailbox`detached
    ensures world.Valid() && mailbox.Valid() && mailbox.milestones == old(mailbox.milestones)
    ensures world.log == old(world.log) + [action] && Last(world.log, env) == Some(action)
    ensures Parting(world.log, env, mailbox.detached)
    ensures failure == if env.replies(old(world.step)).raises then Some(External) else None
    ensures failure.None? ==>
              Going(world.log, env, Update(before, action, env.replies(old(world.step))), mailbox.handled,
                    mailbox.events)
    ensures failure.Some? ==> Stopped(External, world.log, env, before)
    ensures action != Resume ==> Ready(world.log, env, mailbox.posted, mailbox.resumePhase)
    ensures env.arrivals(old(world.step)) == [] ==> mailbox.events == old(mailbox.events)
    ensures mailbox.events
            == old(mailbox.events) + StampAll(env.arrivals(old(world.step)), mailbox.posted, mailbox.resumePhase)
  {
    hide Reached, Remembers, LocalAfter, MayFollow, Orderly, Parting, Has, Smooth, Marked, Going, Caused;
    ghost var log := world.log;
    GoingFrom(log, env, before, mailbox.handled, mailbox.events);
    var reply := Try(world, mailbox, plan, env, before, action);
    if action != Resume { StillMarked(log, env, mailbox.posted, mailbox.resumePhase, action); }
    return if reply.raises then Some(External) else None;
  }

  /** The mailbox is marked for any action that neither posts nor resumes. */
  ghost predicate Ready(log: seq<Action>, env: Setting, posted: bool, phase: ResumePhase) {
    forall a: Action :: a != Post && a != Resume ==> Marked(log, env, posted, phase, a)
  }

  lemma ReadyFor(log: seq<Action>, env: Setting, posted: bool, phase: ResumePhase, action: Action)
    requires Ready(log, env, posted, phase) && action != Post && action != Resume
    ensures Marked(log, env, posted, phase, action)
  {
  }

  /** What the calls between the attachment and the posting do to the worker's state. */
  lemma LoadingCalls(plan: Plan, l: Local, reply: Reply)
    ensures MayFollow(plan, Some(Attach), OnDetached) && MayFollow(plan, Some(OnDetached), CreateScript)
    ensures MayFollow(plan, Some(CreateScript), OnMessage) && MayFollow(plan, Some(OnMessage), Load)
    ensures MayFollow(plan, Some(Load), Post)
    ensures Update(l, OnDetached, reply) == l && Update(l, OnMessage, reply) == l && Update(l, Post, reply) == l
    ensures !reply.raises ==> Update(l, CreateScript, reply) == l.(script := true)
    ensures !reply.raises ==> Update(l, Load, reply) == l.(loaded := true)
  {
  }

  /** Hook up and create the agent script. */
  method CreateAgent(world: World, mailbox: Mailbox, plan: Plan, before: Local, ghost env: Setting, ghost c: Course)
    returns (failure: Option<Failure>, l: Local)
    requires Fits(world, plan, env) && world.Valid() && mailbox.Valid()
    requires Going(world.log, env, before, mailbox.handled, mailbox.events) && Parting(world.log, env, mailbox.detached)
    requires Last(world.log, env) == Some(Attach) && world.step == env.from + 3
    requires Ready(world.log, env, mailbox.posted, mailbox.resumePhase)
    modifies world, mailbox`events, mailbox`detached
    ensures world.Valid() && mailbox.Valid() && mailbox.milestones == old(mailbox.milestones)
    ensures old(world.log) <= world.log && Parting(world.log, env, mailbox.detached)
    ensures l.pid == before.pid
    ensures failure.Some? ==> Stopped(failure.value, world.log, env, l)
    ensures failure.None? ==>
              && Going(world.log, env, l, mailbox.handled, mailbox.events) && Last(world.log, env) == Some(CreateScript)
              && world.step == env.from + 5 && Ready(world.log, env, mailbox.posted, mailbox.resumePhase)
    ensures Cooperative(env, c) && old(mailbox.events) == [] ==> failure.None? && mailbox.events == []
  {
    hide Reached, LocalAfter, Orderly, Parting, Smooth, Marked, Going, Cooperative, Stopped, Ready, StampAll, Has;
    hide MayFollow, Update, Last, Remembers, Caused;
    l := before;
    Quiet(env, c);
    LoadingCalls(plan, l, env.replies(world.step));
    ReadyFor(world.log, env, mailbox.posted, mailbox.resumePhase, OnDetached);
    failure := Must(world, mailbox, plan, env, l, OnDetached);
    if failure.Some? { return failure, l; }
    LoadingCalls(plan, l, env.replies(world.step));
    ReadyFor(world.log, env, mailbox.posted, mailbox.resumePhase, CreateScript);
    failure := Must(world, mailbox, plan, env, l, CreateScript);
    if failure.Some? { return failure, l; }
    l := l.(script := true);
  }

  /** Hook up and load the agent script. */
  method LoadAgent(world: World, mailbox: Mailbox, plan: Plan, before: Local, ghost env: Setting, ghost c: Course)
    returns (failure: Option<Failure>, l: Local)
    requires Fits(world, plan, env) && world.Valid() && mailbox.Valid()
    requires Going(world.log, env, before, mailbox.handled, mailbox.events) && Parting(world.log, env, mailbox.detached)
    requires Last(world.log, env) == Some(CreateScript) && world.step == env.from + 5
    requires Ready(world.log, env, mailbox.posted, mailbox.resumePhase)
    modifies world, mailbox`events, mailbox`detached
    ensures world.Valid() && mailbox.Valid() && mailbox.milestones == old(mailbox.milestones)
    ensures old(world.log) <= world.log && Parting(world.log, env, mailbox.detached)
    ensures l.pid == before.pid
    ensures failure.Some? ==> Stopped(failure.value, world.log, env, l)
    ensures failure.None? ==>
              && Going(world.log, env, l, mailbox.handled, mailbox.events) && Last(world.log, env) == Some(Load)
              && world.step == env.from + 7 && Ready(world.log, env, mailbox.posted, mailbox.resumePhase)
    ensures Cooperative(env, c) && old(mailbox.events) == [] ==> failure.None? && mailbox.events == []
  {
    hide Reached, LocalAfter, Orderly, Parting, Smooth, Marked, Going, Cooperative, Stopped, Ready, StampAll, Has;
    hide MayFollow, Update, Last, Remembers, Caused;
    l := before;
    Quiet(env, c);
    LoadingCalls(plan, l, env.replies(world.step));
    ReadyFor(world.log, env, mailbox.posted, mailbox.resumePhase, OnMessage);
    failure := Must(world, mailbox, plan, env, l, OnMessage);
    if failure.Some? { return failure, l; }
    LoadingCalls(plan, l, env.replies(world.step));
    ReadyFor(world.log, env, mailbox.posted, mailbox.resumePhase, Load);
    failure := Must(world, mailbox, plan, env, l, Load);
    if failure.Some? { return failure, l; }
    l := l.(loaded := true);
  }

  /** Post the request, if it fits and there is time. */
  method PostRequest(world: World, mailbox: Mailbox, plan: Plan, l: Local, ghost env: Setting, ghost c: Course)
    returns (failure: Option<Failure>)
    requires Fits(world, plan, env) && world.Valid() && mailbox.Valid()
    requires Going(world.log, env, l, mailbox.handled, mailbox.events) && Parting(world.log, env, mailbox.detached)
    requires Last(world.log, env) == Some(Load) && world.step == env.from + 7
    requires mailbox.resumePhase == BeforeResume && Ready(world.log, env, false, BeforeResume)
    modifies world, mailbox`posted, mailbox`events, mailbox`detached
    ensures world.Valid() && mailbox.Valid() && mailbox.milestones == old(mailbox.milestones)
    ensures old(world.log) <= world.log && Parting(world.log, env, mailbox.detached)
    ensures failure.Some? ==> Stopped(failure.value, world.log, env, l)
    ensures failure.None? ==>
              && Going(world.log, env, l, mailbox.handled, mailbox.events)
              && Last(world.log, env) == Some(Post) && mailbox.posted
              && world.step == env.from + 8 && Ready(world.log, env, true, BeforeResume)
              && mailbox.events == old(mailbox.events) + StampAll(env.arrivals(env.from + 7), true, BeforeResume)
    ensures Cooperative(env, c) ==> failure.None?
  {
    hide Reached, LocalAfter, Orderly, Parting, Smooth, Marked, Going, Cooperative, Stopped, Ready, StampAll, Has;
    hide MayFollow, Update, Last, Remembers, Caused;
    Quiet(env, c);
    GoingFrom(world.log, env, l, mailbox.handled, mailbox.events);
    if world.step >= plan.deadline {
      AfterLoad(world.log, env, l);
      return Some(Timeout);
    }
    if !plan.envelopeFits {
      AfterLoad(world.log, env, l);
      return Some(RequestInvalid);
    }
    mailbox.MarkPosted();
    PostMarked(world.log, env);
    LoadingCalls(plan, l, env.replies(world.step));
    failure := Must(world, mailbox, plan, env, l, Post);
  }

  /** Load the agent, post the request and wait until it is initialized. */
  method Prepare(world: World, mailbox: Mailbox, plan: Plan, before: Local, ghost env: Setting, ghost c: Course)
    returns (failure: Option<Failure>, l: Local)
    requires Fits(world, plan, env) && world.Valid() && mailbox.Valid()
    requires Going(world.log, env, before, mailbox.handled, mailbox.events) && Parting(world.log, env, mailbox.detached)
    requires Last(world.log, env) == Some(Attach) && world.step == env.from + 3
    requires mailbox.Now() == Seen(mailbox.pid, false, false, None, BeforeResume) && mailbox.events == []
    requires mailbox.pid == Pid(env)
    requires !mailbox.posted && Ready(world.log, env, mailbox.posted, mailbox.resumePhase)
    modifies world, mailbox
    ensures world.Valid() && mailbox.Valid() && old(world.log) <= world.log
    ensures l.pid == before.pid && Parting(world.log, env, mailbox.detached)
    ensures failure.Some? ==> Stopped(failure.value, world.log, env, l)
    ensures failure.None? ==>
              Initialization(world.log, env, l, mailbox.handled, mailbox.posted, mailbox.Now()) && mailbox.events == []
    ensures Cooperative(env, c) ==>
              && failure.None? && world.step == ResumeStep(env.from, c) && mailbox.events == []
              && mailbox.generation == Some(c.generation)
  {
    hide Reached, LocalAfter, Orderly, Parting, Smooth, Marked, Going, Cooperative, Stopped, Ready, StampAll, Has;
    hide MayFollow, Update, Last, Remembers, Knows, Caused, Initialization, Learned, OnlyLearns, InWait, Hopeful;
    hide Heard, Pid;
    failure, l := CreateAgent(world, mailbox, plan, before, env, c);
    if failure.Some? { return failure, l; }
    failure, l := LoadAgent(world, mailbox, plan, l, env, c);
    if failure.Some? { return failure, l; }
    ghost var seen, queued := mailbox.Now(), mailbox.events;
    failure := PostRequest(world, mailbox, plan, l, env, c);
    if failure.Some? { return failure, l; }
    Quiet(env, c);
    ReadyFor(world.log, env, true, BeforeResume, Wait(WaitInitialized));
    ExpectInitialized(env, queued, mailbox.events, seen, c);
    PostWaits();
    failure := WaitFor(world, mailbox, WaitInitialized, plan, env, l, c.initialized, Initialized(c.generation, true));
    if failure.None? { Initializes(world.log, env, l, mailbox.handled, mailbox.posted, seen, mailbox.Now()); }
    LearnedInitialized(seen, c.generation);
  }

  /** The agent reported its initialization, everything heard is handled, and the process is not resumed yet. */
  ghost predicate Initialization(log: seq<Action>, env: Setting, l: Local, handled: seq<Stamped>, posted: bool,
                                 seen: Seen) {
    && Going(log, env, l, handled, []) && InWait(Last(log, env), WaitInitialized) && posted
    && seen == Seen(seen.pid, true, false, seen.generation, BeforeResume) && seen.generation.Some?
    && Ready(log, env, posted, BeforeResume)
  }

  /** Up to the initialization a cooperative run has no failing call and no arrival. */
  lemma Quiet(env: Setting, c: Course)
    ensures Cooperative(env, c) ==>
              && env.plan.envelopeFits && env.from + 7 <= c.initialized < env.plan.deadline
              && env.replies(env.from + 1).value > 0
              && (forall s :: env.from <= s <= env.from + 7 ==> !env.replies(s).raises)
              && (forall s :: env.from <= s < c.initialized ==> env.arrivals(s) == [])
  {
  }

  lemma AfterLoad(log: seq<Action>, env: Setting, l: Local)
    requires Orderly(log, env) && Returned(log, env) && l == LocalAfter(log, env) && Last(log, env) == Some(Load)
    ensures |log| >= env.plan.deadline ==> Stopped(Timeout, log, env, l)
    ensures |log| < env.plan.deadline && !env.plan.envelopeFits ==> Stopped(RequestInvalid, log, env, l)
  {
  }

  lemma PostMarked(log: seq<Action>, env: Setting)
    requires Ready(log, env, false, BeforeResume)
    ensures Marked(log, env, true, BeforeResume, Post)
  {
    ReadyFor(log, env, false, BeforeResume, OnDetached);
  }

  lemma PostWaits()
    ensures InWait(Some(Post), WaitInitialized) && InWait(Some(Resume), WaitInstalled)
  {
  }

  lemma ExpectInitialized(env: Setting, queued: seq<Stamped>, events: seq<Stamped>, seen: Seen, c: Course)
    requires seen == Seen(seen.pid, false, false, None, BeforeResume)
    requires events == queued + StampAll(env.arrivals(env.from + 7), true, BeforeResume)
    ensures Cooperative(env, c) && queued == [] ==>
              Hopeful(env.from + 8, env, events, true, seen, WaitInitialized, c.initialized,
                      Initialized(c.generation, true))
  {
    if Cooperative(env, c) && queued == [] {
      if c.initialized == env.from + 7 {
        assert events == [Stamped(Message(Initialized(c.generation, true)), true, BeforeResume)];
      } else {
        assert env.arrivals(env.from + 7) == [];
      }
    }
  }

  lemma Initializes(log: seq<Action>, env: Setting, l: Local, handled: seq<Stamped>, posted: bool, before: Seen,
                    seen: Seen)
    requires Going(log, env, l, handled, []) && InWait(Last(log, env), WaitInitialized) && posted
    requires before == Seen(before.pid, false, false, None, BeforeResume) && OnlyLearns(before, seen)
    requires Arrived(WaitInitialized, seen.initialized, seen.installed) && (seen.installed ==> seen.phase.Resumed?)
    requires Marked(log, env, posted, seen.phase, Wait(WaitInitialized)) && (seen.initialized ==> seen.generation.Some?)
    ensures Initialization(log, env, l, handled, posted, seen)
  {
    hide Going, InWait;
  }

  lemma LearnedInitialized(seen: Seen, generation: int)
    ensures Learned(seen, Initialized(generation, true)).generation == Some(generation)
  {
  }

  /** If the plan asks for it, unload the script and detach before the resume. */
  method DetachEarly(world: World, mailbox: Mailbox, plan: Plan, before: Local, ghost env: Setting, ghost c: Course)
    returns (failure: Option<Failure>, l: Local)
    requires Fits(world, plan, env) && world.Valid() && mailbox.Valid() && Parting(world.log, env, mailbox.detached)
    requires Initialization(world.log, env, before, mailbox.handled, mailbox.posted, mailbox.Now())
    requires mailbox.events == []
    modifies world, mailbox`events, mailbox`detached
    ensures world.Valid() && mailbox.Valid() && old(world.log) <= world.log
    ensures mailbox.milestones == old(mailbox.milestones) && Parting(world.log, env, mailbox.detached)
    ensures l.pid == before.pid
    ensures failure.Some? ==> Stopped(failure.value, world.log, env, l)
    ensures failure.None? ==>
              && Going(world.log, env, l, mailbox.handled, mailbox.events)
              && MayFollow(plan, Last(world.log, env), Resume)
              && Ready(world.log, env, mailbox.posted, mailbox.resumePhase)
              && world.step == old(world.step) + (if plan.detachBeforeResume then 2 else 0)
              && (if plan.detachBeforeResume then Deaf(world.log, env) else mailbox.events == [])
    ensures Cooperative(env, c) && old(world.step) == ResumeStep(env.from, c) ==> failure.None?
  {
    hide Reached, LocalAfter, Orderly, Parting, Smooth, Marked, Going, Cooperative, Stopped, Ready, StampAll, Has;
    hide MayFollow, Update, Last, Remembers, Caused, InWait, Deaf;
    l := before;
    Unhindered(env, c);
    ResumingCalls(plan, Last(world.log, env), l, env.replies(world.step));
    if !plan.detachBeforeResume { return None, l; }
    ReadyFor(world.log, env, mailbox.posted, mailbox.resumePhase, Unload);
    ghost var log := world.log;
    GoingFrom(log, env, l, mailbox.handled, []);
    failure := Must(world, mailbox, plan, env, l, Unload);
    if failure.Some? { return failure, l; }
    NowDeaf(log, env);
    l := l.(loaded := false, script := false);
    PostWaits();
    ResumingCalls(plan, Some(Post), l, env.replies(world.step));
    ReadyFor(world.log, env, mailbox.posted, mailbox.resumePhase, Detach);
    log := world.log;
    failure := Must(world, mailbox, plan, env, l, Detach);
    if failure.Some? { return failure, l; }
    StillDeaf(log, env, Detach);
    l := l.(session := false, earlyDetached := true);
  }

  lemma NowDeaf(log: seq<Action>, env: Setting)
    requires env.plan.detachBeforeResume && env.from <= |log|
    ensures Deaf(log + [Unload], env)
  {
    HasNext(log, env.from, Unload, Unload);
  }

  /** What the calls between the initialization and the resume do to the worker's state. */
  lemma ResumingCalls(plan: Plan, last: Option<Action>, l: Local, reply: Reply)
    requires InWait(last, WaitInitialized)
    ensures MayFollow(plan, last, if plan.detachBeforeResume then Unload else Resume)
    ensures MayFollow(plan, Some(Unload), Detach) && MayFollow(plan, Some(Detach), Resume)
    ensures !reply.raises ==>
              && Update(l, Unload, reply) == l.(loaded := false, script := false)
              && Update(l, Detach, reply) == l.(session := false, earlyDetached := true)
              && (l.pid.Some? ==> Update(l, Resume, reply)
                                  == l.(resumed := true, sent := l.sent + [ProcessResumed(l.pid.value)]))
  {
  }

  /** After the initialization a cooperative run has no failing call, and no arrival before the installation. */
  lemma Unhindered(env: Setting, c: Course)
    ensures Cooperative(env, c) ==>
              && c.installed < env.plan.deadline && c.initialized < ResumeStep(env.from, c)
              && (forall s :: env.from <= s <= c.installed ==> !env.replies(s).raises)
              && (if env.plan.detachBeforeResume then
                    ReceiptComes(env.replies, ResumeStep(env.from, c) + 3, c.installed,
                                 env.replies(env.from + 1).value, c.generation)
                  else
                    ResumeStep(env.from, c) < c.installed && env.arrivals(ResumeStep(env.from, c)) == [])
  {
  }

  /** Resume the process, detaching first if asked to, and wait until every scene is installed. */
  method Activate(world: World, mailbox: Mailbox, plan: Plan, before: Local, ghost env: Setting, ghost c: Course)
    returns (failure: Option<Failure>, l: Local)
    requires Fits(world, plan, env) && world.Valid() && mailbox.Valid() && Parting(world.log, env, mailbox.detached)
    requires Initialization(world.log, env, before, mailbox.handled, mailbox.posted, mailbox.Now())
    requires before.pid == Some(mailbox.pid) && mailbox.pid == Pid(env) && mailbox.events == []
    modifies world, mailbox
    ensures world.Valid() && mailbox.Valid() && old(world.log) <= world.log && l.pid == before.pid
    ensures Parting(world.log, env, mailbox.detached)
    ensures failure.Some? ==> Stopped(failure.value, world.log, env, l)
    ensures failure.None? ==>
              && Orderly(world.log, env) && l == LocalAfter(world.log, env) && l.resumed
              && mailbox.generation == old(mailbox.generation)
              && mailbox.generation.Some? && Installation(mailbox.milestones, mailbox.pid, mailbox.generation.value)
              && Evidence(world.log, env, mailbox.pid, mailbox.generation.value)
    ensures Cooperative(env, c) && old(world.step) == ResumeStep(env.from, c)
            && old(mailbox.generation) == Some(c.generation) ==>
              failure.None?
  {
    hide LocalAfter, Orderly, Parting, Smooth, Marked, Going, Cooperative, Stopped, Ready, StampAll, Has, MayFollow;
    hide Update, Last, Caused, InWait, Receipted, Remembers, Deaf, Heard, Pid, Evidence;
    failure, l := DetachEarly(world, mailbox, plan, before, env, c);
    if failure.Some? { return failure, l; }
    Unhindered(env, c);
    ghost var log := world.log;
    GoingFrom(log, env, l, mailbox.handled, mailbox.events);
    ResumeMarked(log, env, mailbox.posted);
    PostWaits();
    ResumingCalls(plan, Some(Post), l, env.replies(world.step));
    mailbox.MarkResumeStarted();
    failure := Must(world, mailbox, plan, env, l, Resume);
    if failure.Some? { return failure, l; }
    mailbox.MarkResumed();
    ResumedMarked(log, env, mailbox.posted);
    if plan.detachBeforeResume { StillDeaf(log, env, Resume); }
    l := l.(resumed := true, sent := l.sent + [ProcessResumed(mailbox.pid)]);
    failure := AwaitInstallation(world, mailbox, plan, l, env, c);
  }

  method AwaitInstallation(world: World, mailbox: Mailbox, plan: Plan, l: Local, ghost env: Setting, ghost c: Course)
    returns (failure: Option<Failure>)
    requires Fits(world, plan, env) && world.Valid() && mailbox.Valid() && Parting(world.log, env, mailbox.detached)
    requires Going(world.log, env, l, mailbox.handled, mailbox.events) && Last(world.log, env) == Some(Resume)
    requires mailbox.Now() == Seen(mailbox.pid, true, false, mailbox.generation, Resumed) && mailbox.posted
    requires Marked(world.log, env, mailbox.posted, mailbox.resumePhase, Wait(WaitInstalled))
    requires Marked(world.log, env, mailbox.posted, mailbox.resumePhase, ReadStatus)
    requires mailbox.pid == Pid(env) && (plan.detachBeforeResume ==> Deaf(world.log, env))
    modifies world, mailbox`events, mailbox`detached, mailbox`initialized, mailbox`installed, mailbox`generation,
             mailbox`milestones, mailbox`handled
    ensures world.Valid() && mailbox.Valid() && old(world.log) <= world.log
    ensures mailbox.generation == old(mailbox.generation) && Parting(world.log, env, mailbox.detached)
    ensures failure.Some? ==> Stopped(failure.value, world.log, env, l)
    ensures failure.None? ==>
              && Orderly(world.log, env) && l == LocalAfter(world.log, env) && mailbox.installed
              && Evidence(world.log, env, mailbox.pid, mailbox.generation.value)
    ensures Cooperative(env, c) && mailbox.generation == Some(c.generation)
            && old(world.step) == ResumeStep(env.from, c) + (if plan.detachBeforeResume then 3 else 1)
            && (!plan.detachBeforeResume ==> old(mailbox.events) == []) ==>
              failure.None?
  {
    hide Reached, LocalAfter, Orderly, Parting, Smooth, Marked, Going, Cooperative, Stopped, StampAll, Has, MayFollow;
    hide Update, Last, Caused, InWait, Receipted, Learned, OnlyLearns, Hopeful, Refusal, Remembers, Knows, Deaf;
    hide Heard, Pid, Evidence, Returned;
    Unhindered(env, c);
    ghost var now := mailbox.Now();
    PidIs(env);
    if plan.detachBeforeResume {
      failure := WaitForDetachedInstallation(world, mailbox, plan, env, l, c.installed);
      if failure.Some? { return; }
      GoingFrom(world.log, env, l, mailbox.handled, mailbox.events);
      Evident(world.log, env, now, mailbox.posted);
    } else {
      ExpectInstalled(env, now, c);
      PostWaits();
      failure := WaitFor(world, mailbox, WaitInstalled, plan, env, l, c.installed, Installed(c.generation, true));
      LearnedInstalled(now, mailbox.Now());
      if failure.Some? { return; }
      GoingFrom(world.log, env, l, mailbox.handled, []);
      Evident(world.log, env, mailbox.Now(), mailbox.posted);
    }
  }

  lemma PidIs(env: Setting)
    ensures Pid(env) == env.replies(env.from + 1).value
  {
  }

  lemma ResumeMarked(log: seq<Action>, env: Setting, posted: bool)
    requires Ready(log, env, posted, BeforeResume)
    ensures Marked(log, env, posted, Resuming, Resume)
  {
    ReadyFor(log, env, posted, BeforeResume, OnDetached);
  }

  lemma ResumedMarked(log: seq<Action>, env: Setting, posted: bool)
    requires Marked(log, env, posted, Resuming, Resume) && env.from <= |log|
    ensures Marked(log + [Resume], env, posted, Resumed, Wait(WaitInstalled))
    ensures Marked(log + [Resume], env, posted, Resumed, ReadStatus)
  {
    hide Has;
    HasNext(log, env.from, Resume, Post);
    HasNext(log, env.from, Resume, Resume);
  }

  lemma ExpectInstalled(env: Setting, seen: Seen, c: Course)
    requires seen == Seen(seen.pid, true, false, seen.generation, Resumed) && !env.plan.detachBeforeResume
    ensures Cooperative(env, c) && seen.generation == Some(c.generation) ==>
              Hopeful(ResumeStep(env.from, c) + 1, env, [], true, seen, WaitInstalled, c.installed,
                      Installed(c.generation, true))
  {
  }

  lemma LearnedInstalled(before: Seen, seen: Seen)
    requires OnlyLearns(before, seen) && before.initialized
    ensures seen.generation == before.generation && seen.phase == before.phase && seen.initialized
    ensures Arrived(WaitInstalled, seen.initialized, seen.installed) ==> seen.installed
  {
  }

  /** The report about a process that was spawned and not resumed. */
  function Cleanup(l: Local, cleaned: bool): seq<WorkerEvent> {
    if l.pid.Some? && !l.resumed then [SpawnCleanup(l.pid.value, cleaned)] else []
  }

  /** Try to end a spawned process that was never resumed, and report whether its session saw it end. */
  method CleanSpawn(world: World, mailbox: Mailbox?, plan: Plan, l: Local, ghost env: Setting)
    returns (report: seq<WorkerEvent>, cleaned: bool)
    requires Fits(world, plan, env) && world.Valid() && env.from <= world.step
    requires mailbox != null ==> mailbox.Valid() && Parting(world.log, env, mailbox.detached)
    modifies world, mailbox
    ensures world.Valid() && old(world.log) <= world.log
    ensures report == Cleanup(l, cleaned)
    ensures l.pid.Some? && !l.resumed ==> (cleaned <==> mailbox != null && mailbox.detached == Some(true))
    ensures cleaned ==> exists s :: env.from <= s < world.step && Detached(true) in env.arrivals(s)
    ensures forall s :: |old(world.log)| <= s < |world.log| ==> world.log[s] == Abort || world.log[s] == WaitExit
    ensures |old(world.log)| < |world.log| <==>
              && l.pid.Some? && !l.resumed && l.loaded && mailbox != null && old(mailbox.detached) != Some(true)
              && old(world.step) < plan.cleanupDeadline
    ensures |old(world.log)| < |world.log| ==>
              && world.log[|old(world.log)|] == Abort
              && (cleaned || mailbox.detached == Some(false) || world.step >= plan.cleanupDeadline)
  {
    hide Reached, Remembers;
    cleaned := false;
    if l.pid.None? || l.resumed { return [], cleaned; }
    if mailbox != null && mailbox.detached == Some(true) {
      cleaned := true;
    } else if l.loaded && mailbox != null && world.step < plan.cleanupDeadline {
      // A raising or mismatching abort call still waits for the process to end.
      ghost var log, parted := world.log, mailbox.detached;
      var response := world.CallWith(Abort, mailbox);
      PartingNext(log, world.log, env, parted, mailbox.detached);
      cleaned := WaitForProcessExit(world, mailbox, plan.cleanupDeadline, env);
    }
    return [SpawnCleanup(l.pid.value, cleaned)], cleaned;
  }

  /** What the ghost output records: the state at the end of the setup, the step of that end, the failure, and the
      milestones of the mailbox. */
  datatype Account = Account(l: Local, end: nat, failure: Option<Failure>, milestones: seq<Milestone>)

  /** The setup made its calls in order up to step `end`, and they led to the recorded state. */
  ghost predicate Told(log: seq<Action>, env: Setting, account: Account) {
    && env.from <= account.end <= |log| && Orderly(log[..account.end], env)
    && account.l == LocalAfter(log[..account.end], env)
  }

  ghost predicate CallRaised(log: seq<Action>, env: Setting, end: nat, action: Action) {
    exists s :: end <= s < |log| && log[s] == action && env.replies(s).raises
  }

  ghost predicate CallReturned(log: seq<Action>, env: Setting, end: nat, action: Action) {
    exists s :: end <= s < |log| && log[s] == action && !env.replies(s).raises
  }

  /** Release the script and the session that are still held. */
  method Release(world: World, l: Local, ghost env: Setting) returns (failed: bool, detached: bool)
    requires env.replies == world.replies && world.Valid()
    modifies world
    ensures world.Valid() && old(world.log) <= world.log
    ensures world.log[|old(world.log)|..] == (if l.script then [Unload] else []) + (if l.session then [Detach] else [])
    ensures failed <==> (l.script && env.replies(old(world.step)).raises)
                        || (l.session && env.replies(old(world.step) + if l.script then 1 else 0).raises)
    ensures detached <==> l.session && !env.replies(old(world.step) + if l.script then 1 else 0).raises
  {
    failed, detached := false, false;
    if l.script {
      var unload := world.Call(Unload);
      failed := unload.raises;
    }
    if l.session {
      var detach := world.Call(Detach);
      if detach.raises { failed := true; } else { detached := true; }
    }
  }

  /** What the release calls amount to. */
  lemma Releases(log: seq<Action>, later: seq<Action>, l: Local, env: Setting)
    requires log <= later
    requires later[|log|..] == (if l.script then [Unload] else []) + (if l.session then [Detach] else [])
    ensures CallRaised(later, env, |log|, Unload) <==> l.script && env.replies(|log|).raises
    ensures var d := |log| + if l.script then 1 else 0;
            && (CallRaised(later, env, |log|, Detach) <==> l.session && env.replies(d).raises)
            && (CallReturned(later, env, |log|, Detach) <==> l.session && !env.replies(d).raises)
  {
    var tail := later[|log|..];
    var d := |log| + if l.script then 1 else 0;
    assert l.script ==> tail[0] == Unload && later[|log|] == Unload;
    assert l.session ==> tail[d - |log|] == Detach && later[d] == Detach;
    assert forall s :: |log| <= s < |later| ==> later[s] == tail[s - |log|];
  }

  lemma ReleaseOnly(log: seq<Action>, later: seq<Action>, env: Setting, end: nat, action: Action)
    requires log <= later && end <= |log| && action != Abort && action != WaitExit
    requires forall s :: end <= s < |log| ==> log[s] == Abort || log[s] == WaitExit
    ensures CallRaised(later, env, end, action) <==> CallRaised(later, env, |log|, action)
    ensures CallReturned(later, env, end, action) <==> CallReturned(later, env, |log|, action)
  {
    assert forall s :: end <= s < |log| ==> later[s] == log[s];
  }

  /** The cleanup after the setup: end an unresumed process, then release what is held. */
  method CleanUp(world: World, mailbox: Mailbox?, plan: Plan, l: Local, ghost env: Setting)
    returns (report: seq<WorkerEvent>, cleaned: bool, failed: bool, detached: bool)
    requires Fits(world, plan, env) && world.Valid() && env.from <= world.step
    requires mailbox != null ==> mailbox.Valid() && Parting(world.log, env, mailbox.detached)
    modifies world, mailbox
    ensures world.Valid() && old(world.log) <= world.log && report == Cleanup(l, cleaned)
    ensures cleaned ==> exists s :: env.from <= s < world.step && Detached(true) in env.arrivals(s)
    ensures failed <==> CallRaised(world.log, env, |old(world.log)|, Unload)
                        || CallRaised(world.log, env, |old(world.log)|, Detach)
    ensures detached <==> CallReturned(world.log, env, |old(world.log)|, Detach)
    ensures l.script ==> Has(world.log, |old(world.log)|, world.step, Unload)
    ensures l.session ==> Has(world.log, |old(world.log)|, world.step, Detach)
  {
    hide Parting, CallRaised, CallReturned, Cleanup, Has, Reached, Remembers;
    ghost var end := |world.log|;
    report, cleaned := CleanSpawn(world, mailbox, plan, l, env);
    ghost var aborted := world.log;
    failed, detached := Release(world, l, env);
    Releases(aborted, world.log, l, env);
    ReleaseOnly(aborted, world.log, env, end, Unload);
    ReleaseOnly(aborted, world.log, env, end, Detach);
    ReleasedThere(aborted, world.log, l, end);
  }

  /** The whole worker.  Whichever external calls raise and whatever arrives, its events are a complete protocol run
      with exactly one outcome followed by completion. A result stands for an installation of the spawned PID, an error
      has the cause of its kind, and a cooperative course ends in a result. */
  method RunInjectionWorker(world: World, plan: Plan, ghost env: Setting, ghost c: Course)
    returns (sent: seq<WorkerEvent>, outcome: WorkerEvent, cleaned: bool, cleanupFailed: bool, ghost account: Account)
    requires Fits(world, plan, env) && world.Valid() && env.from == world.step
    modifies world
    ensures world.Valid() && old(world.log) <= world.log && Told(world.log, env, account)
    ensures sent == Opening(account.l.pid, account.l.resumed) + Cleanup(account.l, cleaned)
                    + [outcome] + [Complete(cleanupFailed)]
    ensures Run(sent).Some? && Run(sent).value.complete && Finished(sent)
    ensures account.l.pid.Some? ==> account.l.pid.value == env.replies(env.from + 1).value
    ensures cleaned ==> exists s :: env.from <= s < world.step && Detached(true) in env.arrivals(s)
    ensures cleanupFailed <==> CallRaised(world.log, env, account.end, Unload)
                               || CallRaised(world.log, env, account.end, Detach)
    ensures account.l.script ==> Has(world.log, account.end, world.step, Unload)
    ensures account.l.session ==> Has(world.log, account.end, world.step, Detach)
    ensures FailsExactly(account.failure, world.log[..account.end], env)
    ensures if account.failure.Some? then
              && outcome == ErrorEvent
              && Caused(account.failure.value, world.log[..account.end], env)
            else
              && outcome.ResultEvent? && account.l.resumed && account.l.pid == Some(outcome.pid)
              && Installation(account.milestones, outcome.pid, outcome.generation)
              && Evidence(world.log[..account.end], env, outcome.pid, outcome.generation)
              && (outcome.cleanupDetached <==>
                    && (account.l.earlyDetached || CallReturned(world.log, env, account.end, Detach))
                    && !cleanupFailed)
    ensures Cooperative(env, c) ==> account.failure.None? && outcome.generation == c.generation
  {
    hide Reached, Remembers, FailsExactly;
    hide Run, LocalAfter, Orderly, Caused, Evidence, Installation, Cooperative, Parting, CallRaised, CallReturned;
    hide Opened, Opening, Cleanup, Finished, Has;
    var r, l, mailbox := Setup(world, plan, env, c);
    ghost var failure := if r.Err? then Some(r.error) else None;
    ghost var log, end := world.log, |world.log|;
    account := Account(l, end, failure, if mailbox != null then mailbox.milestones else []);
    SetupOpens(log, env);
    OpenedSent(l);
    var cleanup, detached;
    cleanup, cleaned, cleanupFailed, detached := CleanUp(world, mailbox, plan, l, env);
    assert world.log[..end] == log;
    var released := (l.earlyDetached || detached) && !cleanupFailed;
    outcome := if r.Err? then ErrorEvent else ResultEvent(mailbox.pid, r.value, released);
    FinishRun(l, cleaned, outcome, cleanupFailed);
    sent := l.sent + cleanup + [outcome] + [Complete(cleanupFailed)];
  }

  lemma OpenedSent(l: Local)
    requires Opened(l)
    ensures l.sent == Opening(l.pid, l.resumed)
  {
  }

  lemma ReleasedThere(log: seq<Action>, later: seq<Action>, l: Local, end: nat)
    requires log <= later && end <= |log|
    requires later[|log|..] == (if l.script then [Unload] else []) + (if l.session then [Detach] else [])
    ensures l.script ==> Has(later, end, |later|, Unload)
    ensures l.session ==> Has(later, end, |later|, Detach)
  {
    var tail := later[|log|..];
    if l.script { assert tail[0] == Unload && later[|log|] == Unload; }
    if l.session { assert tail[|tail| - 1] == Detach && later[|later| - 1] == Detach; }
  }

  /** The opening, at most one cleanup report, the outcome and the completion are a complete protocol run. */
  lemma FinishRun(l: Local, cleaned: bool, outcome: WorkerEvent, cleanupFailed: bool)
    requires Opened(l)
    requires outcome.ErrorEvent? || (outcome.ResultEvent? && Some(outcome.pid) == l.pid && l.resumed)
    ensures var sent := l.sent + Cleanup(l, cleaned) + [outcome] + [Complete(cleanupFailed)];
            Run(sent).Some? && Run(sent).value.complete && Finished(sent)
  {
    hide Run;
    var opening := l.sent + Cleanup(l, cleaned);
    OpeningRuns(l, cleaned);
    SendStep(opening, outcome);
    SendStep(opening + [outcome], Complete(cleanupFailed));
    assert (opening + [outcome] + [Complete(cleanupFailed)])[..|opening|] == opening;
  }

  lemma OpeningRuns(l: Local, cleaned: bool)
    requires Opened(l)
    ensures Run(l.sent + Cleanup(l, cleaned))
            == Some(MonitorState(l.pid, l.resumed, NoOutcome, false, l.pid.Some? && !l.resumed))
    ensures NoneOutcome(l.sent + Cleanup(l, cleaned))
  {
    hide Run;
    NothingRuns();
    assert l.pid.None? ==> l.sent + Cleanup(l, cleaned) == [];
    if l.pid.Some? {
      var p := l.pid.value;
      SendStep([], SpawnedPid(p));
      assert [] + [SpawnedPid(p)] == [SpawnedPid(p)];
      SendStep([SpawnedPid(p)], ProcessResumed(p));
      SendStep([SpawnedPid(p)], SpawnCleanup(p, cleaned));
      assert [SpawnedPid(p)] + [ProcessResumed(p)] == [SpawnedPid(p), ProcessResumed(p)];
    }
    assert l.resumed ==> l.sent + Cleanup(l, cleaned) == l.sent;
  }

  lemma NothingRuns()
    ensures Run([]) == Some(START)
  {
  }
}
