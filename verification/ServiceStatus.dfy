/**
  The daemon's service status as an interleaving of start, close and set-error
  calls. Every call is a sequence of steps between which other calls may run;
  the service lock is a state component, taken and released by steps, and a
  start gives it up twice: while the old instance closes and while the new one
  starts.
 */
module ServiceStatus {
  import opened Wrappers

  datatype Status = Idle | Starting | Started | Stopping | Fatal

  type Thread = nat

  // Instances are numbered in the order they are built.
  type Instance = nat

  datatype Call = StartOrReload | CloseService | SetError

  // Where a call stands. The comment tells whether it holds the lock.
  datatype Pc =
    | StartEnter                                     // waiting for the lock
    | StartLocked                                    // held
    | StartClosing(previous: Instance)                   // free: closing the old instance
    | StartReenter                                   // waiting
    | StartBuilding                                  // held
    | StartCreating                                  // held: status is already Starting
    | StartRunning(instance: Instance)               // free: the new instance starts
    | StartReturned(instance: Instance, ok: bool)    // waiting
    | StartFinishing(instance: Instance, ok: bool)   // held
    | CloseEnter                                     // waiting
    | CloseLocked                                    // held
    | CloseClosing(taken: Option<Instance>)          // held while the instance closes
    | ErrorEnter                                     // waiting
    | ErrorLocked                                    // held
    | Done

  predicate Holds(pc: Pc) {
    pc.StartLocked? || pc.StartBuilding? || pc.StartCreating? || pc.StartFinishing?
    || pc.CloseLocked? || pc.CloseClosing? || pc.ErrorLocked?
  }

  /** The call is a start or reload that has not returned. */
  predicate IsStart(pc: Pc) {
    pc.StartEnter? || pc.StartLocked? || pc.StartClosing? || pc.StartReenter? || pc.StartBuilding?
    || pc.StartCreating? || pc.StartRunning? || pc.StartReturned? || pc.StartFinishing?
  }

  datatype State = State(
    status: Status,
    instance: Option<Instance>,
    lock: Option<Thread>,
    pc: map<Thread, Pc>,
    built: nat,               // instances built so far
    started: set<Instance>,   // instances whose start succeeded
    closed: set<Instance>)    // instances that were closed

  const INITIAL := State(Idle, None, None, map[], 0, {}, {})

  function Move(s: State, t: Thread, pc: Pc): State {
    s.(pc := s.pc[t := pc])
  }

  /** Takes the lock if it is free, and waits otherwise. */
  function Acquire(s: State, t: Thread, pc: Pc): State {
    if s.lock.None? then Move(s, t, pc).(lock := Some(t)) else s
  }

  function Release(s: State, t: Thread, pc: Pc): State {
    Move(s, t, pc).(lock := None)
  }

  /** One step of a call; `ok` is the outcome of building, starting or closing an instance. */
  function StepOf(s: State, t: Thread, ok: bool): State
    requires t in s.pc
  {
    match s.pc[t]
    case StartEnter => Acquire(s, t, StartLocked)
    case StartLocked =>
      if s.status == Stopping then Release(s, t, Done)
      else if s.instance.Some? then Release(s.(status := Stopping), t, StartClosing(s.instance.value))
      else Move(s, t, StartBuilding)
    case StartClosing(previous) => Move(s.(closed := s.closed + {previous}), t, StartReenter)
    case StartReenter => Acquire(s, t, StartBuilding)
    case StartBuilding => Move(s.(status := Starting), t, StartCreating)
    case StartCreating =>
      if !ok then Release(s.(status := Fatal), t, Done)
      else Release(s.(instance := Some(s.built), built := s.built + 1), t, StartRunning(s.built))
    case StartRunning(i) => Move(if ok then s.(started := s.started + {i}) else s, t, StartReturned(i, ok))
    case StartReturned(i, r) => Acquire(s, t, StartFinishing(i, r))
    case StartFinishing(i, r) =>
      if s.status != Starting then Release(s, t, Done)
      else Release(s.(status := if r then Started else Fatal), t, Done)
    case CloseEnter => Acquire(s, t, CloseLocked)
    case CloseLocked =>
      if s.status != Starting && s.status != Started then Release(s, t, Done)
      else Move(s.(status := Stopping, instance := None), t, CloseClosing(s.instance))
    case CloseClosing(taken) =>
      var after := if taken.Some? then s.(closed := s.closed + {taken.value}) else s;
      Release(after.(status := if taken.Some? && !ok then Fatal else Idle), t, Done)
    case ErrorEnter => Acquire(s, t, ErrorLocked)
    case ErrorLocked => Release(s.(status := Fatal), t, Done)
    case Done => s
  }

  datatype Event = Begin(call: Call, thread: Thread) | Run(thread: Thread, ok: bool)

  function Step(s: State, e: Event): State {
    match e
    case Begin(call, t) =>
      if t in s.pc then s
      else Move(s, t, match call
                      case StartOrReload => StartEnter
                      case CloseService => CloseEnter
                      case SetError => ErrorEnter)
    case Run(t, ok) => if t in s.pc then StepOf(s, t, ok) else s
  }

  function RunAll(events: seq<Event>): State {
    if events == [] then INITIAL else Step(RunAll(events[..|events| - 1]), events[|events| - 1])
  }

  // ----- every interleaving

  predicate Running(s: State) {
    s.status == Starting || s.status == Started
  }

  /** The lock is held by exactly the call that stands at a locked step. */
  ghost predicate LockMatches(s: State) {
    && (forall t :: t in s.pc && Holds(s.pc[t]) ==> s.lock == Some(t))
    && (s.lock.Some? ==> s.lock.value in s.pc && Holds(s.pc[s.lock.value]))
  }

  /** A running service has an instance, except inside the step sequence that is about to set it. */
  ghost predicate Inv(s: State) {
    && LockMatches(s)
    && (Running(s) && s.instance.None? ==> s.lock.Some? && s.lock.value in s.pc && s.pc[s.lock.value].StartCreating?)
    && (forall t :: t in s.pc && s.pc[t].StartCreating? ==> s.status == Starting)
    && (forall t :: t in s.pc && s.pc[t].CloseClosing? ==> s.status == Stopping)
  }

  lemma StartStepKeepsInv(s: State, t: Thread, ok: bool)
    requires Inv(s) && t in s.pc && IsStart(s.pc[t])
    ensures Inv(StepOf(s, t, ok))
  {
  }

  lemma OtherStepKeepsInv(s: State, t: Thread, ok: bool)
    requires Inv(s) && t in s.pc && !IsStart(s.pc[t])
    ensures Inv(StepOf(s, t, ok))
  {
  }

  lemma StepKeepsInv(s: State, e: Event)
    requires Inv(s)
    ensures Inv(Step(s, e))
  {
    if e.Run? && e.thread in s.pc {
      if IsStart(s.pc[e.thread]) {
        StartStepKeepsInv(s, e.thread, e.ok);
      } else {
        OtherStepKeepsInv(s, e.thread, e.ok);
      }
    }
  }

  /** Handlers that read under the lock find an instance whenever the status says so. */
  lemma {:induction false} InstanceWhenLockFree(events: seq<Event>)
    ensures Inv(RunAll(events))
    ensures var s := RunAll(events); s.lock.None? && Running(s) ==> s.instance.Some?
  {
    if events != [] {
      InstanceWhenLockFree(events[..|events| - 1]);
      StepKeepsInv(RunAll(events[..|events| - 1]), events[|events| - 1]);
    }
  }

  /**
    Started is only entered from Starting, and the lock only passes from a
    call to nobody and from nobody to a call, at that call's own step: no
    path releases it twice or leaves it held.
   */
  lemma StatusAndLockDiscipline(events: seq<Event>, e: Event)
    ensures var s, n := RunAll(events), Step(RunAll(events), e);
            && (n.status == Started && s.status != Started ==> s.status == Starting)
            && (s.lock != n.lock ==>
                  && e.Run?
                  && if s.lock.None? then n.lock == Some(e.thread) else s.lock == Some(e.thread) && n.lock == None)
            && (forall t :: t in n.pc && n.pc[t].Done? ==> n.lock != Some(t))
  {
    InstanceWhenLockFree(events);
    StepKeepsInv(RunAll(events), e);
  }

  /** What a step of a call may make of the status, by where the call stands. */
  ghost predicate StatusEdge(pc: Pc, ok: bool, before: Status, after: Status) {
    match pc
    case StartLocked => after == before || (after == Stopping && before != Stopping)
    case StartBuilding => after == Starting
    case StartCreating => if ok then after == before else after == Fatal
    case StartFinishing(_, succeeded) =>
      if before == Starting then after == (if succeeded then Started else Fatal) else after == before
    case CloseLocked => if before == Starting || before == Started then after == Stopping else after == before
    case CloseClosing(taken) => after == (if taken.Some? && !ok then Fatal else Idle)
    case ErrorLocked => after == Fatal
    case _ => after == before
  }

  /** What it may make of the instance. */
  ghost predicate InstanceEdge(pc: Pc, ok: bool, s: State, n: State) {
    match pc
    case StartCreating => if ok then n.instance == Some(s.built) && n.built == s.built + 1 else n.instance == s.instance
    case CloseLocked => n.instance == if s.status == Starting || s.status == Started then None else s.instance
    case _ => n.instance == s.instance && n.built == s.built
  }

  /**
    In every interleaving the status, the instance and what was closed change
    only by the step of a call that may change them: a start is refused while
    stopping and otherwise closes the instance it finds, a close is refused
    unless running, an error always ends in Fatal.
   */
  lemma StepsFollowEdges(events: seq<Event>, e: Event)
    ensures var s, n := RunAll(events), Step(RunAll(events), e);
            if e.Begin? || e.thread !in s.pc
            then n.status == s.status && n.instance == s.instance && n.closed == s.closed && n.started == s.started
            else
              var pc := s.pc[e.thread];
              && e.thread in n.pc && StatusEdge(pc, e.ok, s.status, n.status) && InstanceEdge(pc, e.ok, s, n)
              && (pc.StartLocked? ==>
                    n.pc[e.thread] == if s.status == Stopping then Done
                                      else if s.instance.Some? then StartClosing(s.instance.value) else StartBuilding)
              && (pc.StartLocked? ==> (n.status != s.status <==> s.status != Stopping && s.instance.Some?))
              && (pc.CloseLocked? && n.status != s.status ==> n.pc[e.thread] == CloseClosing(s.instance))
              && n.closed == (if pc.StartClosing? then s.closed + {pc.previous}
                              else if pc.CloseClosing? && pc.taken.Some? then s.closed + {pc.taken.value} else s.closed)
              && n.started == if pc.StartRunning? && e.ok then s.started + {pc.instance} else s.started
  {
  }

  // ----- exactly when a run goes wrong

  /** A service that reports Started runs an instance whose start succeeded and which nobody closed. */
  ghost predicate StartedIsReal(s: State) {
    s.status == Started ==> s.instance.Some? && s.instance.value in s.started && s.instance.value !in s.closed
  }

  /** A closed instance is behind us, one in the hands of a call is about to be. */
  ghost predicate BeingClosed(s: State, i: Instance) {
    exists t :: t in s.pc && (s.pc[t] == StartClosing(i) || s.pc[t] == CloseClosing(Some(i)))
  }

  /** Every instance ever built is closed, being closed, or the current one. */
  ghost predicate NoLeak(s: State) {
    forall i: nat :: i < s.built ==> i in s.closed || s.instance == Some(i) || BeingClosed(s, i)
  }

  /** Every instance that a call has in hand was built. */
  ghost predicate KnownInstances(s: State) {
    && (s.instance.Some? ==> s.instance.value < s.built)
    && (forall i :: i in s.closed ==> i < s.built)
    && (forall t :: t in s.pc && s.pc[t].StartClosing? ==> s.pc[t].previous < s.built)
    && (forall t :: t in s.pc && s.pc[t].CloseClosing? && s.pc[t].taken.Some? ==> s.pc[t].taken.value < s.built)
  }

  lemma StartKnowsInstances(s: State, t: Thread, ok: bool)
    requires KnownInstances(s) && t in s.pc && IsStart(s.pc[t])
    ensures KnownInstances(StepOf(s, t, ok))
  {
  }

  lemma OtherKnowsInstances(s: State, t: Thread, ok: bool)
    requires KnownInstances(s) && t in s.pc && !IsStart(s.pc[t])
    ensures KnownInstances(StepOf(s, t, ok))
  {
  }

  lemma KnownInstancesStep(s: State, t: Thread, ok: bool)
    requires KnownInstances(s) && t in s.pc
    ensures KnownInstances(StepOf(s, t, ok))
  {
    if IsStart(s.pc[t]) { StartKnowsInstances(s, t, ok); } else { OtherKnowsInstances(s, t, ok); }
  }

  /** A running service has an instance that is open and that no start is about to close. */
  ghost predicate CurrentIsOpen(s: State) {
    Running(s) && !(s.lock.Some? && s.lock.value in s.pc && s.pc[s.lock.value].StartCreating?) ==>
      && s.instance.Some? && s.instance.value !in s.closed
      && forall t :: t in s.pc ==> s.pc[t] != StartClosing(s.instance.value)
  }

  lemma StartKeepsCurrentOpen(s: State, t: Thread, ok: bool)
    requires LockMatches(s) && KnownInstances(s) && CurrentIsOpen(s) && t in s.pc && IsStart(s.pc[t])
    ensures CurrentIsOpen(StepOf(s, t, ok))
  {
  }

  lemma OtherKeepsCurrentOpen(s: State, t: Thread, ok: bool)
    requires Inv(s) && CurrentIsOpen(s) && t in s.pc && !IsStart(s.pc[t])
    ensures CurrentIsOpen(StepOf(s, t, ok))
  {
  }

  lemma {:induction false} RunKeepsInstances(events: seq<Event>)
    ensures KnownInstances(RunAll(events)) && CurrentIsOpen(RunAll(events))
  {
    if events != [] {
      var front, e := events[..|events| - 1], events[|events| - 1];
      var s := RunAll(front);
      RunKeepsInstances(front);
      InstanceWhenLockFree(front);
      if e.Run? && e.thread in s.pc {
        KnownInstancesStep(s, e.thread, e.ok);
        if IsStart(s.pc[e.thread]) {
          StartKeepsCurrentOpen(s, e.thread, e.ok);
        } else {
          OtherKeepsCurrentOpen(s, e.thread, e.ok);
        }
      }
    }
  }

  /**
    A start that succeeded finds the status Starting, but the instance in
    place has not started: it is not the one this start has built.
   */
  predicate ReportsFalseStart(s: State, e: Event) {
    && e.Run? && e.thread in s.pc && s.pc[e.thread].StartFinishing? && s.pc[e.thread].ok && s.status == Starting
    && !(s.instance.Some? && s.instance.value in s.started)
  }

  /** A start puts its instance over one that is open and that nobody is about to close. */
  ghost predicate DropsInstance(s: State, e: Event) {
    && e.Run? && e.ok && e.thread in s.pc && s.pc[e.thread].StartCreating?
    && s.instance.Some? && s.instance.value !in s.closed && !BeingClosed(s, s.instance.value)
  }

  lemma FalseStartStep(s: State, e: Event)
    requires Inv(s) && KnownInstances(s) && CurrentIsOpen(s) && StartedIsReal(s)
    ensures StartedIsReal(Step(s, e)) <==> !ReportsFalseStart(s, e)
  {
  }

  /** From every reachable state in which Started is not false, exactly such a step makes it so. */
  lemma FalseStartExactly(events: seq<Event>, e: Event)
    requires StartedIsReal(RunAll(events))
    ensures StartedIsReal(Step(RunAll(events), e)) <==> !ReportsFalseStart(RunAll(events), e)
  {
    InstanceWhenLockFree(events);
    RunKeepsInstances(events);
    FalseStartStep(RunAll(events), e);
  }

  lemma ClosedGrows(s: State, e: Event)
    ensures s.closed <= Step(s, e).closed
  {
  }

  /** An instance that a call has taken to close stays with it until it is closed. */
  lemma TakenStaysTaken(s: State, e: Event, i: Instance, t: Thread)
    requires t in s.pc && (s.pc[t] == StartClosing(i) || s.pc[t] == CloseClosing(Some(i)))
    ensures var n := Step(s, e); i in n.closed || (t in n.pc && n.pc[t] == s.pc[t])
  {
  }

  /** The current instance stays, is taken by a close, or is dropped. */
  lemma CurrentGoes(s: State, e: Event, i: Instance)
    requires s.instance == Some(i)
    ensures var n := Step(s, e);
            n.instance != Some(i) ==>
              && e.Run? && e.thread in s.pc && e.thread in n.pc
              && (n.pc[e.thread] == CloseClosing(Some(i)) || (e.ok && s.pc[e.thread].StartCreating?))
  {
  }

  lemma KeptInstance(s: State, e: Event, i: Instance)
    requires !DropsInstance(s, e) && (i in s.closed || s.instance == Some(i) || BeingClosed(s, i))
    ensures var n := Step(s, e); i in n.closed || n.instance == Some(i) || BeingClosed(n, i)
  {
    ClosedGrows(s, e);
    if i !in s.closed {
      if BeingClosed(s, i) {
        var t :| t in s.pc && (s.pc[t] == StartClosing(i) || s.pc[t] == CloseClosing(Some(i)));
        TakenStaysTaken(s, e, i, t);
      } else {
        CurrentGoes(s, e, i);
      }
    }
  }

  lemma LeakExactly(s: State, e: Event)
    requires KnownInstances(s) && NoLeak(s)
    ensures NoLeak(Step(s, e)) <==> !DropsInstance(s, e)
  {
    var n := Step(s, e);
    if DropsInstance(s, e) {
      var i := s.instance.value;
      if BeingClosed(n, i) {
        var t :| t in n.pc && (n.pc[t] == StartClosing(i) || n.pc[t] == CloseClosing(Some(i)));
        assert false;
      }
    } else {
      forall i: nat | i < n.built ensures i in n.closed || n.instance == Some(i) || BeingClosed(n, i) {
        if i < s.built { KeptInstance(s, e, i); }
      }
    }
  }

  /** At every point of the run. */
  ghost predicate AlwaysReal(events: seq<Event>) {
    StartedIsReal(RunAll(events)) && (events != [] ==> AlwaysReal(events[..|events| - 1]))
  }

  ghost predicate NeverLeaks(events: seq<Event>) {
    NoLeak(RunAll(events)) && (events != [] ==> NeverLeaks(events[..|events| - 1]))
  }

  ghost predicate NoFalseStart(events: seq<Event>) {
    events != [] ==>
      && NoFalseStart(events[..|events| - 1])
      && !ReportsFalseStart(RunAll(events[..|events| - 1]), events[|events| - 1])
  }

  ghost predicate NothingDropped(events: seq<Event>) {
    events != [] ==>
      && NothingDropped(events[..|events| - 1])
      && !DropsInstance(RunAll(events[..|events| - 1]), events[|events| - 1])
  }

  /** Over every interleaving, Started always means a running instance if and only if no start reports falsely. */
  lemma {:induction false} StartedIsRealExactly(events: seq<Event>)
    ensures AlwaysReal(events) <==> NoFalseStart(events)
  {
    if events != [] {
      var front := events[..|events| - 1];
      StartedIsRealExactly(front);
      if AlwaysReal(front) { FalseStartExactly(front, events[|events| - 1]); }
    }
  }

  /** Over every interleaving, no instance is ever lost if and only if no start puts its own over an open one. */
  lemma {:induction false} NoLeakExactly(events: seq<Event>)
    ensures NeverLeaks(events) <==> NothingDropped(events)
  {
    if events != [] {
      var front := events[..|events| - 1];
      NoLeakExactly(front);
      RunKeepsInstances(front);
      if NeverLeaks(front) { LeakExactly(RunAll(front), events[|events| - 1]); }
    }
  }

  // ----- starts that do not overlap

  /** A start begins only when no other start is under way. */
  predicate Serial(s: State, e: Event) {
    e.Begin? && e.call == StartOrReload ==> forall t :: t in s.pc ==> !IsStart(s.pc[t])
  }

  ghost predicate SerialRun(events: seq<Event>) {
    forall k :: 0 <= k < |events| ==> Serial(RunAll(events[..k]), events[k])
  }

  /** The start under way agrees with the status. */
  ghost predicate StartAgrees(s: State, t: Thread)
    requires t in s.pc
  {
    match s.pc[t]
    case StartClosing(i) => !Running(s) && s.instance == Some(i)
    case StartReenter => !Running(s) && (s.instance.Some? ==> s.instance.value in s.closed)
    case StartBuilding => !Running(s) && (s.instance.Some? ==> s.instance.value in s.closed)
    case StartCreating => s.instance.Some? ==> s.instance.value in s.closed
    case StartRunning(i) => s.status == Starting ==> s.instance == Some(i) && i !in s.closed
    case StartReturned(i, ok) =>
      s.status == Starting ==> s.instance == Some(i) && i !in s.closed && (ok ==> i in s.started)
    case StartFinishing(i, ok) =>
      s.status == Starting ==> s.instance == Some(i) && i !in s.closed && (ok ==> i in s.started)
    case _ => true
  }

  ghost predicate OneStart(s: State) {
    forall t, u :: t in s.pc && u in s.pc && IsStart(s.pc[t]) && IsStart(s.pc[u]) ==> t == u
  }

  ghost predicate AllAgree(s: State) {
    forall t :: t in s.pc ==> StartAgrees(s, t)
  }

  ghost predicate SerialInv(s: State) {
    Inv(s) && OneStart(s) && AllAgree(s) && StartedIsReal(s) && KnownInstances(s)
  }

  lemma StepMovesOne(s: State, t: Thread, ok: bool)
    requires t in s.pc
    ensures t in StepOf(s, t, ok).pc && StepOf(s, t, ok).pc == s.pc[t := StepOf(s, t, ok).pc[t]]
    ensures IsStart(StepOf(s, t, ok).pc[t]) ==> IsStart(s.pc[t])
  {
  }

  /** A step makes no start out of another call, and leaves the other calls where they are. */
  lemma StepMakesNoStart(s: State, t: Thread, ok: bool)
    requires t in s.pc
    ensures var n := StepOf(s, t, ok);
            n.pc.Keys == s.pc.Keys && forall u :: u in n.pc && IsStart(n.pc[u]) ==> IsStart(s.pc[u])
  {
    StepMovesOne(s, t, ok);
  }

  lemma OneStartStep(s: State, e: Event)
    requires OneStart(s) && Serial(s, e)
    ensures OneStart(Step(s, e))
  {
    if e.Run? && e.thread in s.pc { StepMakesNoStart(s, e.thread, e.ok); }
  }

  lemma StartedIsRealStep(s: State, t: Thread, ok: bool)
    requires Inv(s) && AllAgree(s) && StartedIsReal(s) && t in s.pc
    ensures StartedIsReal(StepOf(s, t, ok))
  {
  }

  lemma OwnAgrees(s: State, t: Thread, ok: bool)
    requires Inv(s) && AllAgree(s) && KnownInstances(s) && t in s.pc
    ensures StartAgrees(StepOf(s, t, ok), t)
  {
    assert StartAgrees(s, t);
  }

  /** A close or an error leaves a start in agreement. */
  lemma OtherCallAgrees(s: State, t: Thread, ok: bool, u: Thread)
    requires Inv(s) && t in s.pc && u in s.pc && u != t && !IsStart(s.pc[t]) && StartAgrees(s, u)
    ensures u in StepOf(s, t, ok).pc && StartAgrees(StepOf(s, t, ok), u)
  {
  }

  lemma OthersAgree(s: State, t: Thread, ok: bool, u: Thread)
    requires Inv(s) && OneStart(s) && AllAgree(s) && t in s.pc && u in s.pc && u != t
    ensures u in StepOf(s, t, ok).pc && StartAgrees(StepOf(s, t, ok), u)
  {
    assert StartAgrees(s, u);
    if !IsStart(s.pc[t]) {
      OtherCallAgrees(s, t, ok, u);
    } else {
      assert !IsStart(s.pc[u]) && StepOf(s, t, ok).pc[u] == s.pc[u];
    }
  }

  lemma AllAgreeStep(s: State, t: Thread, ok: bool)
    requires Inv(s) && OneStart(s) && AllAgree(s) && KnownInstances(s) && t in s.pc
    ensures AllAgree(StepOf(s, t, ok))
  {
    var n := StepOf(s, t, ok);
    StepMakesNoStart(s, t, ok);
    forall u | u in n.pc ensures StartAgrees(n, u) {
      if u == t { OwnAgrees(s, t, ok); } else { OthersAgree(s, t, ok, u); }
    }
  }

  lemma SerialBegin(s: State, call: Call, t: Thread)
    requires AllAgree(s) && StartedIsReal(s) && KnownInstances(s)
    ensures var n := Step(s, Begin(call, t)); AllAgree(n) && StartedIsReal(n) && KnownInstances(n)
  {
  }

  lemma SerialStep(s: State, e: Event)
    requires SerialInv(s) && Serial(s, e)
    ensures SerialInv(Step(s, e))
  {
    StepKeepsInv(s, e);
    OneStartStep(s, e);
    match e
    case Begin(call, t) => SerialBegin(s, call, t);
    case Run(t, ok) =>
      if t in s.pc {
        KnownInstancesStep(s, t, ok);
        StartedIsRealStep(s, t, ok);
        AllAgreeStep(s, t, ok);
      }
  }

  lemma SerialDropsNothing(s: State, e: Event)
    requires AllAgree(s)
    ensures !DropsInstance(s, e)
  {
    if e.Run? && e.thread in s.pc { assert StartAgrees(s, e.thread); }
  }

  lemma SerialPrefix(events: seq<Event>)
    requires events != [] && SerialRun(events)
    ensures SerialRun(events[..|events| - 1])
    ensures Serial(RunAll(events[..|events| - 1]), events[|events| - 1])
  {
    var front := events[..|events| - 1];
    forall k | 0 <= k < |front| ensures Serial(RunAll(front[..k]), front[k]) {
      assert front[..k] == events[..k];
    }
  }

  /**
    When starts do not overlap, a service that reports Started runs an
    instance whose start succeeded and which nobody closed, and no instance
    is ever lost; closes and errors may come at any point.
   */
  lemma {:induction false} SerialStartsAreSound(events: seq<Event>)
    requires SerialRun(events)
    ensures SerialInv(RunAll(events)) && NoLeak(RunAll(events))
    ensures var s := RunAll(events);
            s.status == Started ==> s.instance.Some? && s.instance.value in s.started && s.instance.value !in s.closed
  {
    if events != [] {
      var front := events[..|events| - 1];
      SerialPrefix(events);
      SerialStartsAreSound(front);
      SerialStep(RunAll(front), events[|events| - 1]);
      SerialDropsNothing(RunAll(front), events[|events| - 1]);
      LeakExactly(RunAll(front), events[|events| - 1]);
    }
  }

  lemma Snoc(events: seq<Event>, e: Event)
    ensures RunAll(events + [e]) == Step(RunAll(events), e)
  {
  }

  lemma Extend(events: seq<Event>, e: Event) returns (longer: seq<Event>)
    ensures RunAll(longer) == Step(RunAll(events), e)
  {
    longer := events + [e];
    Snoc(events, e);
  }

  /** A start that finds no instance runs up to the start of the one it builds. */
  lemma StartFromIdle(events: seq<Event>, t: Thread) returns (longer: seq<Event>)
    requires var s := RunAll(events); s.status == Idle && s.instance.None? && s.lock.None? && t !in s.pc
    ensures var s := RunAll(events);
            RunAll(longer) == s.(status := Starting, instance := Some(s.built), built := s.built + 1,
                                 pc := s.pc[t := StartRunning(s.built)])
  {
    longer := Extend(events, Begin(StartOrReload, t));
    longer := Extend(longer, Run(t, true));
    longer := Extend(longer, Run(t, true));
    longer := Extend(longer, Run(t, true));
    longer := Extend(longer, Run(t, true));
  }

  lemma CloseWhileStarting(events: seq<Event>, t: Thread, i: Instance) returns (longer: seq<Event>)
    requires var s := RunAll(events); s.status == Starting && s.instance == Some(i) && s.lock.None? && t !in s.pc
    ensures var s := RunAll(events);
            RunAll(longer) == s.(status := Idle, instance := None, closed := s.closed + {i}, pc := s.pc[t := Done])
  {
    longer := Extend(events, Begin(CloseService, t));
    longer := Extend(longer, Run(t, true));
    longer := Extend(longer, Run(t, true));
    longer := Extend(longer, Run(t, true));
  }

  lemma StartReturns(events: seq<Event>, t: Thread, i: Instance) returns (longer: seq<Event>)
    requires var s := RunAll(events); s.status == Starting && s.lock.None? && t in s.pc && s.pc[t] == StartRunning(i)
    ensures var s := RunAll(events);
            RunAll(longer) == s.(status := Started, started := s.started + {i}, pc := s.pc[t := Done])
  {
    longer := Extend(events, Run(t, true));
    longer := Extend(longer, Run(t, true));
    longer := Extend(longer, Run(t, true));
  }

  /**
    Overlapping starts break it: a start whose instance was closed meanwhile
    finds the status Starting that a later start has set, and reports Started
    for an instance that has not started.
   */
  lemma OverlappingStarts() returns (events: seq<Event>)
    ensures var s := RunAll(events);
            s.lock.None? && s.status == Started && s.instance == Some(1) && 1 !in s.started && 0 in s.closed
  {
    events := StartFromIdle([], 0);
    events := CloseWhileStarting(events, 1, 0);
    events := StartFromIdle(events, 2);
    events := StartReturns(events, 0, 0);
  }

  /** A reload takes the current instance away to close it. */
  lemma ReloadBegins(events: seq<Event>, t: Thread, i: Instance) returns (longer: seq<Event>)
    requires var s := RunAll(events); s.status != Stopping && s.instance == Some(i) && s.lock.None? && t !in s.pc
    ensures var s := RunAll(events); RunAll(longer) == s.(status := Stopping, pc := s.pc[t := StartClosing(i)])
  {
    longer := Extend(events, Begin(StartOrReload, t));
    longer := Extend(longer, Run(t, true));
    longer := Extend(longer, Run(t, true));
  }

  lemma ErrorSet(events: seq<Event>, t: Thread) returns (longer: seq<Event>)
    requires RunAll(events).lock.None? && t !in RunAll(events).pc
    ensures var s := RunAll(events); RunAll(longer) == s.(status := Fatal, pc := s.pc[t := Done])
  {
    longer := Extend(events, Begin(SetError, t));
    longer := Extend(longer, Run(t, true));
    longer := Extend(longer, Run(t, true));
  }

  lemma ReloadBuilds(events: seq<Event>, t: Thread, i: Instance) returns (longer: seq<Event>)
    requires var s := RunAll(events); s.lock.None? && t in s.pc && s.pc[t] == StartClosing(i)
    ensures var s := RunAll(events);
            RunAll(longer) == s.(status := Starting, closed := s.closed + {i}, instance := Some(s.built),
                                 built := s.built + 1, pc := s.pc[t := StartRunning(s.built)])
  {
    longer := Extend(events, Run(t, true));
    longer := Extend(longer, Run(t, true));
    longer := Extend(longer, Run(t, true));
    longer := Extend(longer, Run(t, true));
  }

  lemma TwoReloads() returns (events: seq<Event>)
    ensures RunAll(events)
            == State(Stopping, Some(0), None,
                     map[0 := StartRunning(0), 1 := StartClosing(0), 2 := Done, 3 := StartClosing(0)], 1, {}, {})
  {
    events := StartFromIdle([], 0);
    events := ReloadBegins(events, 1, 0);
    events := ErrorSet(events, 2);
    events := ReloadBegins(events, 3, 0);
  }

  /** Two reloads that an error lets overlap both close the old instance, and the first one's own is lost. */
  lemma OverlappingReloadsLeak() returns (events: seq<Event>)
    ensures var s := RunAll(events);
            s.lock.None? && 1 < s.built && 1 !in s.closed && s.instance != Some(1) && !BeingClosed(s, 1)
  {
    events := TwoReloads();
    events := ReloadBuilds(events, 1, 0);
    events := ReloadBuilds(events, 3, 0);
  }
}
